/**
  The automatic-model request as a whole: what is kept of a conversation always fits the state
  budget, and with accepted presets the request always fits its own.
*/
module AutomodelBudget {
  import opened Wrappers
  import opened AutomodelText
  import opened AutomodelCompact

  const MAX_STATE := 16384
  const MAX_REQUEST := 24576
  const INSTRUCTION_BUDGET := 1024
  const TASK_BUDGET := MAX_STATE - INSTRUCTION_BUDGET - CONVERSATION_BUDGET - TOOL_BUDGET - 512

  datatype Phase = UserTask | ToolContinuation | Other

  function PhaseName(p: Phase): string {
    match p
    case UserTask => "user_task"
    case ToolContinuation => "tool_continuation"
    case Other => "other"
  }

  function Flag(b: bool): nat { if b then 4 else 5 }

  datatype State = State(
    phase: Phase, task: Text, recent: seq<Message>, instructions: seq<Message>,
    hasTools: bool, hasNonText: bool, truncated: bool)

  const STATE_FRAME := 158

  // The encoded state: keys and punctuation, then the values.
  function StateSize(s: State): nat {
    STATE_FRAME + |PhaseName(s.phase)| + Json(s.task) + ListSize(s.recent) + ListSize(s.instructions)
    + Flag(s.hasTools) + Flag(s.hasNonText) + Flag(s.truncated)
  }

  // ---- removing messages ---------------------------------------------------------------------

  lemma DropLast(ms: seq<Message>)
    requires ms != []
    ensures ListSize(ms[..|ms| - 1]) == ListSize(ms) - Size(ms[|ms| - 1]) - if |ms| > 1 then 1 else 0
  {
    var n := |ms| - 1;
    SizesAppend(ms[..n], ms[n]);
    assert ms == ms[..n] + [ms[n]];
  }

  lemma DropFirst(ms: seq<Message>)
    requires ms != []
    ensures ListSize(ms[1..]) == ListSize(ms) - Size(ms[0]) - if |ms| > 1 then 1 else 0
  {
    assert Sizes(ms)[1..] == Sizes(ms[1..]);
  }

  function WithoutInstruction(s: State): State
    requires s.instructions != []
  {
    s.(instructions := s.instructions[..|s.instructions| - 1], truncated := true)
  }

  function WithoutContext(s: State): State
    requires s.recent != []
  {
    s.(recent := s.recent[1..], truncated := true)
  }

  // What a removal takes off the encoded size: the element, its comma, and "false" becoming "true".
  function Saved(m: Message, count: nat, truncated: bool): nat {
    Size(m) + (if count > 1 then 1 else 0) + if truncated then 0 else 1
  }

  lemma InstructionSaves(s: State)
    requires s.instructions != []
    ensures StateSize(WithoutInstruction(s)) ==
            StateSize(s) - Saved(s.instructions[|s.instructions| - 1], |s.instructions|, s.truncated)
  {
    hide ListSize, Size;
    DropLast(s.instructions);
  }

  lemma ContextSaves(s: State)
    requires s.recent != []
    ensures StateSize(WithoutContext(s)) == StateSize(s) - Saved(s.recent[0], |s.recent|, s.truncated)
  {
    hide ListSize, Size;
    DropFirst(s.recent);
  }

  // The state with only its first instructions, and with the oldest context gone.
  function Keeping(s: State, kept: nat): State
    requires kept <= |s.instructions|
  {
    if kept == |s.instructions| then s else s.(instructions := s.instructions[..kept], truncated := true)
  }

  function Dropping(s: State, dropped: nat): State
    requires dropped <= |s.recent|
  {
    if dropped == 0 then s else s.(recent := s.recent[dropped..], truncated := true)
  }

  lemma KeepingOneLess(s: State, kept: nat)
    requires 0 < kept <= |s.instructions|
    ensures |Keeping(s, kept).instructions| == kept
    ensures Keeping(s, kept - 1) == WithoutInstruction(Keeping(s, kept))
  {
    assert s.instructions[..kept][..kept - 1] == s.instructions[..kept - 1];
  }

  lemma DroppingOneMore(s: State, dropped: nat)
    requires dropped < |s.recent|
    ensures |Dropping(s, dropped).recent| == |s.recent| - dropped
    ensures Dropping(s, dropped + 1) == WithoutContext(Dropping(s, dropped))
  {
    assert s.recent[dropped..][1..] == s.recent[dropped + 1..];
  }

  // Removes instructions from the end until the state fits, keeping the running size exact.
  method DropInstructions(given: State) returns (s: State, encoded: int, kept: nat)
    ensures kept <= |given.instructions| && s == Keeping(given, kept) && encoded == StateSize(s)
    ensures kept < |given.instructions| ==> StateSize(Keeping(given, kept + 1)) > MAX_STATE && StateSize(given) > MAX_STATE
    ensures encoded > MAX_STATE ==> kept == 0
  {
    hide StateSize, Size, Keeping;
    kept := |given.instructions|;
    s, encoded := given, StateSize(given);
    assert s == Keeping(given, kept) by { KeepingAll(given); }
    while encoded > MAX_STATE && kept > 0
      invariant kept <= |given.instructions| && s == Keeping(given, kept) && encoded == StateSize(s)
      invariant kept < |given.instructions| ==>
                  StateSize(Keeping(given, kept + 1)) > MAX_STATE && StateSize(given) > MAX_STATE
      invariant kept == |given.instructions| ==> s == given
    {
      KeepingOneLess(given, kept);
      InstructionSaves(s);
      encoded := encoded - Size(s.instructions[kept - 1]);
      if kept > 1 {
        encoded := encoded - 1;
      }
      if !s.truncated {
        encoded := encoded - 1;
      }
      s := s.(instructions := s.instructions[..kept - 1], truncated := true);
      kept := kept - 1;
    }
  }

  lemma KeepingAll(s: State)
    ensures Keeping(s, |s.instructions|) == s && Dropping(s, 0) == s
  {
  }

  // Removes context from the front until the state fits, keeping the running size exact.
  method DropContext(given: State, size: int) returns (s: State, encoded: int, dropped: nat)
    requires size == StateSize(given)
    ensures dropped <= |given.recent| && s == Dropping(given, dropped) && encoded == StateSize(s)
    ensures dropped > 0 ==> StateSize(Dropping(given, dropped - 1)) > MAX_STATE && size > MAX_STATE
    ensures encoded > MAX_STATE ==> dropped == |given.recent|
  {
    hide StateSize, Size, Dropping;
    s, encoded, dropped := given, size, 0;
    assert s == Dropping(given, dropped) by { KeepingAll(given); }
    while encoded > MAX_STATE && dropped < |given.recent|
      invariant dropped <= |given.recent| && s == Dropping(given, dropped) && encoded == StateSize(s)
      invariant dropped > 0 ==> StateSize(Dropping(given, dropped - 1)) > MAX_STATE && size > MAX_STATE
    {
      DroppingOneMore(given, dropped);
      ContextSaves(s);
      encoded := encoded - Size(s.recent[0]);
      if |s.recent| > 1 {
        encoded := encoded - 1;
      }
      if !s.truncated {
        encoded := encoded - 1;
      }
      s := s.(recent := s.recent[1..], truncated := true);
      dropped := dropped + 1;
    }
  }

  // Removes instructions, then context, until the state fits; reports whether it does.
  method Shrink(given: State) returns (s: State, fits: bool, kept: nat, dropped: nat)
    ensures kept <= |given.instructions| && dropped <= |given.recent|
    ensures s == Dropping(Keeping(given, kept), dropped)
    ensures fits <==> StateSize(s) <= MAX_STATE
    ensures kept < |given.instructions| || dropped > 0 ==> StateSize(given) > MAX_STATE
    ensures kept < |given.instructions| ==> StateSize(Keeping(given, kept + 1)) > MAX_STATE
    ensures dropped > 0 ==> kept == 0 && StateSize(Dropping(Keeping(given, kept), dropped - 1)) > MAX_STATE
    ensures !fits ==> kept == 0 && dropped == |given.recent|
  {
    hide StateSize;
    var mid, size;
    mid, size, kept := DropInstructions(given);
    var encoded;
    s, encoded, dropped := DropContext(mid, size);
    fits := encoded <= MAX_STATE;
  }

  // A state that fits is left as it is.
  lemma NothingToRemove(given: State, kept: nat, dropped: nat)
    requires kept <= |given.instructions| && dropped <= |given.recent| && StateSize(given) <= MAX_STATE
    requires kept < |given.instructions| || dropped > 0 ==> StateSize(given) > MAX_STATE
    ensures Dropping(Keeping(given, kept), dropped) == given
  {
    hide StateSize;
  }

  // ---- the state of a conversation -------------------------------------------------------------

  datatype Fault = NonTextTask | TaskMissing

  // What the request body contains, once read: the messages in order, which of them is the latest
  // task (if any), and the system and developer instructions.
  datatype Conversation = Conversation(
    phase: Phase, messages: seq<Message>, latest: Option<nat>, instructions: seq<Message>, hasTools: bool, hasNonText: bool)

  const USER := Word("user")
  const MESSAGE := Word("message")
  const TOOL_RESULT := Word("tool_result")

  predicate IsTask(m: Message) {
    m.role == USER && m.kind == MESSAGE
  }

  predicate Readable(c: Conversation) {
    && (forall i :: 0 <= i < |c.messages| ==> ValidMessage(c.messages[i]))
    && (c.latest.Some? ==> c.latest.value < |c.messages| && IsTask(c.messages[c.latest.value]))
  }

  lemma TaskFrame(m: Message)
    requires IsTask(m)
    ensures Size(m) == 42 + Json(m.text)
  {
    WordSizes("user");
    WordSizes("message");
  }

  ghost predicate IsPrevious(messages: seq<Message>, latest: nat, start: nat)
    requires latest < |messages|
  {
    && start <= latest && (start < latest ==> IsTask(messages[start]))
    && (forall i :: start < i < latest ==> !IsTask(messages[i]))
    && (start == latest ==> forall i :: 0 <= i < latest ==> !IsTask(messages[i]))
  }

  // The last user message before the current task.
  method Previous(messages: seq<Message>, latest: nat) returns (start: nat)
    requires latest < |messages|
    ensures IsPrevious(messages, latest, start)
  {
    hide Word;
    var index: nat := latest;
    while index > 0
      invariant index <= latest
      invariant forall i :: index <= i < latest ==> !IsTask(messages[i])
    {
      index := index - 1;
      if messages[index].role == USER && messages[index].kind == MESSAGE {
        return index;
      }
    }
    return latest;
  }

  ghost predicate TaskKept(m: Message, task: Text, truncated: bool) {
    && truncated == (Size(m) > TASK_BUDGET)
    && (!truncated ==> task == m.text)
    && (truncated ==> exists limit :: LargestFit(m, TASK_BUDGET, limit) && task == Clipped(m, limit).text)
  }

  lemma WholeTask(m: Message, task: Text, truncated: bool)
    requires TaskKept(m, task, truncated)
    ensures !truncated ==> task == m.text
  {
  }

  // The current task itself, or its longest clip within its budget.
  method FitTask(m: Message) returns (task: Text, truncated: bool)
    requires ValidMessage(m) && IsTask(m)
    ensures TaskKept(m, task, truncated)
    ensures Json(task) <= TASK_BUDGET - 42
  {
    TaskFrame(m);
    if Size(m) <= TASK_BUDGET {
      return m.text, false;
    }
    ShortFramesFit(m, TASK_BUDGET);
    var fitted, found, limit := Fit(m, TASK_BUDGET);
    TaskFrame(Clipped(m, limit));
    return fitted.text, true;
  }

  // Everything that goes into a state fits with room to spare.
  lemma PartsFit(s: State)
    requires Json(s.task) <= TASK_BUDGET - 42
    requires ListSize(s.recent) <= CONVERSATION_BUDGET + TOOL_BUDGET - 1
    requires ListSize(s.instructions) <= INSTRUCTION_BUDGET
    ensures StateSize(s) <= MAX_STATE
  {
    hide Json, ListSize;
  }

  // Nothing was left out of the state.
  predicate Complete(c: Conversation, latest: nat, s: State)
    requires latest < |c.messages|
  {
    && s.task == c.messages[latest].text && s.instructions == c.instructions
    && s.recent == c.messages[..latest] + c.messages[latest + 1..]
  }

  // The context of the current task: compacted from the user message before it on, leaving it out.
  ghost predicate ContextKept(c: Conversation, latest: nat, kept: seq<Message>, truncated: bool)
    requires latest < |c.messages|
  {
    exists start: nat, cut: bool :: ContextFrom(c, latest, start, kept, cut) && truncated == (start > 0 || cut)
  }

  ghost predicate ContextFrom(c: Conversation, latest: nat, start: nat, kept: seq<Message>, cut: bool)
    requires latest < |c.messages|
  {
    && IsPrevious(c.messages, latest, start)
    && Compacted(c.messages[start..latest] + c.messages[latest + 1..], TOOL_RESULT, kept, cut)
  }

  method Context(c: Conversation, latest: nat) returns (kept: seq<Message>, truncated: bool)
    requires latest < |c.messages|
    ensures ContextKept(c, latest, kept, truncated)
    ensures ListSize(kept) <= CONVERSATION_BUDGET + TOOL_BUDGET - 1
    ensures !truncated ==> kept == c.messages[..latest] + c.messages[latest + 1..]
  {
    hide IsTask, Word, Compacted, ListSize;
    var start := Previous(c.messages, latest);
    var recent := c.messages[start..latest] + c.messages[latest + 1..];
    var result, cut := CompactRecent(recent, TOOL_RESULT);
    assert ContextFrom(c, latest, start, result, cut);
    return result, start > 0 || cut;
  }

  // All instructions if they fit, else each fitted to its fair share.
  ghost predicate InstructionsKept(given: seq<Message>, kept: seq<Message>, truncated: bool) {
    if ListSize(given) <= INSTRUCTION_BUDGET then kept == given && !truncated
    else
      && truncated
      && (|given| >= INSTRUCTION_BUDGET - 1 ==> kept == [])
      && (|given| < INSTRUCTION_BUDGET - 1 ==>
            exists level: nat, outs :: FairShare(given, level, outs, kept))
  }

  ghost predicate FairShare(given: seq<Message>, level: nat, outs: seq<Option<Message>>, kept: seq<Message>)
    requires |given| < INSTRUCTION_BUDGET - 1
  {
    kept == Present(outs) && FairlyCompacted(given, INSTRUCTION_BUDGET - 1 - |given|, level, outs)
  }

  method Instructions(given: seq<Message>) returns (kept: seq<Message>, truncated: bool)
    ensures InstructionsKept(given, kept, truncated)
    ensures ListSize(kept) <= INSTRUCTION_BUDGET
    ensures !truncated ==> kept == given
  {
    EmptyList();
    hide ListSize, FairlyCompacted;
    var result, cut, level, outs := CompactFair(given, INSTRUCTION_BUDGET);
    if cut && |given| < INSTRUCTION_BUDGET - 1 {
      assert FairShare(given, level, outs, result);
    }
    return result, cut;
  }

  // The state holds what the budgets leave of the conversation, and says whether that is all of it.
  ghost predicate Extracted(c: Conversation, latest: nat, s: State)
    requires latest < |c.messages|
  {
    && s.phase == c.phase && s.hasTools == c.hasTools && s.hasNonText == c.hasNonText
    && exists task, context, instructions ::
         && TaskKept(c.messages[latest], s.task, task)
         && ContextKept(c, latest, s.recent, context)
         && InstructionsKept(c.instructions, s.instructions, instructions)
         && s.truncated == (task || context || instructions)
  }

  // The state before any removal.
  method Assemble(c: Conversation, latest: nat) returns (s: State)
    requires latest < |c.messages| && ValidMessage(c.messages[latest]) && IsTask(c.messages[latest])
    ensures StateSize(s) <= MAX_STATE && Extracted(c, latest, s)
    ensures !s.truncated ==> Complete(c, latest, s)
  {
    hide ListSize, StateSize, Json, Size, ValidMessage, IsTask, TaskKept, ContextKept, InstructionsKept;
    var task, cutTask := FitTask(c.messages[latest]);
    assert !cutTask ==> task == c.messages[latest].text by { WholeTask(c.messages[latest], task, cutTask); }
    var recent, cut := Context(c, latest);
    var instructions, cutInstructions := Instructions(c.instructions);
    s := State(c.phase, task, recent, instructions, c.hasTools, c.hasNonText, cutTask || cut || cutInstructions);
    PartsFit(s);
  }

  // Builds the state from a conversation. Whatever is in it, nothing has to be removed afterwards,
  // and only a missing task is refused.
  method Extract(c: Conversation) returns (r: Result<State, Fault>)
    requires Readable(c)
    ensures r.Err? <==> c.latest.None?
    ensures r.Err? ==> r.error == if c.phase == UserTask then NonTextTask else TaskMissing
    ensures r.Ok? ==> StateSize(r.value) <= MAX_STATE && Extracted(c, c.latest.value, r.value)
    ensures r.Ok? && !r.value.truncated ==> Complete(c, c.latest.value, r.value)
  {
    hide StateSize, ValidMessage, IsTask, Keeping, Dropping, Complete, Extracted;
    if c.phase == UserTask && c.latest.None? {
      return Err(NonTextTask);
    }
    if c.latest.None? {
      return Err(TaskMissing);
    }
    var s := Assemble(c, c.latest.value);
    var shrunk, fits, kept, dropped := Shrink(s);
    NothingToRemove(s, kept, dropped);
    return Ok(shrunk);
  }
}
