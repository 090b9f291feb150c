/**
  The two-level locking of the cost-limit runtime as a machine over threads.

  A request takes the table lock for reading, finds the entry of its key, takes the entry's
  mutex, gives back the table lock, updates the entry and releases the mutex; if it changed
  something it takes the table lock for reading once more to find the notifier. A
  reconfiguration takes the table lock for writing (which first announces itself and from
  then on keeps new readers out), copies each entry it keeps under that entry's mutex, and
  installs the new table. Entries are named by the table generation they belong to and their
  access key, so a request may still hold an entry of a table that was replaced.
*/
module QuotaConcurrency {
  import opened Wrappers
  import opened QuotaModel

  type Thread = nat

  type EntryId = (nat, nat)

  datatype Op =
    | AdmitOp(now: int)
    | CompleteOp(names: seq<TicketRule>, cost: int)
    | AckOp(ruleId: nat, revision: nat, version: nat)
    | ReadOp

  function Apply(op: Op, rules: seq<RuleState>): seq<RuleState> {
    match op
    case AdmitOp(now) => AdmitRules(rules, now)
    case CompleteOp(names, cost) => CompleteRules(rules, names, cost)
    case AckOp(ruleId, revision, version) => AckRules(rules, ruleId, revision, version)
    case ReadOp => rules
  }

  datatype Pc =
    | Idle
    | WantRead(key: nat, op: Op)
    | Reading(key: nat, op: Op)
    | Missing
    | WantEntry(key: nat, op: Op, entry: EntryId)
    | HoldBoth(key: nat, op: Op, entry: EntryId)
    | HoldEntry(key: nat, op: Op, entry: EntryId)
    | Updated(entry: EntryId)
    | WantNotify
    | Notifying
    | WantWrite(defs: Definitions)
    | Announced(defs: Definitions)
    | Writing(defs: Definitions, todo: set<nat>, next: Entries)
    | WantClone(defs: Definitions, todo: set<nat>, next: Entries, key: nat)
    | Cloning(defs: Definitions, todo: set<nat>, next: Entries, key: nat)
    | Failing

  datatype State = State(
    table: nat, keys: set<nat>,
    heap: map<EntryId, seq<RuleState>>, mutex: map<EntryId, Thread>,
    readers: set<Thread>, announced: Option<Thread>, writer: Option<Thread>,
    pcs: map<Thread, Pc>)

  datatype Choice = Begin(key: nat, op: Op) | BeginWrite(defs: Definitions) | Pick(key: nat) | Go | Quiet

  function PcOf(s: State, t: Thread): Pc {
    if t in s.pcs then s.pcs[t] else Idle
  }

  function At(s: State, t: Thread, pc: Pc): State {
    s.(pcs := s.pcs[t := pc])
  }

  function Prev(s: State, key: nat): seq<RuleState> {
    if key in s.keys && (s.table, key) in s.heap then s.heap[(s.table, key)] else []
  }

  function NewHeap(table: nat, next: Entries): map<EntryId, seq<RuleState>> {
    map k | k in next :: (table, k) := next[k]
  }

  // One step of one thread, if it can move.
  function Step(s: State, t: Thread, c: Choice): Option<State> {
    match PcOf(s, t)
    case Idle =>
      if c.Begin? then Some(At(s, t, WantRead(c.key, c.op)))
      else if c.BeginWrite? then Some(At(s, t, WantWrite(c.defs)))
      else None
    case WantRead(key, op) =>
      if c.Go? && s.announced.None? && s.writer.None?
      then Some(s.(pcs := s.pcs[t := Reading(key, op)], readers := s.readers + {t})) else None
    case Reading(key, op) =>
      if !c.Go? then None
      else if key in s.keys then Some(At(s, t, WantEntry(key, op, (s.table, key))))
      else Some(At(s, t, Missing))
    case Missing =>
      if c.Go? then Some(s.(pcs := s.pcs[t := Idle], readers := s.readers - {t})) else None
    case WantEntry(key, op, entry) =>
      if c.Go? && entry !in s.mutex
      then Some(s.(pcs := s.pcs[t := HoldBoth(key, op, entry)], mutex := s.mutex[entry := t])) else None
    case HoldBoth(key, op, entry) =>
      if c.Go? then Some(s.(pcs := s.pcs[t := HoldEntry(key, op, entry)], readers := s.readers - {t})) else None
    case HoldEntry(key, op, entry) =>
      if c.Go? && entry in s.heap
      then Some(s.(pcs := s.pcs[t := Updated(entry)], heap := s.heap[entry := Apply(op, s.heap[entry])])) else None
    case Updated(entry) =>
      if c.Go? then Some(s.(pcs := s.pcs[t := WantNotify], mutex := s.mutex - {entry}))
      else if c.Quiet? then Some(s.(pcs := s.pcs[t := Idle], mutex := s.mutex - {entry}))
      else None
    case WantNotify =>
      if c.Go? && s.announced.None? && s.writer.None?
      then Some(s.(pcs := s.pcs[t := Notifying], readers := s.readers + {t})) else None
    case Notifying =>
      if c.Go? then Some(s.(pcs := s.pcs[t := Idle], readers := s.readers - {t})) else None
    case WantWrite(defs) =>
      if c.Go? && s.announced.None? && s.writer.None?
      then Some(s.(pcs := s.pcs[t := Announced(defs)], announced := Some(t))) else None
    case Announced(defs) =>
      if c.Go? && s.readers == {}
      then Some(s.(pcs := s.pcs[t := Writing(defs, defs.Keys, map[])], announced := None, writer := Some(t))) else None
    case Writing(defs, todo, next) =>
      if c.Pick? && c.key in todo && c.key in defs then
        if c.key in s.keys then Some(At(s, t, WantClone(defs, todo, next, c.key)))
        else Some(At(s, t, Writing(defs, todo - {c.key}, next[c.key := CarryAll(defs[c.key], [])])))
      else if c.Go? && todo == {} then
        Some(s.(pcs := s.pcs[t := Idle], table := s.table + 1, keys := next.Keys, writer := None,
                heap := s.heap + NewHeap(s.table + 1, next)))
      else None
    case WantClone(defs, todo, next, key) =>
      if c.Go? && (s.table, key) !in s.mutex
      then Some(s.(pcs := s.pcs[t := Cloning(defs, todo, next, key)], mutex := s.mutex[(s.table, key) := t])) else None
    case Cloning(defs, todo, next, key) =>
      if !c.Go? || key !in defs then None
      else
        var pc := if Compatible(defs[key], Prev(s, key))
                  then Writing(defs, todo - {key}, next[key := CarryAll(defs[key], Prev(s, key))])
                  else Failing;
        Some(s.(pcs := s.pcs[t := pc], mutex := s.mutex - {(s.table, key)}))
    case Failing =>
      if c.Go? then Some(s.(pcs := s.pcs[t := Idle], writer := None)) else None
  }

  // ---- who holds what -------------------------------------------------------------

  predicate HoldsRead(pc: Pc) {
    pc.Reading? || pc.Missing? || pc.WantEntry? || pc.HoldBoth? || pc.Notifying?
  }

  predicate HoldsWrite(pc: Pc) {
    pc.Writing? || pc.WantClone? || pc.Cloning? || pc.Failing?
  }

  predicate HoldsEntry(pc: Pc, table: nat, entry: EntryId) {
    || ((pc.HoldBoth? || pc.HoldEntry? || pc.Updated?) && pc.entry == entry)
    || (pc.Cloning? && entry == (table, pc.key))
  }

  // The thread has the entry's mutex but has not made its change yet.
  predicate Owes(pc: Pc, entry: EntryId) {
    (pc.HoldBoth? || pc.HoldEntry?) && pc.entry == entry
  }

  ghost predicate LocksMatch(s: State) {
    && (forall t :: t in s.readers <==> HoldsRead(PcOf(s, t)))
    && (forall t: Thread :: s.writer == Some(t) <==> HoldsWrite(PcOf(s, t)))
    && (forall t: Thread :: s.announced == Some(t) <==> PcOf(s, t).Announced?)
    && (s.writer.Some? ==> s.readers == {} && s.announced.None?)
    && (forall e :: e in s.mutex ==> HoldsEntry(PcOf(s, s.mutex[e]), s.table, e))
    && (forall t: Thread, e: EntryId {:trigger HoldsEntry(PcOf(s, t), s.table, e)} ::
          HoldsEntry(PcOf(s, t), s.table, e) ==> e in s.mutex && s.mutex[e] == t)
  }

  ghost predicate EntriesMatch(s: State) {
    && (forall k :: k in s.keys ==> (s.table, k) in s.heap)
    && (forall e :: e in s.heap ==> e.0 <= s.table)
    && (forall e :: e in s.mutex ==> e in s.heap)
    && (forall t :: PcOf(s, t).WantEntry? || PcOf(s, t).HoldBoth? ==>
          PcOf(s, t).entry == (s.table, PcOf(s, t).key) && PcOf(s, t).key in s.keys)
  }

  // What the writer has copied so far is what the entries still hold.
  ghost predicate Copied(s: State, defs: Definitions, todo: set<nat>, next: Entries) {
    && todo <= defs.Keys && next.Keys == defs.Keys - todo
    && (forall k :: k in next ==>
          && next[k] == CarryAll(defs[k], Prev(s, k))
          && Compatible(defs[k], Prev(s, k))
          && (k in s.keys ==> (s.table, k) !in s.mutex))
  }

  ghost predicate WriterMatches(s: State) {
    forall t ::
      match PcOf(s, t)
      case Writing(defs, todo, next) => Copied(s, defs, todo, next)
      case WantClone(defs, todo, next, key) => Copied(s, defs, todo, next) && key in todo && key in s.keys
      case Cloning(defs, todo, next, key) => Copied(s, defs, todo, next) && key in todo && key in s.keys
      case _ => true
  }

  ghost predicate Inv(s: State) {
    LocksMatch(s) && EntriesMatch(s) && WriterMatches(s)
  }

  // ---- no deadlock ----------------------------------------------------------------

  ghost predicate CanMove(s: State, t: Thread) {
    exists c: Choice :: (c.Go? || c.Pick?) && Step(s, t, c).Some?
  }

  lemma MovesWith(s: State, t: Thread, c: Choice)
    requires (c.Go? || c.Pick?) && Step(s, t, c).Some?
    ensures CanMove(s, t)
  {
  }

  // No thread waits for the table lock while it holds an entry's mutex.
  lemma WaitersHoldNoEntry(s: State, t: Thread, e: EntryId)
    requires Inv(s)
    requires PcOf(s, t).WantRead? || PcOf(s, t).WantNotify? || PcOf(s, t).WantWrite? || PcOf(s, t).Announced?
    ensures !(e in s.mutex && s.mutex[e] == t)
  {
  }

  lemma OwnerMoves(s: State, t: Thread)
    requires Inv(s)
    requires var pc := PcOf(s, t); pc.HoldBoth? || pc.HoldEntry? || pc.Updated? || pc.Cloning?
    ensures CanMove(s, t)
  {
    var pc := PcOf(s, t);
    if pc.HoldEntry? {
      assert HoldsEntry(pc, s.table, pc.entry);
    }
    MovesWith(s, t, Go);
  }

  lemma FreeEntryMoves(s: State, t: Thread)
    requires Inv(s)
    requires PcOf(s, t).WantEntry? ==> PcOf(s, t).entry !in s.mutex
    requires PcOf(s, t).WantClone? ==> (s.table, PcOf(s, t).key) !in s.mutex
    requires PcOf(s, t).WantEntry? || PcOf(s, t).WantClone?
    ensures CanMove(s, t)
  {
    MovesWith(s, t, Go);
  }

  lemma WriterMoves(s: State, t: Thread)
    requires Inv(s) && PcOf(s, t).Writing?
    ensures CanMove(s, t)
  {
    var pc := PcOf(s, t);
    assert Copied(s, pc.defs, pc.todo, pc.next);
    if pc.todo == {} {
      MovesWith(s, t, Go);
    } else {
      var k :| k in pc.todo;
      MovesWith(s, t, Pick(k));
    }
  }

  /** In every reachable state with an operation under way, some operation can move. */
  lemma NoDeadlock(s: State, t: Thread)
    requires Inv(s) && !PcOf(s, t).Idle?
    ensures exists u :: !PcOf(s, u).Idle? && CanMove(s, u)
  {
    if e :| e in s.mutex {
      OwnerMoves(s, s.mutex[e]);
    } else if u :| PcOf(s, u).WantEntry? || PcOf(s, u).WantClone? {
      FreeEntryMoves(s, u);
    } else if u :| HoldsRead(PcOf(s, u)) {
      if PcOf(s, u).HoldBoth? {
        OwnerMoves(s, u);
      } else {
        MovesWith(s, u, Go);
      }
    } else if s.writer.Some? {
      var u := s.writer.value;
      if PcOf(s, u).Writing? {
        WriterMoves(s, u);
      } else if PcOf(s, u).Cloning? {
        OwnerMoves(s, u);
      } else {
        MovesWith(s, u, Go);
      }
    } else if s.announced.Some? {
      var u := s.announced.value;
      assert forall r :: r in s.readers ==> HoldsRead(PcOf(s, r));
      assert s.readers == {};
      MovesWith(s, u, Go);
    } else {
      LastWaiters(s, t);
    }
  }

  lemma LastWaiters(s: State, t: Thread)
    requires Inv(s) && !PcOf(s, t).Idle?
    requires s.mutex == map[] && s.writer.None? && s.announced.None?
    requires !HoldsRead(PcOf(s, t))
    ensures CanMove(s, t)
  {
    var pc := PcOf(s, t);
    if pc.HoldEntry? || pc.Updated? {
      assert HoldsEntry(PcOf(s, t), s.table, pc.entry);
      assert false;
    }
    assert s.writer != Some(t) && s.announced != Some(t);
    assert !HoldsWrite(pc) && !pc.Announced?;
    assert pc.WantRead? || pc.WantNotify? || pc.WantWrite?;
    MovesWith(s, t, Go);
  }

  // How many steps an operation still has to take.
  function Rank(pc: Pc): nat {
    match pc
    case Idle => 0
    case Notifying => 1
    case WantNotify => 2
    case Updated(_) => 3
    case HoldEntry(_, _, _) => 4
    case HoldBoth(_, _, _) => 5
    case WantEntry(_, _, _) => 6
    case Missing => 6
    case Reading(_, _) => 7
    case WantRead(_, _) => 8
    case Failing => 1
    case Cloning(_, todo, _, _) => 3 * |todo|
    case WantClone(_, todo, _, _) => 3 * |todo| + 1
    case Writing(_, todo, _) => 3 * |todo| + 2
    case Announced(defs) => 3 * |defs| + 3
    case WantWrite(defs) => 3 * |defs| + 4
  }

  lemma RequestRankFalls(s: State, t: Thread, c: Choice)
    requires Step(s, t, c).Some? && !PcOf(s, t).Idle? && !IsWriter(PcOf(s, t))
    ensures Rank(PcOf(Step(s, t, c).value, t)) < Rank(PcOf(s, t))
  {
    hide QuotaModel.CarryAll, QuotaModel.Compatible, Apply;
  }

  predicate IsWriter(pc: Pc) {
    pc.WantWrite? || pc.Announced? || pc.Writing? || pc.WantClone? || pc.Cloning? || pc.Failing?
  }

  lemma WriterRankFalls(s: State, t: Thread, c: Choice)
    requires Step(s, t, c).Some? && IsWriter(PcOf(s, t))
    requires !PcOf(s, t).Writing? && !PcOf(s, t).Cloning?
    ensures Rank(PcOf(Step(s, t, c).value, t)) < Rank(PcOf(s, t))
  {
    hide QuotaModel.CarryAll, QuotaModel.Compatible, Apply;
    var pc := PcOf(s, t);
    if pc.Announced? {
      assert |pc.defs.Keys| == |pc.defs|;
    }
  }

  lemma CloneRankFalls(s: State, t: Thread, c: Choice)
    requires Step(s, t, c).Some? && PcOf(s, t).Cloning? && PcOf(s, t).key in PcOf(s, t).todo
    ensures Rank(PcOf(Step(s, t, c).value, t)) < Rank(PcOf(s, t))
  {
    hide QuotaModel.CarryAll, QuotaModel.Compatible, Apply, Prev, NewHeap;
    Smaller(PcOf(s, t).todo, PcOf(s, t).key);
  }

  lemma WriteRankFalls(s: State, t: Thread, c: Choice)
    requires Step(s, t, c).Some? && PcOf(s, t).Writing?
    ensures Rank(PcOf(Step(s, t, c).value, t)) < Rank(PcOf(s, t))
  {
    hide QuotaModel.CarryAll, QuotaModel.Compatible, Apply, Prev, NewHeap;
    if c.Pick? {
      Smaller(PcOf(s, t).todo, c.key);
    }
  }

  lemma Smaller(todo: set<nat>, key: nat)
    requires key in todo
    ensures |todo - {key}| == |todo| - 1
  {
  }

  /** Every step that does not begin an operation brings that operation nearer to its end, so
      with the lemma above every schedule lets all operations finish. */
  lemma StepsAreBounded(s: State, t: Thread, c: Choice)
    requires Inv(s) && Step(s, t, c).Some? && !PcOf(s, t).Idle?
    ensures Rank(PcOf(Step(s, t, c).value, t)) < Rank(PcOf(s, t))
    ensures forall u :: u != t ==> PcOf(Step(s, t, c).value, u) == PcOf(s, u)
  {
    if PcOf(s, t).Writing? {
      WriteRankFalls(s, t, c);
    } else if PcOf(s, t).Cloning? {
      CloneRankFalls(s, t, c);
    } else if IsWriter(PcOf(s, t)) {
      WriterRankFalls(s, t, c);
    } else {
      RequestRankFalls(s, t, c);
    }
  }

  // ---- every interleaving is a sequential run -------------------------------------

  // The entry as it will be once the change its owner has committed to is made.
  function Settled(s: State, e: EntryId): seq<RuleState>
    requires e in s.heap
  {
    if e in s.mutex && Owes(PcOf(s, s.mutex[e]), e)
    then Apply(PcOf(s, s.mutex[e]).op, s.heap[e]) else s.heap[e]
  }

  function Abs(s: State): Entries {
    map k | k in s.keys && (s.table, k) in s.heap :: Settled(s, (s.table, k))
  }

  datatype Label = Silent | OnEntry(key: nat, op: Op) | Replace(defs: Definitions)

  // An operation takes effect when it gets the entry's mutex, a reconfiguration when it
  // installs its table.
  function LabelOf(s: State, t: Thread, c: Choice): Label {
    match PcOf(s, t)
    case WantEntry(key, op, _) => OnEntry(key, op)
    case Writing(defs, todo, _) => if c.Go? then Replace(defs) else Silent
    case _ => Silent
  }

  function Perform(a: Entries, l: Label): Entries {
    match l
    case Silent => a
    case OnEntry(key, op) => if key in a then a[key := Apply(op, a[key])] else a
    case Replace(defs) => Reconciled(a, defs)
  }

  ghost predicate Effect(a: Entries, l: Label, a': Entries) {
    && (l.OnEntry? ==> l.key in a)
    && (l.Replace? ==> !ReconcileConflict(a, l.defs))
    && a' == Perform(a, l)
  }

  // Steps that move the thread and the table lock but no entry and no mutex.
  ghost predicate TableMove(s: State, t: Thread, pc': Pc, s': State) {
    var pc := PcOf(s, t);
    && s' == s.(pcs := s.pcs[t := pc'],
                readers := if HoldsRead(pc') then s.readers + {t} else s.readers - {t},
                announced := if pc'.Announced? then Some(t) else if s.announced == Some(t) then None else s.announced,
                writer := if HoldsWrite(pc') then Some(t) else if s.writer == Some(t) then None else s.writer)
    && (HoldsRead(pc') && !HoldsRead(pc) ==> s.writer.None? && s.announced.None?)
    && (pc'.Announced? && !pc.Announced? ==> s.writer.None? && s.announced.None?)
    && (HoldsWrite(pc') && !HoldsWrite(pc) ==> s.writer.None? && s.announced == Some(t) && s.readers == {})
    && (forall e :: HoldsEntry(pc', s.table, e) <==> HoldsEntry(pc, s.table, e))
    && (forall e :: Owes(pc', e) <==> Owes(pc, e))
    && ((pc'.HoldBoth? || pc'.HoldEntry?) && (pc.HoldBoth? || pc.HoldEntry?) ==> pc'.op == pc.op)
  }

  predicate PcFits(s: State, pc: Pc) {
    pc.WantEntry? || pc.HoldBoth? ==> pc.entry == (s.table, pc.key) && pc.key in s.keys
  }

  ghost predicate WriterFits(s: State, pc: Pc) {
    && (pc.Writing? || pc.WantClone? || pc.Cloning? ==> Copied(s, pc.defs, pc.todo, pc.next))
    && (pc.WantClone? || pc.Cloning? ==> pc.key in pc.todo && pc.key in s.keys)
  }

  lemma TableMoveLocks(s: State, t: Thread, pc': Pc, s': State)
    requires LocksMatch(s) && TableMove(s, t, pc', s')
    ensures LocksMatch(s')
  {
    assert PcOf(s', t) == pc' && forall u :: u != t ==> PcOf(s', u) == PcOf(s, u);
  }

  lemma TableMoveKeeps(s: State, t: Thread, pc': Pc, s': State)
    requires Inv(s) && TableMove(s, t, pc', s') && PcFits(s, pc') && WriterFits(s, pc')
    ensures Inv(s') && Abs(s') == Abs(s)
  {
    hide QuotaModel.CarryAll, QuotaModel.Compatible, Apply;
    TableMoveLocks(s, t, pc', s');
    assert PcOf(s', t) == pc' && forall u :: u != t ==> PcOf(s', u) == PcOf(s, u);
    SameCopies(s, s');
    SameAbs(s, s');
  }

  lemma SameCopies(s: State, s': State)
    requires s'.table == s.table && s'.keys == s.keys && s'.heap == s.heap && s'.mutex == s.mutex
    ensures forall defs, todo, next :: Copied(s, defs, todo, next) ==> Copied(s', defs, todo, next)
  {
    assert forall k :: Prev(s', k) == Prev(s, k);
  }

  lemma SameAbs(s: State, s': State)
    requires s'.table == s.table && s'.keys == s.keys && s'.heap == s.heap && s'.mutex == s.mutex
    requires forall e :: e in s.mutex ==>
      var pc, pc' := PcOf(s, s.mutex[e]), PcOf(s', s.mutex[e]);
      (Owes(pc', e) <==> Owes(pc, e)) && (Owes(pc, e) ==> pc'.op == pc.op)
    ensures Abs(s') == Abs(s)
  {
    hide Apply;
    forall e | e in s.heap ensures Settled(s', e) == Settled(s, e) {
    }
  }

  ghost predicate Good(s: State, t: Thread, c: Choice) {
    Step(s, t, c).Some? ==>
      var s' := Step(s, t, c).value;
      Inv(s') && Effect(Abs(s), LabelOf(s, t, c), Abs(s'))
  }

  // The thread moves within the table lock's rules.
  lemma TableMoveGood(s: State, t: Thread, c: Choice)
    requires Inv(s) && Step(s, t, c).Some? && LabelOf(s, t, c).Silent?
    requires var s' := Step(s, t, c).value;
             TableMove(s, t, PcOf(s', t), s') && PcFits(s, PcOf(s', t)) && WriterFits(s, PcOf(s', t))
    ensures Good(s, t, c)
  {
    hide Step, LocksMatch, EntriesMatch, WriterMatches, Abs;
    var s' := Step(s, t, c).value;
    TableMoveKeeps(s, t, PcOf(s', t), s');
  }

  // Taking an entry's mutex commits the operation.
  lemma TakeEntry(s: State, t: Thread, key: nat, op: Op, e: EntryId, s': State)
    requires Inv(s) && PcOf(s, t) == WantEntry(key, op, e) && e !in s.mutex
    requires s' == s.(pcs := s.pcs[t := HoldBoth(key, op, e)], mutex := s.mutex[e := t])
    ensures Inv(s')
  {
    assert PcOf(s', t) == HoldBoth(key, op, e) && forall u :: u != t ==> PcOf(s', u) == PcOf(s, u);
    assert forall k :: Prev(s', k) == Prev(s, k);
    TakeLocks(s, t, key, op, e, s');
    TakeWriters(s, t, key, op, e, s');
    hide LocksMatch, EntriesMatch, WriterMatches, Prev;
  }

  lemma TakeLocks(s: State, t: Thread, key: nat, op: Op, e: EntryId, s': State)
    requires LocksMatch(s) && EntriesMatch(s) && PcOf(s, t) == WantEntry(key, op, e) && e !in s.mutex
    requires PcOf(s', t) == HoldBoth(key, op, e) && forall u :: u != t ==> PcOf(s', u) == PcOf(s, u)
    requires s' == s.(pcs := s'.pcs, mutex := s.mutex[e := t])
    ensures LocksMatch(s') && EntriesMatch(s')
  {
  }

  // While a thread is about to take a mutex there is no writer.
  lemma TakeWriters(s: State, t: Thread, key: nat, op: Op, e: EntryId, s': State)
    requires LocksMatch(s) && PcOf(s, t) == WantEntry(key, op, e)
    requires PcOf(s', t) == HoldBoth(key, op, e) && forall u :: u != t ==> PcOf(s', u) == PcOf(s, u)
    ensures WriterMatches(s')
  {
    hide Copied;
    assert t in s.readers;
    assert forall u :: !HoldsWrite(PcOf(s, u));
  }

  lemma TakeEntryEffect(s: State, t: Thread, key: nat, op: Op, e: EntryId, s': State)
    requires Inv(s) && PcOf(s, t) == WantEntry(key, op, e) && e !in s.mutex
    requires s' == s.(pcs := s.pcs[t := HoldBoth(key, op, e)], mutex := s.mutex[e := t])
    ensures Effect(Abs(s), OnEntry(key, op), Abs(s'))
  {
    hide QuotaModel.CarryAll, QuotaModel.Compatible, Apply;
    assert e == (s.table, key) && key in s.keys;
    OthersSettled(s, t, s', e);
    assert Settled(s', e) == Apply(op, s.heap[e]) && Settled(s, e) == s.heap[e];
    forall k | k in s.keys && k != key ensures Settled(s', (s.table, k)) == Settled(s, (s.table, k)) {
    }
  }

  // A step of one thread about one entry leaves the other entries as they will be.
  lemma OthersSettled(s: State, t: Thread, s': State, e: EntryId)
    requires LocksMatch(s)
    requires forall u :: u != t ==> PcOf(s', u) == PcOf(s, u)
    requires forall f :: f != e && f in s.mutex ==> !Owes(PcOf(s, t), f) && !Owes(PcOf(s', t), f)
    requires forall f :: f != e ==> (f in s'.mutex <==> f in s.mutex)
    requires forall f :: f != e && f in s.mutex ==> s'.mutex[f] == s.mutex[f]
    requires forall f :: f != e && f in s.heap ==> f in s'.heap && s'.heap[f] == s.heap[f]
    ensures forall f :: f != e && f in s.heap ==> f in s'.heap && Settled(s', f) == Settled(s, f)
  {
    hide Apply;
  }

  // Making the change the mutex was taken for.
  lemma UpdateEntry(s: State, t: Thread, key: nat, op: Op, e: EntryId, s': State)
    requires Inv(s) && PcOf(s, t) == HoldEntry(key, op, e) && e in s.heap
    requires s' == s.(pcs := s.pcs[t := Updated(e)], heap := s.heap[e := Apply(op, s.heap[e])])
    ensures Inv(s')
  {
    assert PcOf(s', t) == Updated(e) && forall u :: u != t ==> PcOf(s', u) == PcOf(s, u);
    hide QuotaModel.CarryAll, QuotaModel.Compatible, Apply, LocksMatch, EntriesMatch, WriterMatches;
    UpdateLocks(s, t, key, op, e, s');
    UpdateWriters(s, t, key, op, e, s');
  }

  lemma UpdateLocks(s: State, t: Thread, key: nat, op: Op, e: EntryId, s': State)
    requires LocksMatch(s) && EntriesMatch(s) && PcOf(s, t) == HoldEntry(key, op, e) && e in s.heap
    requires PcOf(s', t) == Updated(e) && forall u :: u != t ==> PcOf(s', u) == PcOf(s, u)
    requires s' == s.(pcs := s'.pcs, heap := s'.heap) && s'.heap.Keys == s.heap.Keys
    ensures LocksMatch(s') && EntriesMatch(s')
  {
    assert HoldsEntry(PcOf(s, t), s.table, e);
  }

  // The entry is one the writer has not copied: its mutex was taken.
  lemma UpdateWriters(s: State, t: Thread, key: nat, op: Op, e: EntryId, s': State)
    requires LocksMatch(s) && WriterMatches(s) && PcOf(s, t) == HoldEntry(key, op, e) && e in s.heap
    requires PcOf(s', t) == Updated(e) && forall u :: u != t ==> PcOf(s', u) == PcOf(s, u)
    requires s' == s.(pcs := s'.pcs, heap := s.heap[e := Apply(op, s.heap[e])])
    ensures WriterMatches(s')
  {
    hide QuotaModel.CarryAll, QuotaModel.Compatible, Apply;
    assert HoldsEntry(PcOf(s, t), s.table, e);
    assert forall k: nat :: (s.table, k) != e ==> Prev(s', k) == Prev(s, k);
  }

  lemma UpdateEntryEffect(s: State, t: Thread, key: nat, op: Op, e: EntryId, s': State)
    requires Inv(s) && PcOf(s, t) == HoldEntry(key, op, e) && e in s.heap
    requires s' == s.(pcs := s.pcs[t := Updated(e)], heap := s.heap[e := Apply(op, s.heap[e])])
    ensures Abs(s') == Abs(s)
  {
    hide QuotaModel.CarryAll, QuotaModel.Compatible, Apply;
    assert HoldsEntry(PcOf(s, t), s.table, e);
    assert PcOf(s', t) == Updated(e) && forall u :: u != t ==> PcOf(s', u) == PcOf(s, u);
    forall f | f in s.heap ensures Settled(s', f) == Settled(s, f) {
    }
  }

  // Giving a mutex back.
  lemma ReleaseEntry(s: State, t: Thread, e: EntryId, pc': Pc, s': State)
    requires Inv(s) && HoldsEntry(PcOf(s, t), s.table, e) && !Owes(PcOf(s, t), e)
    requires pc'.Idle? || pc'.WantNotify? || pc'.Failing? || pc'.Writing?
    requires HoldsWrite(pc') == HoldsWrite(PcOf(s, t))
    requires s' == s.(pcs := s.pcs[t := pc'], mutex := s.mutex - {e})
    requires WriterFits(s', pc')
    ensures Inv(s')
  {
    hide QuotaModel.CarryAll, QuotaModel.Compatible, Apply;
    assert PcOf(s', t) == pc' && forall u :: u != t ==> PcOf(s', u) == PcOf(s, u);
    assert LocksMatch(s') by {
      ReleaseLocks(s, t, e, pc', s');
    }
    assert forall k :: Prev(s', k) == Prev(s, k);
  }

  lemma ReleaseLocks(s: State, t: Thread, e: EntryId, pc': Pc, s': State)
    requires LocksMatch(s) && HoldsEntry(PcOf(s, t), s.table, e) && !Owes(PcOf(s, t), e)
    requires pc'.Idle? || pc'.WantNotify? || pc'.Failing? || pc'.Writing?
    requires HoldsWrite(pc') == HoldsWrite(PcOf(s, t))
    requires s' == s.(pcs := s.pcs[t := pc'], mutex := s.mutex - {e})
    ensures LocksMatch(s')
  {
    assert PcOf(s', t) == pc' && forall u :: u != t ==> PcOf(s', u) == PcOf(s, u);
    assert forall f :: HoldsEntry(PcOf(s, t), s.table, f) ==> f == e;
  }

  lemma ReleaseEffect(s: State, t: Thread, e: EntryId, pc': Pc, s': State)
    requires Inv(s) && HoldsEntry(PcOf(s, t), s.table, e) && !Owes(PcOf(s, t), e)
    requires pc'.Idle? || pc'.WantNotify? || pc'.Failing? || pc'.Writing?
    requires s' == s.(pcs := s.pcs[t := pc'], mutex := s.mutex - {e})
    ensures Abs(s') == Abs(s)
  {
    hide QuotaModel.CarryAll, QuotaModel.Compatible, Apply;
    assert PcOf(s', t) == pc' && forall u :: u != t ==> PcOf(s', u) == PcOf(s, u);
    OthersSettled(s, t, s', e);
    assert Settled(s', e) == Settled(s, e);
  }

  // The writer takes an entry's mutex to copy it.
  lemma TakeClone(s: State, t: Thread, pc: Pc, s': State)
    requires Inv(s) && PcOf(s, t) == pc && pc.WantClone? && (s.table, pc.key) !in s.mutex
    requires s' == s.(pcs := s.pcs[t := Cloning(pc.defs, pc.todo, pc.next, pc.key)],
                      mutex := s.mutex[(s.table, pc.key) := t])
    ensures Inv(s')
  {
    hide QuotaModel.CarryAll, QuotaModel.Compatible, Apply;
    assert PcOf(s', t).Cloning? && forall u :: u != t ==> PcOf(s', u) == PcOf(s, u);
    assert forall k :: Prev(s', k) == Prev(s, k);
    assert s.writer == Some(t);
    assert forall u :: u != t ==> !HoldsWrite(PcOf(s, u));
    assert Copied(s, pc.defs, pc.todo, pc.next);
  }

  lemma TakeCloneEffect(s: State, t: Thread, pc: Pc, s': State)
    requires Inv(s) && PcOf(s, t) == pc && pc.WantClone? && (s.table, pc.key) !in s.mutex
    requires s' == s.(pcs := s.pcs[t := Cloning(pc.defs, pc.todo, pc.next, pc.key)],
                      mutex := s.mutex[(s.table, pc.key) := t])
    ensures Abs(s') == Abs(s)
  {
    hide QuotaModel.CarryAll, QuotaModel.Compatible, Apply;
    assert PcOf(s', t).Cloning? && forall u :: u != t ==> PcOf(s', u) == PcOf(s, u);
    OthersSettled(s, t, s', (s.table, pc.key));
  }

  lemma CopyOne(s: State, defs: Definitions, todo: set<nat>, next: Entries, key: nat, s': State)
    requires Copied(s, defs, todo, next) && key in todo && Compatible(defs[key], Prev(s, key))
    requires s'.table == s.table && s'.keys == s.keys && s'.heap == s.heap
    requires s'.mutex == s.mutex - {(s.table, key)}
    ensures Copied(s', defs, todo - {key}, next[key := CarryAll(defs[key], Prev(s, key))])
  {
    hide QuotaModel.CarryAll, QuotaModel.Compatible;
    assert forall k :: Prev(s', k) == Prev(s, k);
  }

  lemma CopyNew(s: State, defs: Definitions, todo: set<nat>, next: Entries, key: nat)
    requires Copied(s, defs, todo, next) && key in todo && key !in s.keys
    ensures Copied(s, defs, todo - {key}, next[key := CarryAll(defs[key], [])])
  {
    assert Prev(s, key) == [];
    assert Compatible(defs[key], []);
  }

  lemma NewHeapIs(table: nat, next: Entries)
    ensures forall k :: k in next ==> (table, k) in NewHeap(table, next) && NewHeap(table, next)[(table, k)] == next[k]
    ensures forall e :: e in NewHeap(table, next) ==> e.0 == table && e.1 in next
  {
  }

  // The writer is alone: no other thread holds the table lock.
  lemma WriterAlone(s: State, t: Thread, u: Thread)
    requires LocksMatch(s) && HoldsWrite(PcOf(s, t)) && u != t
    ensures !HoldsWrite(PcOf(s, u)) && !HoldsRead(PcOf(s, u)) && !PcOf(s, u).Announced?
  {
    assert s.writer == Some(t);
    assert u !in s.readers;
    assert s.writer != Some(u) && s.announced != Some(u);
  }

  ghost predicate Installs(s: State, t: Thread, defs: Definitions, next: Entries, s': State) {
    && PcOf(s, t) == Writing(defs, {}, next)
    && s' == s.(pcs := s.pcs[t := Idle], table := s.table + 1, keys := next.Keys, writer := None,
                heap := s.heap + NewHeap(s.table + 1, next))
  }

  lemma InstallLocks(s: State, t: Thread, defs: Definitions, next: Entries, s': State)
    requires Inv(s) && Installs(s, t, defs, next, s')
    ensures LocksMatch(s')
  {
    hide EntriesMatch, WriterMatches, NewHeap;
    assert PcOf(s', t).Idle?;
    forall u | u != t
      ensures PcOf(s', u) == PcOf(s, u)
      ensures !HoldsWrite(PcOf(s', u)) && !HoldsRead(PcOf(s', u)) && !PcOf(s', u).Announced?
      ensures forall e :: HoldsEntry(PcOf(s', u), s'.table, e) <==> HoldsEntry(PcOf(s, u), s.table, e)
    {
      WriterAlone(s, t, u);
    }
    assert s.writer == Some(t);
  }

  lemma InstallRest(s: State, t: Thread, defs: Definitions, next: Entries, s': State)
    requires Inv(s) && Installs(s, t, defs, next, s')
    ensures EntriesMatch(s') && WriterMatches(s')
  {
    hide QuotaModel.CarryAll, QuotaModel.Compatible, Apply, NewHeap;
    assert PcOf(s', t).Idle?;
    NewHeapIs(s.table + 1, next);
    forall u | u != t
      ensures PcOf(s', u) == PcOf(s, u)
      ensures !HoldsWrite(PcOf(s', u)) && !HoldsRead(PcOf(s', u))
    {
      WriterAlone(s, t, u);
    }
  }

  // Nobody owes a change to an entry that was copied.
  lemma CopiedIsAbs(s: State, defs: Definitions, next: Entries)
    requires EntriesMatch(s) && Copied(s, defs, {}, next)
    ensures !ReconcileConflict(Abs(s), defs) && next == Reconciled(Abs(s), defs)
  {
    hide QuotaModel.CarryAll, QuotaModel.Compatible, Apply;
    forall k | k in defs ensures RulesOf(Abs(s), k) == Prev(s, k) {
    }
  }

  lemma InstallEffect(s: State, t: Thread, defs: Definitions, next: Entries, s': State)
    requires Inv(s) && Installs(s, t, defs, next, s')
    ensures Effect(Abs(s), Replace(defs), Abs(s'))
  {
    hide QuotaModel.CarryAll, QuotaModel.Compatible, Apply, NewHeap, QuotaModel.Reconciled,
         QuotaModel.ReconcileConflict, LocksMatch;
    assert Copied(s, defs, {}, next);
    CopiedIsAbs(s, defs, next);
    NewHeapIs(s.table + 1, next);
    forall k | k in next ensures (s'.table, k) in s'.heap && Settled(s', (s'.table, k)) == next[k] {
      assert (s'.table, k) !in s.heap;
      assert (s'.table, k) !in s.mutex;
    }
    assert Abs(s') == next;
  }

  // ---- all steps ------------------------------------------------------------------

  lemma RequestStep(s: State, t: Thread, c: Choice)
    requires Inv(s) && !IsWriter(PcOf(s, t))
    ensures Good(s, t, c)
  {
    hide QuotaModel.CarryAll, QuotaModel.Compatible, Apply, LocksMatch, EntriesMatch, WriterMatches, Abs;
    if Step(s, t, c).Some? {
      var s' := Step(s, t, c).value;
      match PcOf(s, t) {
        case WantEntry(key, op, e) =>
          TakeEntry(s, t, key, op, e, s');
          TakeEntryEffect(s, t, key, op, e, s');
        case HoldEntry(key, op, e) =>
          UpdateEntry(s, t, key, op, e, s');
          UpdateEntryEffect(s, t, key, op, e, s');
        case Updated(e) =>
          ReleaseEntry(s, t, e, PcOf(s', t), s');
          ReleaseEffect(s, t, e, PcOf(s', t), s');
        case _ =>
          RequestTableMove(s, t, c);
          TableMoveGood(s, t, c);
      }
    }
  }

  lemma RequestTableMove(s: State, t: Thread, c: Choice)
    requires Inv(s) && Step(s, t, c).Some?
    requires var pc := PcOf(s, t); !IsWriter(pc) && !pc.WantEntry? && !pc.HoldEntry? && !pc.Updated?
    ensures var s' := Step(s, t, c).value;
            TableMove(s, t, PcOf(s', t), s') && PcFits(s, PcOf(s', t)) && WriterFits(s, PcOf(s', t))
  {
    hide QuotaModel.CarryAll, QuotaModel.Compatible, Apply, WriterMatches, Abs;
  }

  lemma WriterTableMove(s: State, t: Thread, c: Choice)
    requires Inv(s) && Step(s, t, c).Some?
    requires var pc := PcOf(s, t); pc.WantWrite? || pc.Announced? || pc.Failing?
    ensures var s' := Step(s, t, c).value;
            TableMove(s, t, PcOf(s', t), s') && PcFits(s, PcOf(s', t)) && WriterFits(s, PcOf(s', t))
  {
    hide QuotaModel.CarryAll, QuotaModel.Compatible, Apply, WriterMatches, Abs;
  }

  lemma PickMove(s: State, t: Thread, c: Choice)
    requires Inv(s) && Step(s, t, c).Some? && PcOf(s, t).Writing? && c.Pick?
    ensures var s' := Step(s, t, c).value;
            TableMove(s, t, PcOf(s', t), s') && PcFits(s, PcOf(s', t)) && WriterFits(s, PcOf(s', t))
  {
    hide QuotaModel.CarryAll, QuotaModel.Compatible, Apply, Abs;
    var pc := PcOf(s, t);
    assert Copied(s, pc.defs, pc.todo, pc.next);
    assert s.writer == Some(t);
    assert s.announced.None? && t !in s.readers;
    if c.key !in s.keys {
      CopyNew(s, pc.defs, pc.todo, pc.next, c.key);
    }
  }

  lemma CloneStep(s: State, t: Thread, c: Choice)
    requires Inv(s) && Step(s, t, c).Some? && PcOf(s, t).Cloning?
    ensures Good(s, t, c)
  {
    hide QuotaModel.CarryAll, QuotaModel.Compatible, Apply, LocksMatch, EntriesMatch, Abs;
    var pc := PcOf(s, t);
    var s' := Step(s, t, c).value;
    assert Copied(s, pc.defs, pc.todo, pc.next);
    if Compatible(pc.defs[pc.key], Prev(s, pc.key)) {
      CopyOne(s, pc.defs, pc.todo, pc.next, pc.key, s');
    }
    ReleaseEntry(s, t, (s.table, pc.key), PcOf(s', t), s');
    ReleaseEffect(s, t, (s.table, pc.key), PcOf(s', t), s');
  }

  lemma WriterStep(s: State, t: Thread, c: Choice)
    requires Inv(s) && IsWriter(PcOf(s, t))
    ensures Good(s, t, c)
  {
    hide QuotaModel.CarryAll, QuotaModel.Compatible, Apply, LocksMatch, EntriesMatch, WriterMatches, Abs, NewHeap;
    if Step(s, t, c).Some? {
      var s' := Step(s, t, c).value;
      var pc := PcOf(s, t);
      if pc.Writing? && c.Go? {
        InstallLocks(s, t, pc.defs, pc.next, s');
        InstallRest(s, t, pc.defs, pc.next, s');
        InstallEffect(s, t, pc.defs, pc.next, s');
      } else if pc.Writing? {
        PickMove(s, t, c);
        TableMoveGood(s, t, c);
      } else if pc.WantClone? {
        TakeClone(s, t, pc, s');
        TakeCloneEffect(s, t, pc, s');
      } else if pc.Cloning? {
        CloneStep(s, t, c);
      } else {
        WriterTableMove(s, t, c);
        TableMoveGood(s, t, c);
      }
    }
  }

  lemma StepRefines(s: State, t: Thread, c: Choice)
    requires Inv(s) && Step(s, t, c).Some?
    ensures var s' := Step(s, t, c).value;
            Inv(s') && Effect(Abs(s), LabelOf(s, t, c), Abs(s'))
  {
    hide Step, Inv, Effect, Abs, LabelOf;
    if IsWriter(PcOf(s, t)) {
      WriterStep(s, t, c);
    } else {
      RequestStep(s, t, c);
    }
  }

  // ---- runs -----------------------------------------------------------------------

  datatype Turn = Turn(thread: Thread, choice: Choice)

  // The state after a schedule, if every turn could be taken.
  function Schedule(s: State, turns: seq<Turn>): Option<State>
    decreases |turns|
  {
    if turns == [] then Some(s)
    else
      var before := Schedule(s, turns[..|turns| - 1]);
      if before.None? then None
      else Step(before.value, turns[|turns| - 1].thread, turns[|turns| - 1].choice)
  }

  // The operations of a schedule in the order in which they take effect.
  function Effects(s: State, turns: seq<Turn>): seq<Label>
    requires Schedule(s, turns).Some?
    decreases |turns|
  {
    if turns == [] then []
    else
      var init, last := turns[..|turns| - 1], turns[|turns| - 1];
      Effects(s, init) + [LabelOf(Schedule(s, init).value, last.thread, last.choice)]
  }

  function PerformAll(a: Entries, labels: seq<Label>): Entries
    decreases |labels|
  {
    if labels == [] then a
    else Perform(PerformAll(a, labels[..|labels| - 1]), labels[|labels| - 1])
  }

  // The sequential operations are the steps of the runtime.
  lemma PerformIsStep(a: Entries, key: nat, op: Op)
    ensures op.AdmitOp? ==> Perform(a, OnEntry(key, op)) == AdmitEntries(a, key, op.now)
    ensures op.CompleteOp? ==> Perform(a, OnEntry(key, op)) == CompleteEntries(a, Ticket(key, op.names), op.cost)
    ensures op.AckOp? ==> Perform(a, OnEntry(key, op)) == AckEntries(a, key, op.ruleId, op.revision, op.version)
  {
  }

  /** Every interleaving of requests and reconfigurations is equivalent to performing them one
      after the other, each at the moment it gets its entry's mutex or installs its table: no
      change to a surviving rule is lost and none is applied twice. */
  lemma {:induction false} InterleavingsAreSequential(s: State, turns: seq<Turn>)
    requires Inv(s) && Schedule(s, turns).Some?
    ensures Inv(Schedule(s, turns).value)
    ensures Abs(Schedule(s, turns).value) == PerformAll(Abs(s), Effects(s, turns))
    decreases |turns|
  {
    hide Step, Inv, Perform, Abs, LabelOf;
    if turns != [] {
      var init, last := turns[..|turns| - 1], turns[|turns| - 1];
      InterleavingsAreSequential(s, init);
      var before := Schedule(s, init).value;
      StepRefines(before, last.thread, last.choice);
      var labels := Effects(s, turns);
      assert labels[..|labels| - 1] == Effects(s, init);
    }
  }

  // A runtime nobody is using.
  function Quiescent(entries: Entries): State {
    State(0, entries.Keys, NewHeap(0, entries), map[], {}, None, None, map[])
  }

  lemma QuietStart(entries: Entries)
    ensures Inv(Quiescent(entries)) && Abs(Quiescent(entries)) == entries
  {
    hide QuotaModel.CarryAll, QuotaModel.Compatible, Apply, NewHeap;
    var s := Quiescent(entries);
    NewHeapIs(0, entries);
    assert forall t :: PcOf(s, t) == Idle;
    QuietLocks(s);
    QuietEntries(s, entries);
  }

  lemma QuietLocks(s: State)
    requires (forall t :: PcOf(s, t) == Idle) && s.readers == {} && s.writer.None? && s.announced.None? && s.mutex == map[]
    ensures LocksMatch(s) && WriterMatches(s)
  {
    hide Copied;
  }

  lemma QuietEntries(s: State, entries: Entries)
    requires (forall t :: PcOf(s, t) == Idle) && s.mutex == map[] && s.keys == entries.Keys
    requires forall e :: e in s.heap <==> e.0 == s.table && e.1 in entries
    requires forall k :: k in entries ==> s.heap[(s.table, k)] == entries[k]
    ensures EntriesMatch(s) && Abs(s) == entries
  {
    hide Apply;
  }
}
