/**
  The stage machine run by any number of threads: callbacks, polls, refreshes, cancellations,
  cleanup and restarts interleaved in any order.
*/
module StageRuns {
  import opened Wrappers
  import opened StageModel

  type ID = string
  type Thread = nat

  datatype Kind = BrowserExchange | DevicePoll | ReadyRefresh

  // What a thread that won a claim carries: its stage, the deadline it read, and which of the
  // stage's exchanging periods it opened.
  datatype Hold = Hold(id: ID, kind: Kind, expiresAt: int, period: nat)

  // `used`, `hashes` and `periods` record what was ever created and claimed.
  datatype System = System(
    stages: map<ID, Stage>, holds: map<Thread, Hold>,
    used: set<ID>, hashes: set<string>, periods: map<ID, nat>)

  const EMPTY := System(map[], map[], {}, {}, map[])

  datatype Event =
    | BeginBrowser(id: ID, channel: string, payload: string, hash: string, now: int)
    | BeginDevice(id: ID, channel: string, payload: string, expiresAt: int, now: int)
    | Import(id: ID, channel: string, payload: string, identity: string, now: int)
    | TakeBrowser(thread: Thread, id: ID, hash: string, now: int, from: int, later: int)
    | TakeDevice(thread: Thread, id: ID, now: int)
    | TakeRefresh(thread: Thread, id: ID, payload: string, now: int)
    | Done(thread: Thread, outcome: Outcome, now: int)
    | GiveUp(thread: Thread)
    | Fail(id: ID, hash: string, code: string, now: int)
    | Withdraw(id: ID, now: int)
    | Lapse(id: ID, observed: Status, now: int)
    | CleanUp(now: int)
    | Restart(now: int)
    | Use(id: ID, group: nat, now: int)

  // The guarded update an event attempts on a row, when it aims at one.
  function Update(s: System, e: Event, row: Stage): Option<Stage> {
    match e
    case TakeBrowser(_, _, hash, now, from, later) => ClaimBrowser(row, hash, now, from, later)
    case TakeDevice(_, _, now) => ClaimDevice(row, now)
    case TakeRefresh(_, _, payload, now) => ClaimRefresh(row, payload, now)
    case Done(_, outcome, now) => Finish(row, outcome, now)
    case Fail(_, hash, code, now) => FailAuthorization(row, hash, code, now)
    case Withdraw(_, now) => Cancel(row, now)
    case Lapse(_, observed, now) => Expire(row, observed, now)
    case Use(_, group, now) => Consume(row, group, now)
    case _ => None
  }

  predicate Aimed(s: System, e: Event) {
    match e
    case BeginBrowser(_, _, _, _, _) | BeginDevice(_, _, _, _, _) | Import(_, _, _, _, _) => false
    case CleanUp(_) | Restart(_) | GiveUp(_) => false
    case Done(thread, _, _) => thread in s.holds
    case _ => true
  }

  function Aim(s: System, e: Event): ID
    requires Aimed(s, e)
  {
    if e.Done? then s.holds[e.thread].id else e.id
  }

  predicate Applies(s: System, e: Event) {
    && Aimed(s, e) && Aim(s, e) in s.stages
    && Update(s, e, s.stages[Aim(s, e)]).Some?
  }

  predicate Claims(e: Event) {
    e.TakeBrowser? || e.TakeDevice? || e.TakeRefresh?
  }

  function KindOf(e: Event): Kind
    requires Claims(e)
  {
    if e.TakeBrowser? then BrowserExchange else if e.TakeDevice? then DevicePoll else ReadyRefresh
  }

  function Period(s: System, id: ID): nat {
    if id in s.periods then s.periods[id] else 0
  }

  function Step(s: System, e: Event): System {
    if Applies(s, e) then
      var id := Aim(s, e);
      var row := s.stages[id];
      var next := s.(stages := s.stages[id := Update(s, e, row).value]);
      if Claims(e) then
        next.(periods := s.periods[id := Period(s, id) + 1],
              holds := s.holds[e.thread := Hold(id, KindOf(e), row.expiresAt, Period(s, id) + 1)])
      else if e.Done? then next.(holds := s.holds - {e.thread})
      else next
    else
      match e
      case BeginBrowser(id, channel, payload, hash, now) =>
        s.(stages := s.stages[id := NewBrowser(channel, payload, hash, now)],
           used := s.used + {id}, hashes := s.hashes + {hash})
      case BeginDevice(id, channel, payload, expiresAt, now) =>
        s.(stages := s.stages[id := NewDevice(channel, payload, expiresAt, now)], used := s.used + {id})
      case Import(id, channel, payload, identity, now) =>
        s.(stages := s.stages[id := NewReady(channel, payload, identity, now)], used := s.used + {id})
      case GiveUp(thread) => s.(holds := s.holds - {thread})
      case CleanUp(now) => s.(stages := Cleaned(s.stages, now))
      case Restart(now) => s.(stages := Interrupted(s.stages, now))
      case _ => s
  }

  function Run(es: seq<Event>): System {
    if es == [] then EMPTY else Step(Run(es[..|es| - 1]), es[|es| - 1])
  }

  // What a thread may report, by what it claimed.
  predicate Reports(h: Hold, o: Outcome) {
    match o
    case Exchanged(payload, _) => h.kind != ReadyRefresh && payload != ""
    case StillPending(payload, expiresAt) => h.kind == DevicePoll && payload != "" && expiresAt == h.expiresAt
    case Refreshed(payload, _, expiresAt) => h.kind == ReadyRefresh && payload != "" && expiresAt == h.expiresAt
    case Retry(expiresAt) => h.kind == ReadyRefresh && expiresAt == h.expiresAt
    case Rejected(status, _, _) =>
      status == Failed || status == OutcomeUnknown || (status == Expired && h.kind == DevicePoll)
  }

  // Identifiers and OAuth states are random and never repeat, ciphertexts are never empty, a thread
  // works on one stage at a time, and the clock does not go back between two readings of one claim.
  predicate Permitted(s: System, e: Event) {
    match e
    case BeginBrowser(id, _, payload, hash, _) => id !in s.used && payload != "" && hash !in s.hashes
    case BeginDevice(id, _, payload, _, _) => id !in s.used && payload != ""
    case Import(id, _, payload, _, _) => id !in s.used && payload != ""
    case TakeBrowser(thread, _, _, _, from, later) => thread !in s.holds && from <= later
    case TakeDevice(thread, _, _) => thread !in s.holds
    case TakeRefresh(thread, _, _, _) => thread !in s.holds
    case Done(thread, outcome, _) => thread in s.holds ==> Reports(s.holds[thread], outcome)
    case Lapse(_, observed, _) => observed == Pending || observed == Ready || observed == Exchanging
    case _ => true
  }

  predicate PermittedRun(es: seq<Event>) {
    es == [] || (PermittedRun(es[..|es| - 1]) && Permitted(Run(es[..|es| - 1]), es[|es| - 1]))
  }

  // ---- the invariant -------------------------------------------------------------------

  // A held stage is still in the period its holder opened, or it is over for good.
  predicate Owned(s: System, h: Hold) {
    && h.id in s.used && h.period <= Period(s, h.id)
    && (h.id in s.stages ==>
          || Terminal(s.stages[h.id].status)
          || (s.stages[h.id].status == Exchanging && h.period == Period(s, h.id)))
    && (h.kind == DevicePoll && h.id in s.stages ==> s.stages[h.id].authorization == Device)
  }

  predicate SameHash(a: Stage, b: Stage) {
    a.stateHash.Some? && a.stateHash == b.stateHash
  }

  predicate Rows(s: System) {
    && s.stages.Keys <= s.used
    && (forall id :: id in s.stages ==> WellFormed(s.stages[id]))
    && (forall id :: id in s.stages && s.stages[id].stateHash.Some? ==> s.stages[id].stateHash.value in s.hashes)
    && (forall a, b :: a in s.stages && b in s.stages && SameHash(s.stages[a], s.stages[b]) ==> a == b)
  }

  predicate Holders(s: System) {
    && (forall t :: t in s.holds ==> Owned(s, s.holds[t]))
    && (forall t, u :: t in s.holds && u in s.holds && s.holds[t].id == s.holds[u].id ==> t == u)
  }

  predicate Invariant(s: System) {
    Rows(s) && Holders(s)
  }

  // ---- rows ------------------------------------------------------------------------------

  lemma UpdateOfRow(s: System, e: Event, row: Stage)
    requires Aimed(s, e) && WellFormed(row) && Permitted(s, e) && Update(s, e, row).Some?
    requires e.Done? && s.holds[e.thread].kind == DevicePoll ==> row.authorization == Device
    ensures var next := Update(s, e, row).value;
            && !Terminal(row.status) && WellFormed(next)
            && next.authorization == row.authorization
            && (next.stateHash.Some? ==> next.stateHash == row.stateHash)
            && (Claims(e) ==> row.status != Exchanging && next.status == Exchanging)
            && (!Claims(e) && !e.Done? ==> Terminal(next.status))
  {
  }

  // No update touches a terminal row, and each leaves the row well formed.
  lemma UpdateKeeps(s: System, e: Event)
    requires Invariant(s) && Permitted(s, e) && Applies(s, e)
    ensures var row := s.stages[Aim(s, e)];
            var next := Update(s, e, row).value;
            && !Terminal(row.status) && WellFormed(next)
            && next.authorization == row.authorization
            && (next.stateHash.Some? ==> next.stateHash == row.stateHash)
            && (Claims(e) ==> row.status != Exchanging && next.status == Exchanging)
            && (!Claims(e) && !e.Done? ==> Terminal(next.status))
  {
    hide Update, Permitted, WellFormed, Terminal;
    if e.Done? {
      assert Owned(s, s.holds[e.thread]);
    }
    UpdateOfRow(s, e, s.stages[Aim(s, e)]);
  }

  lemma SweepKeeps(row: Stage, now: int)
    requires WellFormed(row)
    ensures WellFormed(Sweep(row, now)) && WellFormed(Interrupt(row, now))
    ensures Sweep(row, now) == row || (!Terminal(row.status) && Terminal(Sweep(row, now).status))
    ensures Interrupt(row, now) == row || (row.status == Exchanging && Terminal(Interrupt(row, now).status))
    ensures Sweep(row, now).stateHash.Some? ==> Sweep(row, now) == row
    ensures Sweep(row, now).authorization == row.authorization == Interrupt(row, now).authorization
  {
  }

  // How an update that applies changes one row.
  lemma RowUpdated(s: System, e: Event, id: ID)
    requires Invariant(s) && Permitted(s, e) && id in s.stages && Applies(s, e)
    ensures id in Step(s, e).stages
    ensures Aim(s, e) != id ==> Step(s, e).stages[id] == s.stages[id]
    ensures Aim(s, e) == id ==>
              var next := Step(s, e).stages[id];
              && !Terminal(s.stages[id].status) && WellFormed(next) && next.authorization == s.stages[id].authorization
              && (next.stateHash.Some? ==> next.stateHash == s.stages[id].stateHash)
              && (Claims(e) || e.Done? || Terminal(next.status))
  {
    hide WellFormed, Update, Permitted, Invariant, Terminal;
    UpdateKeeps(s, e);
  }

  // How any other step does.
  lemma RowSwept(s: System, e: Event, id: ID)
    requires Rows(s) && Permitted(s, e) && id in s.stages && !Applies(s, e)
    ensures id in Step(s, e).stages ==> Step(s, e).stages[id] == s.stages[id] || Swept(s.stages[id], Step(s, e).stages[id])
  {
    assert id in s.used;
    hide WellFormed, Applies, Swept, Rows, Reports;
    SweepRow(s, e, id);
  }

  // How one step changes one row that was there before.
  lemma RowStep(s: System, e: Event, id: ID)
    requires Invariant(s) && Permitted(s, e) && id in s.stages
    ensures var next := Step(s, e);
            && (Terminal(s.stages[id].status) ==> id !in next.stages || next.stages[id] == s.stages[id])
            && (id in next.stages ==>
                  && WellFormed(next.stages[id])
                  && next.stages[id].authorization == s.stages[id].authorization
                  && (next.stages[id].stateHash.Some? ==> next.stages[id].stateHash == s.stages[id].stateHash)
                  && (next.stages[id] == s.stages[id] || Terminal(next.stages[id].status) ||
                      (Applies(s, e) && Aim(s, e) == id && (Claims(e) || e.Done?))))
  {
    SweepRow(s, e, id);
    hide WellFormed, Update, Rows, Holders, Permitted, Step;
    if Applies(s, e) {
      RowUpdated(s, e, id);
    } else {
      RowSwept(s, e, id);
    }
  }

  lemma SweepRow(s: System, e: Event, id: ID)
    requires Rows(s) && id in s.stages
    ensures WellFormed(s.stages[id])
    ensures e.CleanUp? ==> id !in Cleaned(s.stages, e.now) || Swept(s.stages[id], Cleaned(s.stages, e.now)[id])
    ensures e.Restart? ==> Swept(s.stages[id], Interrupted(s.stages, e.now)[id])
  {
    if e.CleanUp? || e.Restart? {
      SweepKeeps(s.stages[id], e.now);
    }
  }

  predicate Swept(row: Stage, next: Stage) {
    && WellFormed(next) && next.authorization == row.authorization
    && (next == row || (!Terminal(row.status) && Terminal(next.status)))
    && (next.stateHash.Some? ==> next == row)
  }

  // Nothing is ever recreated: rows appear only under identifiers never used before.
  lemma NewRows(s: System, e: Event, id: ID)
    requires Rows(s) && Permitted(s, e) && id in Step(s, e).stages && id !in s.stages
    ensures id !in s.used && WellFormed(Step(s, e).stages[id]) && id in Step(s, e).used
    ensures (e.BeginBrowser? || e.BeginDevice? || e.Import?) && e.id == id
    ensures Step(s, e).stages[id].stateHash.Some? ==>
              e.BeginBrowser? && Step(s, e).stages[id].stateHash == Some(e.hash)
  {
  }

  lemma UsedGrows(s: System, e: Event)
    ensures s.used <= Step(s, e).used && s.hashes <= Step(s, e).hashes
    ensures e.BeginBrowser? ==> e.hash in Step(s, e).hashes
  {
  }

  lemma StepRows(s: System, e: Event)
    requires Invariant(s) && Permitted(s, e)
    ensures Rows(Step(s, e))
  {
    hide Step, Update, WellFormed, Terminal, Permitted;
    var next := Step(s, e);
    UsedGrows(s, e);
    forall id | id in next.stages
      ensures id in next.used && WellFormed(next.stages[id])
      ensures next.stages[id].stateHash.Some? ==> next.stages[id].stateHash.value in next.hashes
    {
      if id in s.stages {
        RowStep(s, e, id);
      } else {
        NewRows(s, e, id);
      }
    }
    forall a, b | a in next.stages && b in next.stages && SameHash(next.stages[a], next.stages[b])
      ensures a == b
    {
      HashApart(s, e, a, b);
    }
  }

  lemma HashApart(s: System, e: Event, a: ID, b: ID)
    requires Invariant(s) && Permitted(s, e)
    requires var next := Step(s, e).stages;
             a in next && b in next && SameHash(next[a], next[b])
    ensures a == b
  {
    hide Step, Update, WellFormed, Terminal;
    if a in s.stages {
      RowStep(s, e, a);
    } else {
      NewRows(s, e, a);
    }
    if b in s.stages {
      RowStep(s, e, b);
    } else {
      NewRows(s, e, b);
    }
  }

  // ---- holders -----------------------------------------------------------------------------

  // A hold that the event does not open.
  lemma KeptHolder(s: System, e: Event, t: Thread)
    requires Invariant(s) && Permitted(s, e) && t in s.holds && t in Step(s, e).holds && Step(s, e).holds[t] == s.holds[t]
    ensures Owned(Step(s, e), s.holds[t])
  {
    hide Update, WellFormed, Cleaned, Interrupted, Reports, Permitted, Rows;
    var h := s.holds[t];
    assert Owned(s, h);
    UsedGrows(s, e);
    if Applies(s, e) {
      UpdateKeeps(s, e);
    }
    if h.id in s.stages {
      RowStep(s, e, h.id);
    } else if h.id in Step(s, e).stages {
      NewRows(s, e, h.id);
    }
  }

  // The hold that a claim opens.
  lemma NewHolder(s: System, e: Event)
    requires Invariant(s) && Permitted(s, e) && Claims(e) && Applies(s, e)
    ensures e.thread in Step(s, e).holds && Owned(Step(s, e), Step(s, e).holds[e.thread])
    ensures Step(s, e).holds[e.thread].id == e.id
  {
    assert s.stages.Keys <= s.used;
    hide Update, WellFormed, Permitted, Rows;
    UpdateKeeps(s, e);
    if e.TakeDevice? {
      ClaimMethod(s, e);
    }
  }

  // A step keeps a thread's hold, or ends it, or is the claim that opens it.
  lemma HoldsAfter(s: System, e: Event, t: Thread)
    requires Permitted(s, e) && t in Step(s, e).holds
    ensures t in s.holds ==> Step(s, e).holds[t] == s.holds[t]
    ensures t !in s.holds ==> Claims(e) && Applies(s, e) && e.thread == t
  {
    hide Update, Cleaned, Interrupted, Reports;
  }

  lemma StepHolder(s: System, e: Event, t: Thread)
    requires Invariant(s) && Permitted(s, e) && t in Step(s, e).holds
    ensures Owned(Step(s, e), Step(s, e).holds[t])
    ensures t in s.holds ==> Step(s, e).holds[t] == s.holds[t]
    ensures t !in s.holds ==> Claims(e) && Applies(s, e) && e.thread == t && Step(s, e).holds[t].id == e.id
  {
    hide Step, Permitted, Invariant, Owned, Applies;
    HoldsAfter(s, e, t);
    if t in s.holds {
      KeptHolder(s, e, t);
    } else {
      NewHolder(s, e);
    }
  }

  lemma ClaimMethod(s: System, e: Event)
    requires Applies(s, e) && e.TakeDevice?
    ensures s.stages[e.id].authorization == Device
  {
  }

  lemma StepHolders(s: System, e: Event)
    requires Invariant(s) && Permitted(s, e)
    ensures Holders(Step(s, e))
  {
    hide Step, Update, Permitted, Terminal;
    forall t | t in Step(s, e).holds
      ensures Owned(Step(s, e), Step(s, e).holds[t])
    {
      StepHolder(s, e, t);
    }
    forall t, u | t in Step(s, e).holds && u in Step(s, e).holds && Step(s, e).holds[t].id == Step(s, e).holds[u].id
      ensures t == u
    {
      StepHolder(s, e, t);
      StepHolder(s, e, u);
      if Applies(s, e) {
        UpdateKeeps(s, e);
      }
      if t in s.holds {
        assert Owned(s, s.holds[t]);
      }
      if u in s.holds {
        assert Owned(s, s.holds[u]);
      }
    }
  }

  lemma {:induction false} RunInvariant(es: seq<Event>)
    requires PermittedRun(es)
    ensures Invariant(Run(es))
  {
    if es != [] {
      var n := |es| - 1;
      RunInvariant(es[..n]);
      StepRows(Run(es[..n]), es[n]);
      StepHolders(Run(es[..n]), es[n]);
    }
  }

  lemma {:induction false} PrefixPermitted(es: seq<Event>, i: nat)
    requires PermittedRun(es) && i <= |es|
    ensures PermittedRun(es[..i])
    ensures i < |es| ==> Permitted(Run(es[..i]), es[i])
  {
    if i < |es| {
      var n := |es| - 1;
      if i < n {
        PrefixPermitted(es[..n], i);
        assert es[..n][..i] == es[..i];
      }
    } else {
      assert es[..i] == es;
    }
  }

  // ---- terminal states are absorbing ------------------------------------------------------

  // The stage is over: its row is in a terminal state, or has been pruned.
  predicate Over(s: System, id: ID) {
    id in s.used && (id in s.stages ==> Terminal(s.stages[id].status))
  }

  lemma StepOver(s: System, e: Event, id: ID)
    requires Invariant(s) && Permitted(s, e) && Over(s, id)
    ensures Over(Step(s, e), id)
    ensures id in Step(s, e).stages ==> id in s.stages && Step(s, e).stages[id] == s.stages[id]
  {
    hide Update, WellFormed, Cleaned, Interrupted;
    UsedGrows(s, e);
    if id in s.stages {
      RowStep(s, e, id);
    } else if id in Step(s, e).stages {
      NewRows(s, e, id);
    }
  }

  // Once over, a stage is over forever: its row is never changed again, only pruned, and a
  // pruned row never comes back.
  lemma {:induction false} TerminalIsAbsorbing(es: seq<Event>, i: nat, id: ID)
    requires PermittedRun(es) && i <= |es| && Over(Run(es[..i]), id)
    ensures Over(Run(es), id)
    ensures id in Run(es).stages ==> id in Run(es[..i]).stages && Run(es).stages[id] == Run(es[..i]).stages[id]
  {
    hide Step, Over, Permitted, Invariant;
    if i < |es| {
      var n := |es| - 1;
      assert es[..n][..i] == es[..i];
      TerminalIsAbsorbing(es[..n], i, id);
      RunInvariant(es[..n]);
      StepOver(Run(es[..n]), es[n], id);
    } else {
      assert es[..i] == es;
    }
  }

  // In every reachable state a finished row holds no secret, an unfinished one does, and the
  // OAuth state is there exactly while a browser authorization is pending.
  lemma SecretsOnlyWhileUsable(es: seq<Event>, id: ID)
    requires PermittedRun(es) && id in Run(es).stages
    ensures var row := Run(es).stages[id];
            && (Terminal(row.status) <==> row.payload == "")
            && (row.stateHash.Some? <==> row.status == Pending && row.authorization == Browser)
            && (row.status == Consumed <==> row.consumedBy.Some?)
  {
    RunInvariant(es);
  }

  // Cleanup ends whatever is overdue, an exchange half a minute after it was claimed.
  lemma CleanupEndsOverdue(es: seq<Event>, id: ID, now: int)
    requires PermittedRun(es) && id in Run(es).stages && !Terminal(Run(es).stages[id].status)
    requires Run(es).stages[id].expiresAt <= now
             || (Run(es).stages[id].status == Exchanging && Run(es).stages[id].updatedAt + EXCHANGE_LIMIT <= now)
    ensures Over(Step(Run(es), CleanUp(now)), id)
  {
    RunInvariant(es);
  }

  predicate Consumes(s: System, e: Event, id: ID) {
    e.Use? && e.id == id && Applies(s, e)
  }

  lemma ConsumedIsOver(s: System, e: Event, id: ID)
    requires Invariant(s) && Consumes(s, e, id)
    ensures Over(Step(s, e), id)
  {
  }

  // A stage becomes a credential at most once.
  lemma ConsumedAtMostOnce(es: seq<Event>, i: nat, j: nat, id: ID)
    requires PermittedRun(es) && i < j < |es|
    requires Consumes(Run(es[..i]), es[i], id)
    ensures !Consumes(Run(es[..j]), es[j], id)
  {
    hide Step, Permitted, Invariant, Over;
    PrefixPermitted(es, i);
    PrefixPermitted(es, j);
    RunInvariant(es[..i]);
    ConsumedIsOver(Run(es[..i]), es[i], id);
    assert es[..i + 1][..i] == es[..i] && es[..j][..i + 1] == es[..i + 1];
    TerminalIsAbsorbing(es[..j], i + 1, id);
    OverIsUnused(Run(es[..j]), es[j], id);
  }

  lemma OverIsUnused(s: System, e: Event, id: ID)
    requires Over(s, id)
    ensures !Consumes(s, e, id)
  {
  }

  // ---- each exchanging period has one owner ------------------------------------------------

  // The last event in which the thread won a claim, or -1.
  function ClaimedAt(es: seq<Event>, t: Thread): (i: int)
    ensures -1 <= i < |es|
  {
    if es == [] then -1
    else
      var n := |es| - 1;
      if Claims(es[n]) && es[n].thread == t && Applies(Run(es[..n]), es[n]) then n else ClaimedAt(es[..n], t)
  }

  // The thread has held the same claim since it won it.
  ghost predicate HeldSince(es: seq<Event>, t: Thread) {
    var i := ClaimedAt(es, t);
    && t in Run(es).holds && 0 <= i
    && Claims(es[i]) && es[i].thread == t && Applies(Run(es[..i]), es[i])
    && Run(es).holds[t].id == es[i].id
    && Run(es).holds[t].period == Period(Run(es[..i]), es[i].id) + 1
    && forall k :: i < k <= |es| ==> HoldsAt(es, k, t, Run(es).holds[t])
  }

  predicate HoldsAt(es: seq<Event>, k: nat, t: Thread, h: Hold)
    requires k <= |es|
  {
    t in Run(es[..k]).holds && Run(es[..k]).holds[t] == h
  }

  lemma {:induction false} HoldersClaimed(es: seq<Event>, t: Thread)
    requires PermittedRun(es) && t in Run(es).holds
    ensures HeldSince(es, t)
  {
    hide Update, Permitted, Cleaned, Interrupted;
    var n := |es| - 1;
    RunInvariant(es[..n]);
    StepHolder(Run(es[..n]), es[n], t);
    if t in Run(es[..n]).holds {
      HoldersClaimed(es[..n], t);
      StillHeld(es, t);
    } else {
      assert es[..|es|] == es;
      NewHold(Run(es[..n]), es[n]);
    }
  }

  lemma NewHold(s: System, e: Event)
    requires Claims(e) && Applies(s, e)
    ensures e.thread in Step(s, e).holds && Step(s, e).holds[e.thread].period == Period(s, e.id) + 1
  {
  }

  lemma StillHeld(es: seq<Event>, t: Thread)
    requires es != [] && PermittedRun(es)
    requires HeldSince(es[..|es| - 1], t) && t in Run(es).holds
    requires Run(es).holds[t] == Run(es[..|es| - 1]).holds[t]
    ensures HeldSince(es, t)
  {
    hide Step, Applies, Permitted, Invariant;
    var n := |es| - 1;
    var i := ClaimedAt(es[..n], t);
    var h := Run(es).holds[t];
    assert es[..n][..i] == es[..i];
    NoSecondClaim(es, t);
    forall k | i < k <= |es|
      ensures HoldsAt(es, k, t, h)
    {
      if k <= n {
        assert HoldsAt(es[..n], k, t, h);
        assert es[..n][..k] == es[..k];
      } else {
        assert es[..k] == es;
      }
    }
  }

  lemma NoSecondClaim(es: seq<Event>, t: Thread)
    requires es != [] && PermittedRun(es) && t in Run(es[..|es| - 1]).holds
    ensures ClaimedAt(es, t) == ClaimedAt(es[..|es| - 1], t)
  {
  }

  // A result that is written is written by the thread that opened the stage's current exchanging
  // period, and nothing ended that period in between: no late result revives a stage.
  lemma ResultsAreTimely(es: seq<Event>, t: Thread, k: nat)
    requires PermittedRun(es) && es != [] && es[|es| - 1].Done? && es[|es| - 1].thread == t
    requires Applies(Run(es[..|es| - 1]), es[|es| - 1])
    requires ClaimedAt(es[..|es| - 1], t) < k < |es|
    ensures var i := ClaimedAt(es[..|es| - 1], t);
            var h := Run(es[..|es| - 1]).holds[t];
            && 0 <= i && Claims(es[i]) && es[i].thread == t && es[i].id == h.id
            && h.id in Run(es[..k]).stages && Run(es[..k]).stages[h.id].status == Exchanging
            && Period(Run(es[..k]), h.id) == h.period == Period(Run(es[..i]), h.id) + 1
  {
    hide Step, Permitted;
    var n := |es| - 1;
    var init := es[..n];
    var h := Run(init).holds[t];
    var i := ClaimedAt(init, t);
    HoldersClaimed(init, t);
    assert init[..i] == es[..i] && init[..k] == es[..k];
    assert HoldsAt(init, k, t, h);
    PrefixPermitted(init, k);
    RunInvariant(es[..k]);
    assert Owned(Run(es[..k]), h);
    if Over(Run(es[..k]), h.id) {
      TerminalIsAbsorbing(init, k, h.id);
      assert false;
    }
  }

  lemma {:induction false} PeriodsGrow(es: seq<Event>, i: nat, id: ID)
    requires i <= |es|
    ensures Period(Run(es[..i]), id) <= Period(Run(es), id)
  {
    if i < |es| {
      assert es[..|es| - 1][..i] == es[..i];
      PeriodsGrow(es[..|es| - 1], i, id);
    } else {
      assert es[..i] == es;
    }
  }

  lemma ResultEndsPeriod(s: System, e: Event)
    requires Invariant(s) && Permitted(s, e) && e.Done? && Applies(s, e)
    ensures var h := s.holds[e.thread];
            && h.id in Step(s, e).stages && Step(s, e).stages[h.id].status != Exchanging
            && Period(Step(s, e), h.id) == h.period
  {
    assert Owned(s, s.holds[e.thread]);
  }

  // A result written after another was claimed after it.
  lemma ClaimedAfter(es: seq<Event>, i: nat, h: Hold)
    requires PermittedRun(es) && i < |es| - 1 && es[|es| - 1].Done?
    requires Applies(Run(es[..|es| - 1]), es[|es| - 1])
    requires h == Run(es[..|es| - 1]).holds[es[|es| - 1].thread]
    requires h.id in Run(es[..i + 1]).stages && Run(es[..i + 1]).stages[h.id].status != Exchanging
    ensures i < ClaimedAt(es[..|es| - 1], es[|es| - 1].thread)
  {
    hide Step, Permitted, Applies, Run;
    if ClaimedAt(es[..|es| - 1], es[|es| - 1].thread) <= i {
      ResultsAreTimely(es, es[|es| - 1].thread, i + 1);
    }
  }

  lemma PeriodAfter(es: seq<Event>, i: nat, t: Thread)
    requires PermittedRun(es) && t in Run(es).holds && i < ClaimedAt(es, t)
    ensures Period(Run(es[..i + 1]), Run(es).holds[t].id) < Run(es).holds[t].period
  {
    hide Step, Permitted, Applies, Period;
    HoldersClaimed(es, t);
    var c := ClaimedAt(es, t);
    assert es[..c][..i + 1] == es[..i + 1];
    PeriodsGrow(es[..c], i + 1, es[c].id);
  }

  // Two results written to one stage belong to different periods, the later one to a later period, claimed
  // after the earlier one was written.
  lemma OneResultPerPeriod(es: seq<Event>, i: nat)
    requires PermittedRun(es) && i < |es| - 1 && es[i].Done? && es[|es| - 1].Done?
    requires Applies(Run(es[..i]), es[i]) && Applies(Run(es[..|es| - 1]), es[|es| - 1])
    requires Run(es[..i]).holds[es[i].thread].id == Run(es[..|es| - 1]).holds[es[|es| - 1].thread].id
    ensures Run(es[..i]).holds[es[i].thread].period < Run(es[..|es| - 1]).holds[es[|es| - 1].thread].period
    ensures i < ClaimedAt(es[..|es| - 1], es[|es| - 1].thread)
  {
    hide Step, Permitted, Invariant, Update, Period, ClaimedAt;
    var t := es[|es| - 1].thread;
    var init := es[..|es| - 1];
    PrefixPermitted(es, i);
    RunInvariant(es[..i]);
    assert es[..i + 1][..i] == es[..i];
    ResultEndsPeriod(Run(es[..i]), es[i]);
    ClaimedAfter(es, i, Run(init).holds[t]);
    assert init[..i + 1] == es[..i + 1];
    PeriodAfter(init, i, t);
  }

  // ---- an exchange that comes to nothing ----------------------------------------------------

  // Only its claim and its result change a row that keeps exchanging in one period.
  lemma StepExchanging(s: System, e: Event, id: ID)
    requires Invariant(s) && Permitted(s, e) && id in s.stages && id in Step(s, e).stages
    requires s.stages[id].status == Exchanging && Step(s, e).stages[id].status == Exchanging
    ensures Step(s, e).stages[id] == s.stages[id]
  {
    hide WellFormed, Cleaned, Interrupted;
    RowStep(s, e, id);
    if Applies(s, e) && Aim(s, e) == id {
      UpdateKeeps(s, e);
      if e.Done? {
        ResultEndsPeriod(s, e);
      }
    }
  }

  predicate ExchangingAt(es: seq<Event>, k: nat, id: ID)
    requires k <= |es|
  {
    id in Run(es[..k]).stages && Run(es[..k]).stages[id].status == Exchanging
  }

  // A row that exchanges all along is not touched.
  lemma {:induction false} Unbroken(es: seq<Event>, i: nat, k: nat, id: ID)
    requires PermittedRun(es) && i <= k <= |es| && forall j :: i <= j <= k ==> ExchangingAt(es, j, id)
    ensures id in Run(es[..i]).stages && id in Run(es[..k]).stages
    ensures Run(es[..k]).stages[id] == Run(es[..i]).stages[id]
    decreases k
  {
    assert ExchangingAt(es, i, id) && ExchangingAt(es, k, id);
    if i < k {
      Unbroken(es, i, k - 1, id);
      assert ExchangingAt(es, k - 1, id);
      PrefixPermitted(es, k - 1);
      RunInvariant(es[..k - 1]);
      assert es[..k][..k - 1] == es[..k - 1];
      hide Step, Permitted, Invariant;
      StepExchanging(Run(es[..k - 1]), es[k - 1], id);
    }
  }

  // From its claim until its result the row is as the claim left it.
  lemma ExchangingUntouched(es: seq<Event>, t: Thread, id: ID)
    requires PermittedRun(es) && es != [] && es[|es| - 1].Done? && es[|es| - 1].thread == t
    requires Applies(Run(es[..|es| - 1]), es[|es| - 1]) && id == Run(es[..|es| - 1]).holds[t].id
    ensures var i, n := ClaimedAt(es[..|es| - 1], t), |es| - 1;
            && 0 <= i < n && id in Run(es[..i + 1]).stages && id in Run(es[..n]).stages
            && Run(es[..n]).stages[id] == Run(es[..i + 1]).stages[id]
  {
    var i, n := ClaimedAt(es[..|es| - 1], t), |es| - 1;
    hide Step, Permitted, Applies, ClaimedAt, Invariant, Run;
    forall j | i < j <= n ensures 0 <= i && ExchangingAt(es, j, id) {
      ResultsAreTimely(es, t, j);
    }
    ResultsAreTimely(es, t, n);
    Unbroken(es, i + 1, n, id);
  }

  lemma ClaimedRow(s: System, e: Event)
    requires Claims(e) && Applies(s, e)
    ensures e.id in s.stages && e.id in Step(s, e).stages
    ensures Step(s, e).holds[e.thread].expiresAt == s.stages[e.id].expiresAt
    ensures e.TakeRefresh? ==>
              Step(s, e).stages[e.id] == s.stages[e.id].(status := Exchanging, expiresAt := e.now + EXCHANGE_LIMIT, code := "", updatedAt := e.now)
    ensures e.TakeRefresh? ==> s.stages[e.id].status == Ready
  {
  }

  // A refresh that may be retried leaves the stage exactly as it found it, but for the time of the
  // last change and an earlier error code.
  lemma RetryUndoesClaim(es: seq<Event>, t: Thread)
    requires PermittedRun(es) && es != [] && es[|es| - 1].Done? && es[|es| - 1].thread == t
    requires es[|es| - 1].outcome.Retry? && Applies(Run(es[..|es| - 1]), es[|es| - 1])
    ensures var i, id := ClaimedAt(es[..|es| - 1], t), Run(es[..|es| - 1]).holds[t].id;
            && 0 <= i && id in Run(es[..i]).stages && id in Run(es).stages
            && Run(es).stages[id] == Run(es[..i]).stages[id].(code := "", updatedAt := es[|es| - 1].now)
  {
    var n := |es| - 1;
    var init := es[..n];
    HoldersClaimed(init, t);
    var i := ClaimedAt(init, t);
    assert init[..i] == es[..i] && es[..i + 1][..i] == es[..i] && init[..i + 1] == es[..i + 1];
    ExchangingUntouched(es, t, Run(init).holds[t].id);
    ClaimedRow(Run(es[..i]), es[i]);
    assert HoldsAt(init, i + 1, t, Run(init).holds[t]);
    RetryRow(Run(init), es[n], t);
    HoldKind(Run(es[..i]), es[i]);
  }

  lemma HoldKind(s: System, e: Event)
    requires Claims(e) && Applies(s, e)
    ensures e.thread in Step(s, e).holds && (Step(s, e).holds[e.thread].kind == ReadyRefresh <==> e.TakeRefresh?)
  {
  }

  lemma RetryRow(s: System, e: Event, t: Thread)
    requires e.Done? && e.thread == t && e.outcome.Retry? && Applies(s, e) && Permitted(s, e)
    ensures s.holds[t].kind == ReadyRefresh
    ensures var id := s.holds[t].id;
            && id in Step(s, e).stages
            && Step(s, e).stages[id] ==
               s.stages[id].(status := Ready, expiresAt := s.holds[t].expiresAt, code := "", updatedAt := e.now)
  {
  }

  // ---- an OAuth state starts at most one exchange -------------------------------------------

  predicate Spends(s: System, e: Event, hash: string) {
    ((e.TakeBrowser? && e.hash == hash) || (e.Fail? && e.hash == hash)) && Applies(s, e)
  }

  predicate Spent(s: System, hash: string) {
    hash in s.hashes && forall id :: id in s.stages ==> s.stages[id].stateHash != Some(hash)
  }

  lemma StepSpent(s: System, e: Event, hash: string)
    requires Invariant(s) && Permitted(s, e) && (Spent(s, hash) || Spends(s, e, hash))
    ensures Spent(Step(s, e), hash)
  {
    hide Step, Update, WellFormed, Terminal;
    UsedGrows(s, e);
    if Spends(s, e, hash) {
      SpendingClears(s, e, hash);
    }
    forall id | id in Step(s, e).stages
      ensures Step(s, e).stages[id].stateHash != Some(hash)
    {
      if id in s.stages {
        RowStep(s, e, id);
      } else {
        NewRows(s, e, id);
      }
    }
  }

  lemma SpendingClears(s: System, e: Event, hash: string)
    requires Invariant(s) && Spends(s, e, hash)
    ensures hash in s.hashes && s.stages[e.id].stateHash == Some(hash)
    ensures e.id in Step(s, e).stages && Step(s, e).stages[e.id].stateHash == None
    ensures forall id :: id in s.stages && id != e.id ==> s.stages[id].stateHash != Some(hash)
  {
    assert forall id :: id in s.stages && s.stages[id].stateHash == Some(hash) ==> SameHash(s.stages[id], s.stages[e.id]);
  }

  lemma {:induction false} SpentForGood(es: seq<Event>, i: nat, hash: string)
    requires PermittedRun(es) && i <= |es| && Spent(Run(es[..i]), hash)
    ensures Spent(Run(es), hash)
  {
    hide Step, Spent, Permitted, Invariant;
    if i < |es| {
      var n := |es| - 1;
      assert es[..n][..i] == es[..i];
      SpentForGood(es[..n], i, hash);
      RunInvariant(es[..n]);
      StepSpent(Run(es[..n]), es[n], hash);
    } else {
      assert es[..i] == es;
    }
  }

  lemma SpentIsRefused(s: System, e: Event, hash: string)
    requires Spent(s, hash)
    ensures !Spends(s, e, hash)
  {
  }

  // A returned OAuth state is honoured once, as a success or as a rejection.
  lemma StateHonouredOnce(es: seq<Event>, i: nat, j: nat, hash: string)
    requires PermittedRun(es) && i < j < |es|
    requires Spends(Run(es[..i]), es[i], hash)
    ensures !Spends(Run(es[..j]), es[j], hash)
  {
    hide Step, Permitted, Invariant, Spends, Spent;
    PrefixPermitted(es, i);
    PrefixPermitted(es, j);
    RunInvariant(es[..i]);
    StepSpent(Run(es[..i]), es[i], hash);
    assert es[..i + 1][..i] == es[..i] && es[..j][..i + 1] == es[..i + 1];
    SpentForGood(es[..j], i + 1, hash);
    SpentIsRefused(Run(es[..j]), es[j], hash);
  }
}
