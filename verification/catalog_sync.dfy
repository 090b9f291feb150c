/**
  The catalog sync coordinator: any number of callers, one synchronization at a time, a published
  snapshot and the validators that belong to it, a cache that survives restarts.
*/
module CatalogSync {
  import opened Wrappers

  type Snapshot = string

  datatype Validators = Validators(etag: string, lastModified: string)

  datatype Metadata = Metadata(validators: Validators, checkedAt: int, fetchedAt: int)

  const NO_METADATA := Metadata(Validators("", ""), 0, 0)

  // A full response: a snapshot with the validators it came with.
  datatype Generation = Generation(metadata: Metadata, snapshot: Snapshot)

  // What one synchronization reads and changes. `issued` and `fetches` record what upstream ever
  // sent and how often it was asked.
  datatype Catalog = Catalog(
    metadata: Metadata, hasLKG: bool, pending: Option<Generation>, published: Option<Snapshot>,
    cache: Option<Generation>, issued: set<(Validators, Snapshot)>, fetches: nat)

  // Startup: the embedded catalog, then the cache on top of it if it can be read.
  function Boot(official: Option<Snapshot>, cache: Option<Generation>, issued: set<(Validators, Snapshot)>): Catalog {
    match cache
    case None => Catalog(NO_METADATA, false, None, official, None, issued, 0)
    case Some(g) => Catalog(g.metadata, true, None, Some(g.snapshot), cache, issued, 0)
  }

  // ---- one synchronization ---------------------------------------------------------------------

  datatype Outcome = Failed | NotModified(metadata: Metadata) | Succeeded(metadata: Metadata)

  // Where the goroutine that executes a call has got to.
  datatype Phase =
    | Begin
    | ApplyPending(pending: Generation)
    | Fetch(sent: Metadata)
    | Save(fetched: Generation)
    | Apply(staged: Generation)
    | Commit(applied: Generation)
    | Finish(outcome: Outcome)

  // What upstream answers a conditional request.
  datatype Response = Error | Unmodified(checkedAt: int) | Full(generation: Generation)

  // How writing the cache ends: done, done but the call was cancelled, or failed with whatever is left.
  datatype Saved = Done | TooLate | Broken(left: Option<Generation>)

  datatype Act =
    | Look
    | Publish(ok: bool)
    | Ask(response: Response)
    | Store(saved: Saved)
    | Record

  predicate Fits(p: Phase, a: Act) {
    match a
    case Look => p.Begin?
    case Publish(_) => p.ApplyPending? || p.Apply?
    case Ask(_) => p.Fetch?
    case Store(_) => p.Save?
    case Record => p.Commit?
  }

  function Answered(c: Catalog, sent: Metadata, r: Response): (Catalog, Phase) {
    var asked := c.(fetches := c.fetches + 1);
    match r
    case Error => (asked, Finish(Failed))
    case Unmodified(checkedAt) =>
      var metadata := sent.(checkedAt := checkedAt);
      if c.hasLKG && c.published.Some? then (asked.(metadata := metadata), Finish(NotModified(metadata)))
      else (asked, Finish(Failed))
    case Full(g) => (asked.(issued := c.issued + {(g.metadata.validators, g.snapshot)}), Save(g))
  }

  function Advance(c: Catalog, p: Phase, a: Act): (Catalog, Phase)
    requires Fits(p, a)
  {
    match a
    case Look => (c, if c.pending.Some? then ApplyPending(c.pending.value) else Fetch(c.metadata))
    case Publish(ok) =>
      var g := if p.Apply? then p.staged else p.pending;
      if ok then (c.(published := Some(g.snapshot)), Commit(g)) else (c, Finish(Failed))
    case Ask(response) => Answered(c, p.sent, response)
    case Store(saved) =>
      (match saved
       case Done => (c.(cache := Some(p.fetched), pending := Some(p.fetched)), Apply(p.fetched))
       case TooLate => (c.(cache := Some(p.fetched)), Finish(Failed))
       case Broken(left) =>
         (c.(cache := if left == c.cache || left == Some(p.fetched) then left else None), Finish(Failed)))
    case Record =>
      (c.(metadata := p.applied.metadata, hasLKG := true, pending := None), Finish(Succeeded(p.applied.metadata)))
  }

  predicate Issued(c: Catalog, g: Generation) {
    (g.metadata.validators, g.snapshot) in c.issued
  }

  predicate Sound(c: Catalog) {
    && (c.pending.Some? ==> Issued(c, c.pending.value))
    && (c.cache.Some? ==> Issued(c, c.cache.value))
  }

  // The validators to be sent next belong to the snapshot being served.
  predicate Paired(c: Catalog) {
    c.hasLKG ==> c.published.Some? && (c.metadata.validators, c.published.value) in c.issued
  }

  predicate PhaseHolds(c: Catalog, p: Phase) {
    match p
    case Begin => Paired(c)
    case ApplyPending(g) => Paired(c) && c.pending == Some(g) && Issued(c, g)
    case Fetch(sent) => Paired(c) && c.pending.None? && sent == c.metadata
    case Save(g) => Paired(c) && c.pending.None? && Issued(c, g)
    case Apply(g) => Paired(c) && c.pending == Some(g) && Issued(c, g)
    case Commit(g) => c.pending == Some(g) && Issued(c, g) && c.published == Some(g.snapshot)
    case Finish(_) => Paired(c)
  }

  lemma AdvanceHolds(c: Catalog, p: Phase, a: Act)
    requires Fits(p, a) && PhaseHolds(c, p) && Sound(c)
    ensures PhaseHolds(Advance(c, p, a).0, Advance(c, p, a).1) && Sound(Advance(c, p, a).0)
  {
  }

  // ---- callers ---------------------------------------------------------------------------------

  type Thread = nat
  type CallId = nat

  datatype System = System(
    catalog: Catalog, inFlight: Option<CallId>, shuttingDown: bool,
    running: map<CallId, Phase>, results: map<CallId, Outcome>, waiting: map<Thread, CallId>, nextCall: CallId)

  function Idle(c: Catalog): System { System(c, None, false, map[], map[], map[], 0) }

  datatype Event =
    | Sync(thread: Thread, skipped: bool)
    | Return(thread: Thread)
    | Abandon(thread: Thread)
    | Execute(call: CallId, act: Act)
    | Close(call: CallId)
    | Shutdown
    | Restart(official: Option<Snapshot>, readable: bool)

  predicate Enabled(s: System, e: Event) {
    match e
    case Sync(thread, _) => thread !in s.waiting
    case Return(thread) => thread in s.waiting && s.waiting[thread] in s.results
    case Abandon(thread) => thread in s.waiting
    case Execute(call, act) => call in s.running && Fits(s.running[call], act)
    case Close(call) => call in s.running && s.running[call].Finish?
    case Shutdown => true
    case Restart(_, _) => true
  }

  function Effect(s: System, e: Event): System
    requires Enabled(s, e)
  {
    match e
    case Sync(thread, skipped) =>
      if s.shuttingDown then s
      else if s.inFlight.Some? then s.(waiting := s.waiting[thread := s.inFlight.value])
      else if skipped then s
      else
        s.(inFlight := Some(s.nextCall), nextCall := s.nextCall + 1, running := s.running[s.nextCall := Begin],
           waiting := s.waiting[thread := s.nextCall])
    case Return(thread) => s.(waiting := s.waiting - {thread})
    case Abandon(thread) => s.(waiting := s.waiting - {thread})
    case Execute(call, act) =>
      var (c, p) := Advance(s.catalog, s.running[call], act);
      s.(catalog := c, running := s.running[call := p])
    case Close(call) =>
      s.(results := s.results[call := s.running[call].outcome], running := s.running - {call}, inFlight := None)
    case Shutdown => s.(shuttingDown := true)
    case Restart(official, readable) =>
      Idle(Boot(official, if readable then s.catalog.cache else None, s.catalog.issued))
  }

  function Step(s: System, e: Event): System {
    if Enabled(s, e) then Effect(s, e) else s
  }

  function Run(official: Option<Snapshot>, es: seq<Event>): System {
    if es == [] then Idle(Boot(official, None, {})) else Step(Run(official, es[..|es| - 1]), es[|es| - 1])
  }

  // One goroutine, and it is the one in flight; results are of calls that are over.
  predicate OneRunning(s: System) {
    && s.running.Keys == (if s.inFlight.Some? then {s.inFlight.value} else {})
    && s.running.Keys !! s.results.Keys
    && (forall c :: c in s.running ==> c < s.nextCall)
    && (forall c :: c in s.results ==> c < s.nextCall)
    && (forall t :: t in s.waiting ==> s.waiting[t] in s.running || s.waiting[t] in s.results)
  }

  predicate Consistent(s: System) {
    && OneRunning(s) && Sound(s.catalog)
    && (s.inFlight.None? ==> Paired(s.catalog))
    && (forall c :: c in s.running ==> PhaseHolds(s.catalog, s.running[c]))
  }

  lemma StepExecute(s: System, e: Event)
    requires Consistent(s) && Enabled(s, e) && e.Execute?
    ensures Consistent(Effect(s, e))
  {
    hide PhaseHolds, Sound, Paired, Fits, Advance;
    AdvanceHolds(s.catalog, s.running[e.call], e.act);
    assert s.running.Keys == {e.call};
    assert Effect(s, e).running.Keys == {e.call};
  }

  lemma StepClose(s: System, e: Event)
    requires Consistent(s) && Enabled(s, e) && e.Close?
    ensures Consistent(Effect(s, e))
  {
    assert s.running.Keys == {e.call};
    assert PhaseHolds(s.catalog, s.running[e.call]);
    assert Effect(s, e).running.Keys == {};
  }

  lemma StepCallers(s: System, e: Event)
    requires Consistent(s) && Enabled(s, e) && !e.Execute? && !e.Close?
    ensures Consistent(Effect(s, e))
  {
  }

  lemma StepConsistent(s: System, e: Event)
    requires Consistent(s)
    ensures Consistent(Step(s, e))
  {
    hide Consistent, Effect, Enabled;
    if Enabled(s, e) {
      if e.Execute? {
        StepExecute(s, e);
      } else if e.Close? {
        StepClose(s, e);
      } else {
        StepCallers(s, e);
      }
    }
  }

  lemma {:induction false} RunConsistent(official: Option<Snapshot>, es: seq<Event>)
    ensures Consistent(Run(official, es))
  {
    hide Step, Consistent;
    if es != [] {
      RunConsistent(official, es[..|es| - 1]);
      StepConsistent(Run(official, es[..|es| - 1]), es[|es| - 1]);
    } else {
      BootConsistent(official);
    }
  }

  lemma BootConsistent(official: Option<Snapshot>)
    ensures Consistent(Idle(Boot(official, None, {})))
  {
  }

  // ---- what callers and the operator are promised -----------------------------------------------

  // At most one synchronization executes, and it is the one new callers join.
  lemma AtMostOneExecutes(official: Option<Snapshot>, es: seq<Event>, a: CallId, b: CallId)
    requires a in Run(official, es).running && b in Run(official, es).running
    ensures a == b && Run(official, es).inFlight == Some(a)
  {
    hide Run;
    RunConsistent(official, es);
  }

  lemma StepKeepsResult(s: System, e: Event, call: CallId)
    requires OneRunning(s) && call in s.results && !e.Restart?
    ensures call in Step(s, e).results && Step(s, e).results[call] == s.results[call]
  {
  }

  // A call has one result, and whoever waits for it, from whenever, reads that one.
  lemma {:induction false} JoinedGetOneResult(official: Option<Snapshot>, es: seq<Event>, i: nat, call: CallId)
    requires i <= |es| && call in Run(official, es[..i]).results
    requires forall k :: i <= k < |es| ==> !es[k].Restart?
    ensures call in Run(official, es).results
    ensures Run(official, es).results[call] == Run(official, es[..i]).results[call]
  {
    hide Step, OneRunning, PhaseHolds;
    if i < |es| {
      var n := |es| - 1;
      assert es[..n][..i] == es[..i];
      JoinedGetOneResult(official, es[..n], i, call);
      RunConsistent(official, es[..n]);
      StepKeepsResult(Run(official, es[..n]), es[n], call);
    } else {
      assert es[..i] == es;
    }
  }

  // A caller that joins waits for the call in flight, and returns only once that call is closed.
  lemma JoiningWaits(official: Option<Snapshot>, es: seq<Event>, thread: Thread, skipped: bool)
    requires thread !in Run(official, es).waiting
    requires Run(official, es).inFlight.Some? && !Run(official, es).shuttingDown
    ensures var s := Run(official, es);
            var next := Step(s, Sync(thread, skipped));
            && next.running == s.running && next.nextCall == s.nextCall
            && thread in next.waiting && next.waiting[thread] == s.inFlight.value
            && !Enabled(next, Return(thread))
  {
    RunConsistent(official, es);
    assert Run(official, es).inFlight.value in Run(official, es).running;
  }

  // Nothing begins after shutdown, nor when the caller is told to skip; else a caller that finds no
  // synchronization under way begins one and waits for it.
  lemma SyncBegins(official: Option<Snapshot>, es: seq<Event>, thread: Thread, skipped: bool)
    requires thread !in Run(official, es).waiting && Run(official, es).inFlight.None?
    ensures var s := Run(official, es);
            var next := Step(s, Sync(thread, skipped));
            if s.shuttingDown || skipped then next == s
            else
              && next.inFlight.Some? && next.inFlight.value !in s.results && next.running == map[next.inFlight.value := Begin]
              && next.waiting == s.waiting[thread := next.inFlight.value]
              && next.catalog == s.catalog && next.results == s.results && !next.shuttingDown
  {
    RunConsistent(official, es);
    var s := Run(official, es);
    assert s.running == map[];
  }

  // A synchronization that is over reports its outcome to all who wait for it, and makes way for the next.
  lemma CloseReports(official: Option<Snapshot>, es: seq<Event>, call: CallId)
    requires call in Run(official, es).running && Run(official, es).running[call].Finish?
    ensures var s := Run(official, es);
            var next := Step(s, Close(call));
            && call in next.results && next.results[call] == s.running[call].outcome
            && next.running == map[] && next.inFlight.None? && next.catalog == s.catalog && next.waiting == s.waiting
            && forall t :: t in next.waiting && next.waiting[t] == call ==> Enabled(next, Return(t))
  {
    RunConsistent(official, es);
    var s := Run(official, es);
    assert s.running.Keys == {call};
    assert (s.running - {call}).Keys == {};
  }

  lemma StepShut(s: System, e: Event)
    requires s.shuttingDown && !e.Restart?
    ensures Step(s, e).shuttingDown && Step(s, e).nextCall == s.nextCall
    ensures Step(s, e).running.Keys <= s.running.Keys
  {
  }

  // After shutdown no call begins: the only one that may still run is the one already under way.
  lemma {:induction false} NoneStartsAfterShutdown(official: Option<Snapshot>, es: seq<Event>, i: nat)
    requires i <= |es| && Run(official, es[..i]).shuttingDown
    requires forall k :: i <= k < |es| ==> !es[k].Restart?
    ensures Run(official, es).shuttingDown
    ensures Run(official, es).nextCall == Run(official, es[..i]).nextCall
    ensures Run(official, es).running.Keys <= Run(official, es[..i]).running.Keys
  {
    hide Step;
    if i < |es| {
      var n := |es| - 1;
      assert es[..n][..i] == es[..i];
      NoneStartsAfterShutdown(official, es[..n], i);
      StepShut(Run(official, es[..n]), es[n]);
    } else {
      assert es[..i] == es;
    }
  }

  // A request goes out only when nothing is waiting to be applied, and it carries the validators
  // of the snapshot being served, if one was ever accepted.
  lemma RequestsAreUpToDate(official: Option<Snapshot>, es: seq<Event>, call: CallId, response: Response)
    requires Enabled(Run(official, es), Execute(call, Ask(response)))
    ensures var s := Run(official, es);
            var c := s.catalog;
            && c.pending.None?
            && s.running[call] == Fetch(c.metadata)
            && (c.hasLKG ==> c.published.Some? && (c.metadata.validators, c.published.value) in c.issued)
  {
    hide Run;
    RunConsistent(official, es);
    assert PhaseHolds(Run(official, es).catalog, Run(official, es).running[call]);
  }

  // An accepted "not modified" leaves the served snapshot alone, and the validators it confirms
  // came with that very snapshot.
  lemma AcceptedNotModifiedIsServed(official: Option<Snapshot>, es: seq<Event>, call: CallId, checkedAt: int)
    requires Enabled(Run(official, es), Execute(call, Ask(Unmodified(checkedAt))))
    requires Step(Run(official, es), Execute(call, Ask(Unmodified(checkedAt)))).running[call] != Finish(Failed)
    ensures var s, next := Run(official, es), Step(Run(official, es), Execute(call, Ask(Unmodified(checkedAt))));
            var confirmed := s.running[call].sent.validators;
            && next.catalog.published == s.catalog.published && next.catalog.published.Some?
            && next.catalog.metadata.validators == confirmed
            && (confirmed, next.catalog.published.value) in next.catalog.issued
  {
    hide Run;
    RequestsAreUpToDate(official, es, call, Unmodified(checkedAt));
  }

  // A fetched generation whose application failed stays pending, and the next call applies it
  // before it asks upstream for anything.
  lemma PendingIsAppliedFirst(official: Option<Snapshot>, es: seq<Event>, call: CallId)
    requires Enabled(Run(official, es), Execute(call, Look)) && Run(official, es).catalog.pending.Some?
    ensures var s := Run(official, es);
            var g := s.catalog.pending.value;
            var next := Step(s, Execute(call, Look));
            var applied := Step(next, Execute(call, Publish(true)));
            var done := Step(applied, Execute(call, Record));
            && next.running[call] == ApplyPending(g)
            && (forall response :: !Enabled(next, Execute(call, Ask(response))))
            && applied.catalog.published == Some(g.snapshot) && applied.catalog.fetches == s.catalog.fetches
            && done.catalog.metadata == g.metadata && done.catalog.hasLKG && done.catalog.pending.None?
            && (done.catalog.metadata.validators, done.catalog.published.value) in done.catalog.issued
  {
    hide Run;
    RunConsistent(official, es);
  }

  // A restart serves what the cache holds, with its own validators; without a cache that can be read, the
  // embedded catalog, and then it asks without validators.
  lemma RestartIsPaired(official: Option<Snapshot>, es: seq<Event>, embedded: Option<Snapshot>, readable: bool)
    ensures var s := Run(official, es);
            var next := Step(s, Restart(embedded, readable));
            var c := next.catalog;
            && c.pending.None? && next.inFlight.None? && !next.shuttingDown && next.waiting == map[]
            && if readable && s.catalog.cache.Some? then
                 && c.hasLKG && c.published == Some(s.catalog.cache.value.snapshot) && c.metadata == s.catalog.cache.value.metadata
                 && (c.metadata.validators, c.published.value) in c.issued
               else !c.hasLKG && c.published == embedded && c.metadata == Metadata(Validators("", ""), 0, 0)
  {
    hide Run;
    RunConsistent(official, es);
  }
}
