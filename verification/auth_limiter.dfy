/**
  The login-failure limiter: five failures within half an hour lock a peer for half an hour. Entries
  that no longer matter are cleaned up now and then.
*/
module AuthLimiter {
  import opened Wrappers

  // Milliseconds.
  const WINDOW: int := 1_800_000
  const LOCK: int := 1_800_000
  const LIMIT := 5
  const CLEANUP_INTERVAL: int := 60_000

  datatype Entry = Entry(failures: seq<int>, lockedUntil: Option<int>)

  const NO_ENTRY := Entry([], None)

  type Entries = map<string, Entry>

  datatype Decision = Decision(authorized: bool, retryAfter: int, newlyLocked: bool)

  // The failures later than the cutoff, in order.
  function Retained(failures: seq<int>, cutoff: int): seq<int> {
    if failures == [] then []
    else
      Retained(failures[..|failures| - 1], cutoff) +
      if failures[|failures| - 1] > cutoff then [failures[|failures| - 1]] else []
  }

  function Of(entries: Entries, peer: string): Entry {
    if peer in entries then entries[peer] else NO_ENTRY
  }

  // ---- one attempt -------------------------------------------------------------------------

  function Judge(e: Entry, now: int): Decision {
    if e.lockedUntil.Some? && now < e.lockedUntil.value then Decision(false, e.lockedUntil.value - now, false)
    else if |Failures(e, now)| + 1 >= LIMIT then Decision(false, LOCK, true)
    else Decision(false, 0, false)
  }

  // The failures that still count; a lock that has run out wipes the slate.
  function Failures(e: Entry, now: int): seq<int> {
    if e.lockedUntil.Some? then [] else Retained(e.failures, now - WINDOW)
  }

  function Failed(e: Entry, now: int): Entry {
    if e.lockedUntil.Some? && now < e.lockedUntil.value then e
    else if |Failures(e, now)| + 1 >= LIMIT then Entry([], Some(now + LOCK))
    else Entry(Failures(e, now) + [now], None)
  }

  datatype Attempt = Attempt(peer: string, valid: bool, now: int)

  function Verdict(entries: Entries, a: Attempt): Decision {
    if a.valid then Decision(true, 0, false) else Judge(Of(entries, a.peer), a.now)
  }

  function Evaluated(entries: Entries, a: Attempt): Entries {
    if a.valid then entries - {a.peer} else entries[a.peer := Failed(Of(entries, a.peer), a.now)]
  }

  // ---- cleanup -----------------------------------------------------------------------------

  // What cleanup leaves of an entry.
  function Swept(e: Entry, now: int): Option<Entry> {
    if e.lockedUntil.Some? then (if now >= e.lockedUntil.value then None else Some(e))
    else if Retained(e.failures, now - WINDOW) == [] then None
    else Some(e.(failures := Retained(e.failures, now - WINDOW)))
  }

  function Cleaned(entries: Entries, now: int): Entries {
    map p | p in entries && Swept(entries[p], now).Some? :: Swept(entries[p], now).value
  }

  datatype Limiter = Limiter(entries: Entries, lastCleanup: Option<int>)

  predicate Due(l: Limiter, now: int) {
    l.lastCleanup.None? || now >= l.lastCleanup.value + CLEANUP_INTERVAL
  }

  function Tidied(l: Limiter, now: int): Limiter {
    if Due(l, now) then Limiter(Cleaned(l.entries, now), Some(now)) else l
  }

  // ---- runs, with and without cleanup --------------------------------------------------------

  function Run(attempts: seq<Attempt>): Limiter {
    if attempts == [] then Limiter(map[], None)
    else
      var a := attempts[|attempts| - 1];
      var l := Tidied(Run(attempts[..|attempts| - 1]), a.now);
      l.(entries := Evaluated(l.entries, a))
  }

  // The decision on one more attempt.
  // A valid attempt is authorized even during a lock, and no other is.
  function Decide(attempts: seq<Attempt>, a: Attempt): (d: Decision)
    ensures d.authorized <==> a.valid
  {
    Verdict(Tidied(Run(attempts), a.now).entries, a)
  }

  function Lazy(attempts: seq<Attempt>): Entries {
    if attempts == [] then map[]
    else Evaluated(Lazy(attempts[..|attempts| - 1]), attempts[|attempts| - 1])
  }

  predicate Ordered(attempts: seq<Attempt>) {
    forall i, j :: 0 <= i < j < |attempts| ==> attempts[i].now <= attempts[j].now
  }

  // ---- what an entry means from a moment on ----------------------------------------------------

  datatype Meaning = Clear | Failing(failures: seq<int>) | Locked(until: int)

  function Meant(e: Entry, now: int): Meaning {
    if e.lockedUntil.Some? then (if now < e.lockedUntil.value then Locked(e.lockedUntil.value) else Clear)
    else if Retained(e.failures, now - WINDOW) == [] then Clear
    else Failing(Retained(e.failures, now - WINDOW))
  }

  lemma {:induction false} RetainedTwice(failures: seq<int>, a: int, b: int)
    requires a <= b
    ensures Retained(Retained(failures, a), b) == Retained(failures, b)
  {
    if failures != [] {
      var n := |failures| - 1;
      RetainedTwice(failures[..n], a, b);
      if failures[n] > a {
        var r := Retained(failures[..n], a) + [failures[n]];
        assert r[..|r| - 1] == Retained(failures[..n], a);
      } else {
        assert Retained(failures, a) == Retained(failures[..n], a);
      }
    }
  }

  // What is left of a meaning at a later moment.
  function Aged(m: Meaning, later: int): Meaning {
    match m
    case Clear => Clear
    case Locked(until) => if later < until then m else Clear
    case Failing(failures) =>
      var left := Retained(failures, later - WINDOW);
      if left == [] then Clear else Failing(left)
  }

  lemma MeantAges(e: Entry, now: int, later: int)
    requires now <= later
    ensures Meant(e, later) == Aged(Meant(e, now), later)
  {
    RetainedTwice(e.failures, now - WINDOW, later - WINDOW);
    hide Retained;
    NothingRetained(later - WINDOW);
  }

  lemma NothingRetained(cutoff: int)
    ensures Retained([], cutoff) == []
  {
  }

  // Two entries that mean the same now mean the same later.
  lemma MeantLater(e: Entry, f: Entry, now: int, later: int)
    requires Meant(e, now) == Meant(f, now) && now <= later
    ensures Meant(e, later) == Meant(f, later)
  {
    hide Meant, Aged;
    MeantAges(e, now, later);
    MeantAges(f, now, later);
  }

  lemma SweptMeansTheSame(e: Entry, now: int)
    ensures Meant(if Swept(e, now).Some? then Swept(e, now).value else NO_ENTRY, now) == Meant(e, now)
  {
    RetainedTwice(e.failures, now - WINDOW, now - WINDOW);
  }

  // What an attempt does depends on the meaning only.
  lemma SameMeaningSameStep(e: Entry, f: Entry, now: int)
    requires Meant(e, now) == Meant(f, now)
    ensures Judge(e, now) == Judge(f, now)
    ensures Meant(Failed(e, now), now) == Meant(Failed(f, now), now)
  {
  }

  predicate Alike(a: Entries, b: Entries, now: int, peer: string) {
    Meant(Of(a, peer), now) == Meant(Of(b, peer), now)
  }

  lemma CleanedAlike(entries: Entries, now: int, peer: string)
    ensures Alike(Cleaned(entries, now), entries, now, peer)
  {
    if peer in entries {
      SweptMeansTheSame(entries[peer], now);
    }
  }

  lemma EvaluatedAlike(a: Entries, b: Entries, x: Attempt, peer: string)
    requires Alike(a, b, x.now, peer) && Alike(a, b, x.now, x.peer)
    ensures Alike(Evaluated(a, x), Evaluated(b, x), x.now, peer)
    ensures Verdict(a, x) == Verdict(b, x)
  {
    SameMeaningSameStep(Of(a, x.peer), Of(b, x.peer), x.now);
  }

  lemma TidiedAlike(l: Limiter, b: Entries, before: int, now: int, peer: string)
    requires Alike(l.entries, b, before, peer) && before <= now
    ensures Alike(Tidied(l, now).entries, b, now, peer)
  {
    MeantLater(Of(l.entries, peer), Of(b, peer), before, now);
    CleanedAlike(l.entries, now, peer);
  }

  lemma {:induction false} RunsAlike(attempts: seq<Attempt>, now: int, peer: string)
    requires Ordered(attempts) && (attempts != [] ==> attempts[|attempts| - 1].now <= now)
    ensures Alike(Run(attempts).entries, Lazy(attempts), now, peer)
  {
    if attempts != [] {
      var n := |attempts| - 1;
      var a := attempts[n];
      var l := Run(attempts[..n]);
      RunsAlike(attempts[..n], a.now, peer);
      RunsAlike(attempts[..n], a.now, a.peer);
      TidiedAlike(l, Lazy(attempts[..n]), a.now, a.now, peer);
      TidiedAlike(l, Lazy(attempts[..n]), a.now, a.now, a.peer);
      EvaluatedAlike(Tidied(l, a.now).entries, Lazy(attempts[..n]), a, peer);
      MeantLater(Of(Run(attempts).entries, peer), Of(Lazy(attempts), peer), a.now, now);
    }
  }

  // Cleanup cannot be observed: every decision is the one a limiter that never cleans up makes.
  lemma CleanupIsUnobservable(attempts: seq<Attempt>, a: Attempt)
    requires Ordered(attempts + [a])
    ensures Decide(attempts, a) == Verdict(Lazy(attempts), a)
  {
    assert forall i :: 0 <= i < |attempts| ==> (attempts + [a])[i] == attempts[i];
    assert (attempts + [a])[|attempts|] == a;
    RunsAlike(attempts, a.now, a.peer);
    TidiedAlike(Run(attempts), Lazy(attempts), a.now, a.now, a.peer);
    EvaluatedAlike(Tidied(Run(attempts), a.now).entries, Lazy(attempts), a, a.peer);
  }

  // ---- how many failures are evaluated -----------------------------------------------------------

  // An unlocked entry holds at most four failures, a locked one none.
  predicate Bounded(e: Entry) {
    if e.lockedUntil.Some? then e.failures == [] else |e.failures| < LIMIT
  }

  lemma {:induction false} RetainedShrinks(failures: seq<int>, cutoff: int)
    ensures |Retained(failures, cutoff)| <= |failures|
  {
    if failures != [] {
      RetainedShrinks(failures[..|failures| - 1], cutoff);
    }
  }

  lemma {:induction false} EntriesBounded(attempts: seq<Attempt>, peer: string)
    ensures Bounded(Of(Run(attempts).entries, peer)) && Bounded(Of(Lazy(attempts), peer))
  {
    if attempts != [] {
      var n := |attempts| - 1;
      EntriesBounded(attempts[..n], peer);
      var e, f := Of(Run(attempts[..n]).entries, peer), Of(Lazy(attempts[..n]), peer);
      RetainedShrinks(e.failures, attempts[n].now - WINDOW);
      RetainedShrinks(f.failures, attempts[n].now - WINDOW);
      BoundedStep(Run(attempts[..n]).entries, attempts[n], peer);
      BoundedStep(Tidied(Run(attempts[..n]), attempts[n].now).entries, attempts[n], peer);
      BoundedStep(Lazy(attempts[..n]), attempts[n], peer);
    }
  }

  lemma BoundedStep(entries: Entries, a: Attempt, peer: string)
    ensures Bounded(Of(entries, peer)) ==> Bounded(Of(Cleaned(entries, a.now), peer))
    ensures Bounded(Of(entries, peer)) ==> Bounded(Of(Evaluated(entries, a), peer))
  {
    RetainedShrinks(Of(entries, peer).failures, a.now - WINDOW);
  }

  // A failure that was evaluated while the peer was not locked.
  predicate Unlocked(a: Attempt, d: Decision) {
    !a.valid && (d.newlyLocked || d.retryAfter == 0)
  }

  // Failures of the peer at or after a moment, since its last valid login, that were evaluated while
  // it was not locked.
  function Counted(attempts: seq<Attempt>, peer: string, from: int): nat {
    if attempts == [] then 0
    else
      var n := |attempts| - 1;
      NextCount(Counted(attempts[..n], peer, from), peer, from, attempts[n], Decide(attempts[..n], attempts[n]))
  }

  function CountFrom(failures: seq<int>, from: int): (c: nat)
    ensures c <= |failures|
  {
    if failures == [] then 0
    else CountFrom(failures[..|failures| - 1], from) + if failures[|failures| - 1] >= from then 1 else 0
  }

  lemma {:induction false} CountRetained(failures: seq<int>, from: int, cutoff: int)
    requires cutoff < from
    ensures CountFrom(Retained(failures, cutoff), from) == CountFrom(failures, from)
  {
    if failures != [] {
      var n := |failures| - 1;
      CountRetained(failures[..n], from, cutoff);
      if failures[n] > cutoff {
        var r := Retained(failures[..n], cutoff) + [failures[n]];
        assert r[..|r| - 1] == Retained(failures[..n], cutoff);
      } else {
        assert Retained(failures, cutoff) == Retained(failures[..n], cutoff);
      }
    }
  }

  // While a span of one window from `from` lasts: every such failure in it is among the recorded failures,
  // or the peer is locked for the rest of the span.
  predicate Tallied(e: Entry, count: nat, from: int) {
    if e.lockedUntil.Some? then count <= LIMIT && (count > 0 ==> from + WINDOW <= e.lockedUntil.value)
    else count <= CountFrom(e.failures, from)
  }

  lemma FailureTallied(e: Entry, count: nat, from: int, now: int)
    requires Tallied(e, count, from) && Bounded(e) && now < from + WINDOW
    requires count > 0 ==> from <= now
    ensures Tallied(Failed(e, now),
                    count + if from <= now && Unlocked(Attempt("", false, now), Judge(e, now)) then 1 else 0, from)
  {
    RetainedShrinks(e.failures, now - WINDOW);
    CountRetained(e.failures, from, now - WINDOW);
    var next := Failures(e, now) + [now];
    assert next[..|next| - 1] == Failures(e, now);
  }

  // The count after one more attempt.
  function NextCount(before: nat, peer: string, from: int, a: Attempt, d: Decision): nat {
    if a.peer != peer then before
    else if a.valid then 0
    else before + if from <= a.now && Unlocked(a, d) then 1 else 0
  }

  lemma StepTallied(entries: Entries, a: Attempt, peer: string, count: nat, from: int)
    requires Tallied(Of(entries, peer), count, from) && Bounded(Of(entries, peer)) && a.now < from + WINDOW
    requires count > 0 ==> from <= a.now
    ensures var next := NextCount(count, peer, from, a, Verdict(entries, a));
            Tallied(Of(Evaluated(entries, a), peer), next, from) && (next > 0 ==> from <= a.now)
  {
    if a.peer == peer && !a.valid {
      FailureTallied(Of(entries, peer), count, from, a.now);
    }
  }

  lemma {:induction false} RunTallied(attempts: seq<Attempt>, peer: string, from: int)
    requires Ordered(attempts) && (attempts != [] ==> attempts[|attempts| - 1].now < from + WINDOW)
    ensures Tallied(Of(Lazy(attempts), peer), Counted(attempts, peer, from), from)
    ensures Counted(attempts, peer, from) > 0 ==> from <= attempts[|attempts| - 1].now
  {
    if attempts != [] {
      hide Tallied, Verdict, Bounded, Decide, Run, Evaluated;
      var n := |attempts| - 1;
      var a := attempts[n];
      RunTallied(attempts[..n], peer, from);
      assert attempts[..n] + [a] == attempts;
      CleanupIsUnobservable(attempts[..n], a);
      EntriesBounded(attempts[..n], peer);
      StepTallied(Lazy(attempts[..n]), a, peer, Counted(attempts[..n], peer, from), from);
    }
  }

  // Between valid logins a peer has at most five failures evaluated while not locked in any half-open
  // half hour.
  lemma AtMostFiveFailures(attempts: seq<Attempt>, peer: string, from: int)
    requires Ordered(attempts) && (attempts != [] ==> attempts[|attempts| - 1].now < from + WINDOW)
    ensures Counted(attempts, peer, from) <= LIMIT
  {
    RunTallied(attempts, peer, from);
    EntriesBounded(attempts, peer);
  }

  // ---- which failure locks -----------------------------------------------------------------

  // The peer's failures later than the cutoff that were answered without a lock, since its last valid
  // login and its last lock.
  function Recent(attempts: seq<Attempt>, peer: string, cutoff: int): nat {
    if attempts == [] then 0
    else
      var n := |attempts| - 1;
      var a, d := attempts[n], Decide(attempts[..n], attempts[n]);
      if a.peer != peer || (!a.valid && !d.newlyLocked && d.retryAfter != 0) then Recent(attempts[..n], peer, cutoff)
      else if a.valid || d.newlyLocked then 0
      else Recent(attempts[..n], peer, cutoff) + if a.now > cutoff then 1 else 0
  }

  // When the peer's last lock ends, unless a valid login or a failure answered without a lock came later.
  function LockEnd(attempts: seq<Attempt>, peer: string): Option<int> {
    if attempts == [] then None
    else
      var n := |attempts| - 1;
      var a, d := attempts[n], Decide(attempts[..n], attempts[n]);
      if a.peer != peer || (!a.valid && !d.newlyLocked && d.retryAfter != 0) then LockEnd(attempts[..n], peer)
      else if a.valid || !d.newlyLocked then None
      else Some(a.now + 1_800_000)
  }

  // The entry holds what the answers so far say.
  ghost predicate Reflects(e: Entry, attempts: seq<Attempt>, peer: string, cutoff: int) {
    e.lockedUntil == LockEnd(attempts, peer) && |Retained(e.failures, cutoff)| == Recent(attempts, peer, cutoff)
  }

  lemma RetainedNext(failures: seq<int>, now: int, cutoff: int)
    requires now - WINDOW <= cutoff
    ensures |Retained(Retained(failures, now - WINDOW) + [now], cutoff)| ==
            |Retained(failures, cutoff)| + if now > cutoff then 1 else 0
  {
    var next := Retained(failures, now - WINDOW) + [now];
    assert next[..|next| - 1] == Retained(failures, now - WINDOW);
    RetainedTwice(failures, now - WINDOW, cutoff);
  }

  // What a failed attempt of the peer makes of its entry.
  lemma FailureReflected(e: Entry, now: int, cutoff: int)
    requires Bounded(e) && now - WINDOW <= cutoff
    ensures var d, next := Judge(e, now), Failed(e, now);
            if d.newlyLocked then next.lockedUntil == Some(now + 1_800_000) && Retained(next.failures, cutoff) == []
            else if d.retryAfter != 0 then next == e
            else
              && next.lockedUntil.None?
              && |Retained(next.failures, cutoff)| == |Retained(e.failures, cutoff)| + if now > cutoff then 1 else 0
  {
    NothingRetained(cutoff);
    RetainedNext(e.failures, now, cutoff);
    RetainedNext([], now, cutoff);
    NothingRetained(now - WINDOW);
    hide Retained;
  }

  lemma {:induction false} RunReflects(attempts: seq<Attempt>, peer: string, cutoff: int)
    requires Ordered(attempts) && (attempts != [] ==> attempts[|attempts| - 1].now - WINDOW <= cutoff)
    ensures Reflects(Of(Lazy(attempts), peer), attempts, peer, cutoff)
  {
    NothingRetained(cutoff);
    if attempts != [] {
      hide Verdict, Bounded, Decide, Run, Failed, Judge, Retained;
      var n := |attempts| - 1;
      var a := attempts[n];
      assert attempts[..n] + [a] == attempts;
      RunReflects(attempts[..n], peer, cutoff);
      CleanupIsUnobservable(attempts[..n], a);
      VerdictMeans(Lazy(attempts[..n]), a);
      EntriesBounded(attempts[..n], peer);
      FailureReflected(Of(Lazy(attempts[..n]), peer), a.now, cutoff);
    }
  }

  lemma VerdictMeans(entries: Entries, a: Attempt)
    ensures Verdict(entries, a) == if a.valid then Decision(true, 0, false) else Judge(Of(entries, a.peer), a.now)
  {
  }

  lemma JudgedByCount(e: Entry, now: int)
    requires Bounded(e)
    ensures var d := Judge(e, now);
            if e.lockedUntil.Some? && now < e.lockedUntil.value then d == Decision(false, e.lockedUntil.value - now, false)
            else
              && (d.newlyLocked <==> |Retained(e.failures, now - 1_800_000)| + 1 == 5)
              && d.retryAfter == (if d.newlyLocked then 1_800_000 else 0) && !d.authorized
  {
    RetainedShrinks(e.failures, now - WINDOW);
    NothingRetained(now - WINDOW);
    hide Retained;
  }

  // A failure newly locks exactly when it is the fifth of the last half hour, and only a failure during a
  // lock is told to wait for its end.
  lemma FifthFailureLocks(attempts: seq<Attempt>, a: Attempt)
    requires Ordered(attempts + [a])
    ensures var d, until := Decide(attempts, a), LockEnd(attempts, a.peer);
            if a.valid then d == Decision(true, 0, false)
            else if until.Some? && a.now < until.value then d == Decision(false, until.value - a.now, false)
            else
              && (d.newlyLocked <==> Recent(attempts, a.peer, a.now - 1_800_000) + 1 == 5)
              && d.retryAfter == (if d.newlyLocked then 1_800_000 else 0) && !d.authorized
  {
    hide Decide, Run, Retained, Recent, LockEnd, Lazy, Judge, Verdict, Bounded, Of;
    assert forall i :: 0 <= i < |attempts| ==> (attempts + [a])[i] == attempts[i];
    assert (attempts + [a])[|attempts|] == a;
    CleanupIsUnobservable(attempts, a);
    VerdictMeans(Lazy(attempts), a);
    RunReflects(attempts, a.peer, a.now - WINDOW);
    EntriesBounded(attempts, a.peer);
    JudgedByCount(Of(Lazy(attempts), a.peer), a.now);
  }

  // ---- what cleanup leaves ----------------------------------------------------------------

  // The failures later than the cutoff, each as often as before.
  lemma {:induction false} RetainedMeans(failures: seq<int>, cutoff: int, x: int)
    ensures multiset(Retained(failures, cutoff))[x] == if x > cutoff then multiset(failures)[x] else 0
  {
    if failures != [] {
      var n := |failures| - 1;
      RetainedMeans(failures[..n], cutoff, x);
      assert failures == failures[..n] + [failures[n]];
    }
  }

  // A lock stays until it ends, and failures stay for half an hour.
  ghost predicate EntryCleaned(e: Entry, now: int, left: Option<Entry>) {
    if e.lockedUntil.Some? then left == if now < e.lockedUntil.value then Some(e) else None
    else
      && (left.Some? <==> exists i :: 0 <= i < |e.failures| && e.failures[i] > now - 1_800_000)
      && (left.Some? ==>
            && left.value.lockedUntil.None?
            && forall x :: multiset(left.value.failures)[x] == if x > now - 1_800_000 then multiset(e.failures)[x] else 0)
  }

  // Cleanup runs once a minute; in between it does nothing.
  ghost predicate CleanedTo(l: Limiter, now: int, after: Limiter) {
    if l.lastCleanup.Some? && now < l.lastCleanup.value + 60_000 then after == l
    else
      && after.lastCleanup == Some(now) && after.entries.Keys <= l.entries.Keys
      && forall p :: p in l.entries ==>
           EntryCleaned(l.entries[p], now, if p in after.entries then Some(after.entries[p]) else None)
  }

  lemma SomeRetained(failures: seq<int>, cutoff: int)
    ensures Retained(failures, cutoff) != [] <==> exists i :: 0 <= i < |failures| && failures[i] > cutoff
  {
    var left := Retained(failures, cutoff);
    hide Retained;
    if left != [] {
      RetainedMeans(failures, cutoff, left[0]);
      assert left[0] in multiset(left);
      assert left[0] in failures;
    }
    if i :| 0 <= i < |failures| && failures[i] > cutoff {
      RetainedMeans(failures, cutoff, failures[i]);
      assert failures[i] in multiset(failures);
    }
  }

  lemma SweptMeans(e: Entry, now: int)
    ensures EntryCleaned(e, now, Swept(e, now))
  {
    hide Retained;
    var left := Retained(e.failures, now - WINDOW);
    forall x ensures multiset(left)[x] == if x > now - WINDOW then multiset(e.failures)[x] else 0 {
      RetainedMeans(e.failures, now - WINDOW, x);
    }
    SomeRetained(e.failures, now - WINDOW);
  }

  lemma TidiedMeans(l: Limiter, now: int)
    ensures CleanedTo(l, now, Tidied(l, now))
  {
    hide Swept, EntryCleaned;
    forall p | p in l.entries ensures EntryCleaned(l.entries[p], now, Swept(l.entries[p], now)) {
      SweptMeans(l.entries[p], now);
    }
  }

  // ---- the limiter as it is kept -------------------------------------------------------------

  // Keeps the recent failures, in order.
  method Retain(failures: seq<int>, cutoff: int) returns (retained: seq<int>)
    ensures retained == Retained(failures, cutoff)
  {
    retained := [];
    for i := 0 to |failures|
      invariant retained == Retained(failures[..i], cutoff)
    {
      assert failures[..i + 1][..i] == failures[..i];
      if failures[i] > cutoff {
        retained := retained + [failures[i]];
      }
    }
    assert failures[..|failures|] == failures;
  }

  class FailureLimiter {
    var entries: Entries
    var lastCleanup: Option<int>

    function Value(): Limiter
      reads this
    {
      Limiter(entries, lastCleanup)
    }

    constructor ()
      ensures Value() == Run([])
    {
      entries, lastCleanup := map[], None;
    }

    method CleanUp(now: int)
      modifies this
      ensures Value() == Tidied(old(Value()), now)
      ensures CleanedTo(old(Value()), now, Value())
    {
      hide CleanedTo;
      TidiedMeans(Value(), now);
      if lastCleanup.Some? && now < lastCleanup.value + CLEANUP_INTERVAL {
        return;
      }
      lastCleanup := Some(now);
      var peers := entries.Keys;
      ghost var done: set<string> := {};
      ghost var before := entries;
      while peers != {}
        invariant done + peers == before.Keys && done !! peers
        invariant lastCleanup == Some(now)
        invariant forall p :: p in peers ==> p in entries && entries[p] == before[p]
        invariant forall p :: p in done ==> (p in entries <==> Swept(before[p], now).Some?)
        invariant forall p :: p in done && p in entries ==> entries[p] == Swept(before[p], now).value
        invariant entries.Keys <= before.Keys
        decreases peers
      {
        var peer :| peer in peers;
        peers, done := peers - {peer}, done + {peer};
        var entry := entries[peer];
        if entry.lockedUntil.Some? {
          if now >= entry.lockedUntil.value {
            entries := entries - {peer};
          }
        } else {
          var recent := Retain(entry.failures, now - WINDOW);
          if recent == [] {
            entries := entries - {peer};
          } else {
            entries := entries[peer := entry.(failures := recent)];
          }
        }
      }
      assert entries == Cleaned(before, now);
    }

    method Evaluate(peer: string, valid: bool, now: int) returns (d: Decision)
      modifies this
      ensures Value() == Tidied(old(Value()), now).(entries := Evaluated(Tidied(old(Value()), now).entries, Attempt(peer, valid, now)))
      ensures d == Verdict(Tidied(old(Value()), now).entries, Attempt(peer, valid, now))
    {
      CleanUp(now);
      if valid {
        entries := entries - {peer};
        return Decision(true, 0, false);
      }
      var entry := if peer in entries then entries[peer] else NO_ENTRY;
      if entry.lockedUntil.Some? && now < entry.lockedUntil.value {
        assert entries[peer := entry] == entries;
        return Decision(false, entry.lockedUntil.value - now, false);
      }
      if entry.lockedUntil.Some? {
        entries := entries - {peer};
        entry := NO_ENTRY;
      }
      var recent := Retain(entry.failures, now - WINDOW);
      recent := recent + [now];
      if |recent| >= LIMIT {
        entries := entries[peer := Entry([], Some(now + LOCK))];
        return Decision(false, LOCK, true);
      }
      entries := entries[peer := Entry(recent, None)];
      return Decision(false, 0, false);
    }
  }
}
