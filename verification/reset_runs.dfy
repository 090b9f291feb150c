/**
  Reset-credit operations over every run of begins and finishes, and the ledger that performs them.
*/
module ResetRuns {
  import opened Wrappers
  import opened ResetModel
  import opened TextOrder

  datatype Event =
    | Begin(group: nat, credential: nat, digest: string, key: string, now: int)
    | Finish(key: string, state: State, result: string, code: string, now: int)

  ghost predicate Sends(ops: Operations, e: Event) {
    e.Begin? && Dispatches(ops, e.group, e.credential, e.digest, e.key, e.now)
  }

  // The event writes the row of its key.
  ghost predicate Writes(ops: Operations, e: Event) {
    Sends(ops, e) || (e.Finish? && Finishes(ops, e.key))
  }

  ghost function Step(ops: Operations, e: Event): Operations {
    match e
    case Begin(group, credential, digest, key, now) => Begun(ops, group, credential, digest, key, now)
    case Finish(key, state, result, code, now) => Finished(ops, key, state, result, code, now)
  }

  ghost function Run(es: seq<Event>): Operations {
    if es == [] then map[] else Step(Run(es[..|es| - 1]), es[|es| - 1])
  }

  // Whoever finishes an operation reports an outcome.
  ghost predicate Reported(es: seq<Event>) {
    forall i :: 0 <= i < |es| && es[i].Finish? ==> es[i].state != Prepared
  }

  function CredentialOf(ops: Operations, e: Event): nat {
    if e.Begin? then e.credential else if e.key in ops then ops[e.key].credential else 0
  }

  // A write is stamped later than every earlier write to the credential's operations.
  ghost predicate Timely(ops: Operations, e: Event) {
    Writes(ops, e) ==>
      forall k :: k in ops && ops[k].credential == CredentialOf(ops, e) ==> ops[k].updatedAt < e.now
  }

  ghost predicate TimelyRun(es: seq<Event>) {
    es == [] || (TimelyRun(es[..|es| - 1]) && Timely(Run(es[..|es| - 1]), es[|es| - 1]))
  }

  // ---- one open operation per credential -----------------------------------------------------

  // The open operation is newer than every success.
  ghost predicate OpenIsNewest(ops: Operations, credential: nat) {
    forall a, b :: IsOpen(ops, credential, a) && b in ops && ops[b].credential == credential && b != a ==>
                     ops[b].state == Rejected || (ops[b].state == Succeeded && ops[b].updatedAt < ops[a].updatedAt)
  }

  lemma NewestIsShown(ops: Operations, credential: nat, key: string)
    requires OpenIsNewest(ops, credential) && IsOpen(ops, credential, key)
    ensures AtMostOneOpen(ops, credential) && !Hidden(ops, credential, key)
  {
  }

  lemma StepNewest(ops: Operations, e: Event, credential: nat)
    requires OpenIsNewest(ops, credential) && Timely(ops, e) && (e.Finish? ==> e.state != Prepared)
    ensures OpenIsNewest(Step(ops, e), credential)
  {
    if e.Begin? && e.key !in ops && e.credential == credential && Sends(ops, e) {
      if k :| IsOpen(ops, credential, k) {
        NewestIsShown(ops, credential, k);
        SecondOpensExactly(ops, credential, k);
      }
    }
  }

  // With strictly later stamps, a credential never has two unresolved operations.
  lemma {:induction false} NeverTwoOpen(es: seq<Event>, credential: nat)
    requires Reported(es) && TimelyRun(es)
    ensures OpenIsNewest(Run(es), credential) && AtMostOneOpen(Run(es), credential)
  {
    if es != [] {
      NeverTwoOpen(es[..|es| - 1], credential);
      StepNewest(Run(es[..|es| - 1]), es[|es| - 1], credential);
    }
  }

  // A new key begins although an open operation of its credential is hidden behind a success.
  ghost predicate Overtakes(ops: Operations, e: Event, credential: nat) {
    && e.Begin? && e.credential == credential && e.key !in ops
    && exists k :: IsOpen(ops, credential, k) && Hidden(ops, credential, k)
  }

  // Of all events only that one leaves two operations open.
  lemma StepKeepsOneOpen(ops: Operations, e: Event, credential: nat)
    requires AtMostOneOpen(ops, credential)
    ensures AtMostOneOpen(Step(ops, e), credential) <==> !Overtakes(ops, e, credential)
  {
    if e.Begin? && e.credential == credential && e.key !in ops {
      NewKeyKeepsOneOpen(ops, e.group, credential, e.digest, e.key, e.now);
    } else {
      forall k | IsOpen(Step(ops, e), credential, k) ensures IsOpen(ops, credential, k) {
      }
    }
  }

  // At most one operation is open after each of the first n events.
  ghost predicate KeepsOneOpen(es: seq<Event>, credential: nat, n: nat)
    requires n <= |es|
  {
    forall i :: 0 <= i <= n ==> AtMostOneOpen(Run(es[..i]), credential)
  }

  ghost predicate NoneOvertakes(es: seq<Event>, credential: nat, n: nat)
    requires n <= |es|
  {
    forall i :: 0 <= i < n ==> !Overtakes(Run(es[..i]), es[i], credential)
  }

  lemma {:induction false} PrefixKeepsOneOpen(es: seq<Event>, credential: nat, n: nat)
    requires n <= |es|
    ensures KeepsOneOpen(es, credential, n) <==> NoneOvertakes(es, credential, n)
  {
    hide Run, Step, AtMostOneOpen, Overtakes;
    if n == 0 {
      assert es[..0] == [];
      StartsClosed(credential);
    } else {
      PrefixKeepsOneOpen(es, credential, n - 1);
      assert KeepsOneOpen(es, credential, n) <==>
             KeepsOneOpen(es, credential, n - 1) && AtMostOneOpen(Run(es[..n]), credential);
      RunNext(es, n - 1);
      if KeepsOneOpen(es, credential, n - 1) {
        StepKeepsOneOpen(Run(es[..n - 1]), es[n - 1], credential);
      }
    }
  }

  // The rule is kept throughout a run exactly when no new key overtakes a hidden open operation.
  lemma RunKeepsOneOpen(es: seq<Event>, credential: nat)
    ensures (forall i :: 0 <= i <= |es| ==> AtMostOneOpen(Run(es[..i]), credential)) <==>
            (forall i :: 0 <= i < |es| ==> !Overtakes(Run(es[..i]), es[i], credential))
  {
    hide Run, AtMostOneOpen, Overtakes;
    PrefixKeepsOneOpen(es, credential, |es|);
  }

  lemma StartsClosed(credential: nat)
    ensures AtMostOneOpen(Run([]), credential)
  {
  }

  // ---- two open operations after all ----------------------------------------------------------

  // An idempotency key that requests may carry: a lowercase UUID of version 4.
  predicate ValidKey(key: string) {
    && |key| == 36 && key[8] == '-' && key[13] == '-' && key[18] == '-' && key[23] == '-' && key[14] == '4'
    && key[19] in {'8', '9', 'a', 'b'}
    && forall i :: 0 <= i < 36 && i !in {8, 13, 18, 23} ==> '0' <= key[i] <= '9' || 'a' <= key[i] <= 'f'
  }

  // A success and a new key in the same millisecond, then one more key.
  function CloseCalls(a: string, b: string, c: string, credential: nat, at: int): seq<Event> {
    [Begin(1, credential, "digest", b, at - 1), Finish(b, Succeeded, "result", "", at),
     Begin(1, credential, "digest", a, at), Begin(1, credential, "digest", c, at + 1)]
  }

  // The success, and the operation that begins in the same millisecond.
  function SideBySide(a: string, b: string, credential: nat, at: int): Operations {
    map[b := Operation("digest", 1, credential, b, Succeeded, "result", "", at - 1, at, Some(at)),
        a := Fresh(1, credential, "digest", a, at)]
  }

  lemma FirstThree(a: string, b: string, c: string, credential: nat, at: int)
    requires a != b
    ensures Run(CloseCalls(a, b, c, credential, at)[..3]) == SideBySide(a, b, credential, at)
  {
    hide Run;
    var es := CloseCalls(a, b, c, credential, at);
    assert Run(es[..0]) == map[] by { RunNothing(es); }
    RunNext(es, 0);
    RunNext(es, 1);
    RunNext(es, 2);
    NoneOpenAdmits(map[], credential);
    assert Run(es[..1]) == map[b := Fresh(1, credential, "digest", b, at - 1)];
    NoneOpenAdmits(Run(es[..2]), credential);
  }

  // Whenever the key of the success comes later in the order of keys, two operations are open.
  lemma CloseCallsOpenTwo(a: string, b: string, c: string, credential: nat, at: int)
    requires Below(a, b) && a != c && b != c
    ensures var ops := Run(CloseCalls(a, b, c, credential, at));
            a != b && IsOpen(ops, credential, a) && IsOpen(ops, credential, c) && !AtMostOneOpen(ops, credential)
  {
    hide Run;
    BelowTotal(a, b);
    var es, one := CloseCalls(a, b, c, credential, at), SideBySide(a, b, credential, at);
    FirstThree(a, b, c, credential, at);
    RunNext(es, 3);
    assert es[..4] == es;
    assert Earlier(one, a, b) && Hidden(one, credential, a) && IsOpen(one, credential, a);
    SecondOpensExactly(one, credential, a);
    assert IsOpen(Run(es), credential, a) && IsOpen(Run(es), credential, c);
  }

  lemma RunNothing(es: seq<Event>)
    ensures Run(es[..0]) == map[]
  {
  }

  lemma RunNext(es: seq<Event>, n: nat)
    requires n < |es|
    ensures Run(es[..n + 1]) == Step(Run(es[..n]), es[n])
  {
    assert es[..n + 1][..n] == es[..n];
  }

  // One of the keys that requests may carry.
  function SampleKey(first: char): string {
    [first] + "0000000-0000-4000-8000-000000000000"
  }

  lemma SampleKeyIsValid(first: char)
    requires 'a' <= first <= 'f'
    ensures ValidKey(SampleKey(first))
  {
    var rest := "0000000-0000-4000-8000-000000000000";
    assert forall i :: 0 <= i < 35 && i !in {7, 12, 17, 22} ==> '0' <= rest[i] <= '9';
    assert forall i :: 1 <= i < 36 ==> SampleKey(first)[i] == rest[i - 1];
  }

  // With three keys that requests may carry, and a clock that does not go back.
  lemma EqualStampsOpenTwo()
    ensures var a, b, c := SampleKey('a'), SampleKey('b'), SampleKey('c');
            var es := CloseCalls(a, b, c, 7, 9);
            && ValidKey(a) && ValidKey(b) && ValidKey(c) && Reported(es)
            && (forall i, j :: 0 <= i < j < |es| ==> es[i].now <= es[j].now)
            && !AtMostOneOpen(Run(es), 7)
  {
    hide Run, ValidKey, SampleKey, AtMostOneOpen;
    SampleKeyIsValid('a');
    SampleKeyIsValid('b');
    SampleKeyIsValid('c');
    SampleKeysBelow('a', 'b');
    SampleKeysBelow('b', 'c');
    SampleKeysBelow('a', 'c');
    CloseCallsOpenTwo(SampleKey('a'), SampleKey('b'), SampleKey('c'), 7, 9);
  }

  lemma SampleKeysBelow(a: char, b: char)
    requires a < b
    ensures Below(SampleKey(a), SampleKey(b)) && SampleKey(a) != SampleKey(b)
  {
    assert SampleKey(a)[0] == a && SampleKey(b)[0] == b;
  }

  // ---- what an operation is never changes ----------------------------------------------------

  lemma StepKeepsIdentity(ops: Operations, e: Event, key: string)
    requires key in ops
    ensures key in Step(ops, e)
    ensures var was, now := ops[key], Step(ops, e)[key];
            && now.redeem == was.redeem && now.credential == was.credential && now.group == was.group
            && now.digest == was.digest && now.createdAt == was.createdAt
            && (was.state == Succeeded || was.state == Rejected ==> now == was)
  {
  }

  // Operations are never removed, and a resolved one is never written again.
  lemma {:induction false} ResolvedIsFinal(es: seq<Event>, i: nat, key: string)
    requires i <= |es| && key in Run(es[..i])
    ensures key in Run(es)
    ensures var was, now := Run(es[..i])[key], Run(es)[key];
            && now.redeem == was.redeem && now.credential == was.credential && now.group == was.group
            && now.digest == was.digest && now.createdAt == was.createdAt
            && (was.state == Succeeded || was.state == Rejected ==> now == was)
  {
    hide Step;
    if i < |es| {
      assert es[..|es| - 1][..i] == es[..i];
      ResolvedIsFinal(es[..|es| - 1], i, key);
      StepKeepsIdentity(Run(es[..|es| - 1]), es[|es| - 1], key);
    } else {
      assert es[..i] == es;
    }
  }

  // Every request sent for a key carries that key as its redeem identifier.
  lemma {:induction false} RedeemIsKey(es: seq<Event>, key: string)
    requires key in Run(es)
    ensures Run(es)[key].redeem == key
  {
    var n := |es| - 1;
    if key in Run(es[..n]) {
      RedeemIsKey(es[..n], key);
      StepKeepsIdentity(Run(es[..n]), es[n], key);
    }
  }

  // Once resolved, the operation is never sent again: the same request is answered from the row,
  // and any other request under its key is refused.
  lemma ResolvedIsReplayed(es: seq<Event>, i: nat, j: nat)
    requires i <= j < |es| && es[j].Begin? && es[j].key in Run(es[..i])
    requires Run(es[..i])[es[j].key].state == Succeeded || Run(es[..i])[es[j].key].state == Rejected
    ensures !Sends(Run(es[..j]), es[j]) && es[j].key in Run(es[..j])
    ensures Replay(Run(es[..j])[es[j].key]) == Replay(Run(es[..i])[es[j].key])
    ensures Replay(Run(es[..j])[es[j].key]) != Err(Unresolved)
  {
    assert es[..j][..i] == es[..i];
    ResolvedIsFinal(es[..j], i, es[j].key);
  }

  // ---- how often an unresolved operation is sent -----------------------------------------------

  lemma SentStamp(ops: Operations, e: Event)
    requires Sends(ops, e)
    ensures e.key in Step(ops, e)
    ensures Step(ops, e)[e.key].state == Prepared && Step(ops, e)[e.key].updatedAt == e.now
  {
  }

  // The k-th event writes the key's row.
  ghost predicate WritesAt(es: seq<Event>, k: nat, key: string)
    requires k < |es|
  {
    Writes(Run(es[..k]), es[k]) && es[k].key == key
  }

  lemma UnwrittenStep(ops: Operations, e: Event, key: string)
    requires key in ops && !(Writes(ops, e) && e.key == key)
    ensures key in Step(ops, e) && Step(ops, e)[key] == ops[key]
  {
  }

  lemma {:induction false} UnwrittenSince(es: seq<Event>, i: nat, key: string)
    requires i <= |es| && key in Run(es[..i])
    requires forall k :: i <= k < |es| ==> !WritesAt(es, k, key)
    ensures key in Run(es) && Run(es)[key] == Run(es[..i])[key]
  {
    hide Step, Writes;
    if i < |es| {
      var n := |es| - 1;
      var init := es[..n];
      forall k | i <= k < n ensures !WritesAt(init, k, key) {
        assert init[..k] == es[..k];
        assert !WritesAt(es, k, key);
      }
      assert init[..i] == es[..i];
      UnwrittenSince(init, i, key);
      assert !WritesAt(es, n, key);
      UnwrittenStep(Run(init), es[n], key);
    } else {
      assert es[..i] == es;
    }
  }

  // A prepared operation is sent again only half a minute after it was last sent.
  lemma ResendsAreSpaced(es: seq<Event>, i: nat, j: nat)
    requires i < j < |es| && es[i].Begin? && es[j].Begin? && es[i].key == es[j].key
    requires Sends(Run(es[..i]), es[i]) && Sends(Run(es[..j]), es[j])
    requires forall k :: i < k < j ==> !WritesAt(es, k, es[i].key)
    ensures es[i].now + CONTROL_TIMEOUT <= es[j].now
  {
    var init := es[..j];
    assert init[..i + 1][..i] == es[..i] && init[..i + 1] == es[..i + 1];
    SentStamp(Run(es[..i]), es[i]);
    assert Run(es[..i + 1]) == Step(Run(es[..i]), es[i]);
    forall k | i < k < j ensures !WritesAt(init, k, es[i].key) {
      assert init[..k] == es[..k];
      assert !WritesAt(es, k, es[i].key);
    }
    UnwrittenSince(init, i + 1, es[i].key);
  }

  // ---- exactly when a request is sent, and what is written -------------------------------------

  // In the order of the stamps, then of the keys.
  predicate After(ops: Operations, a: string, b: string)
    requires a in ops && b in ops
  {
    ops[a].updatedAt > ops[b].updatedAt || (ops[a].updatedAt == ops[b].updatedAt && Below(b, a))
  }

  // Every unresolved operation of the credential is followed by a success.
  ghost predicate Unopposed(ops: Operations, credential: nat) {
    forall k :: k in ops && ops[k].credential == credential && (ops[k].state == Prepared || ops[k].state == OutcomeUnknown) ==>
      exists done :: && done in ops && ops[done].credential == credential && ops[done].state == Succeeded
                     && After(ops, done, k)
  }

  lemma UnopposedMeans(ops: Operations, credential: nat)
    ensures AllowsNewKey(ops, credential) <==> Unopposed(ops, credential)
  {
    if AllowsNewKey(ops, credential) {
      forall k | k in ops && ops[k].credential == credential && (ops[k].state == Prepared || ops[k].state == OutcomeUnknown)
        ensures exists done :: && done in ops && ops[done].credential == credential && ops[done].state == Succeeded
                               && After(ops, done, k)
      {
        SomeLatest(ops, credential, k);
        var m :| Latest(ops, credential, m) && (m == k || Earlier(ops, k, m));
        assert After(ops, m, k);
      }
    }
    if Unopposed(ops, credential) {
      forall key | Latest(ops, credential, key) ensures ops[key].state == Succeeded {
        if ops[key].state != Succeeded {
          var done :| done in ops && ops[done].credential == credential && ops[done].state == Succeeded && After(ops, done, key);
          assert Earlier(ops, done, key);
          BelowTotal(done, key);
        }
      }
    }
  }

  // A request under a known key is sent again when its outcome is unknown, or half a minute after it was
  // prepared; under a new key when nothing of the credential is unresolved.
  ghost predicate SentNow(ops: Operations, group: nat, credential: nat, digest: string, key: string, now: int) {
    if key !in ops then Unopposed(ops, credential)
    else
      && ops[key].digest == digest && ops[key].group == group && ops[key].credential == credential
      && match ops[key].state
         case OutcomeUnknown => true
         case Prepared => now >= 30_000 && ops[key].updatedAt + 30_000 <= now
         case _ => false
  }

  // The row of an operation that is being sent.
  predicate SentRow(ops: Operations, group: nat, credential: nat, digest: string, key: string, now: int, row: Operation) {
    if key in ops then
      row == Operation(ops[key].digest, ops[key].group, ops[key].credential, ops[key].redeem, Prepared, "", "", ops[key].createdAt, now, None)
    else row == Operation(digest, group, credential, key, Prepared, "", "", now, now, None)
  }

  // The answer: the operation to send, the stored outcome of the same request, or why neither.
  ghost predicate Answers(ops: Operations, group: nat, credential: nat, digest: string, key: string, now: int,
                          r: Result<(Operation, bool), Fault>)
  {
    if SentNow(ops, group, credential, digest, key, now) then
      r.Ok? && !r.value.1 && SentRow(ops, group, credential, digest, key, now, r.value.0)
    else if key !in ops then r == Err(Unresolved)
    else if ops[key].digest != digest || ops[key].group != group || ops[key].credential != credential then r == Err(KeyReused)
    else match ops[key].state
      case Succeeded => r == Ok((ops[key], true))
      case Rejected => r == Err(Stored(ops[key].code))
      case _ => r == Err(Unresolved)
  }

  ghost predicate BeginMeans(ops: Operations, group: nat, credential: nat, digest: string, key: string, now: int, after: Operations) {
    if SentNow(ops, group, credential, digest, key, now) then
      key in after && after == ops[key := after[key]] && SentRow(ops, group, credential, digest, key, now, after[key])
    else after == ops
  }

  predicate FinishMeans(ops: Operations, key: string, state: State, result: string, code: string, now: int, after: Operations) {
    if key in ops && ops[key].state == Prepared then
      var op := ops[key];
      after == ops[key := Operation(op.digest, op.group, op.credential, op.redeem, state, result, code, op.createdAt, now, Some(now))]
    else after == ops
  }

  ghost predicate EventMeans(ops: Operations, e: Event, after: Operations) {
    match e
    case Begin(group, credential, digest, key, now) => BeginMeans(ops, group, credential, digest, key, now, after)
    case Finish(key, state, result, code, now) => FinishMeans(ops, key, state, result, code, now, after)
  }

  // Over every run: exactly when a request is sent, and every field of the row that is written.
  lemma EventsOverRuns(es: seq<Event>, e: Event)
    ensures EventMeans(Run(es), e, Run(es + [e]))
    ensures e.Begin? ==> (Sends(Run(es), e) <==> SentNow(Run(es), e.group, e.credential, e.digest, e.key, e.now))
  {
    assert (es + [e])[..|es|] == es;
    StepIs(Run(es), e);
  }

  lemma StepIs(ops: Operations, e: Event)
    ensures EventMeans(ops, e, Step(ops, e))
    ensures e.Begin? ==> (Sends(ops, e) <==> SentNow(ops, e.group, e.credential, e.digest, e.key, e.now))
  {
    hide AllowsNewKey, Unopposed;
    if e.Begin? {
      UnopposedMeans(ops, e.credential);
    }
  }

  // ---- the ledger ------------------------------------------------------------------------------

  class Ledger {
    var operations: Operations

    constructor ()
      ensures operations == map[]
    {
      operations := map[];
    }

    // The newest operation of the credential that is not rejected decides.
    method MayBegin(credential: nat) returns (allowed: bool)
      ensures allowed == AllowsNewKey(operations, credential)
    {
      var keys := set k | k in operations && Counts(operations[k], credential);
      assert forall k :: Latest(operations, credential, k) ==> k in keys;
      if keys == {} {
        return true;
      }
      var latest :| latest in keys;
      var rest, done := keys - {latest}, {latest};
      while rest != {}
        invariant keys == done + rest && done !! rest
        invariant Tops(operations, done, latest)
        decreases rest
      {
        var k :| k in rest;
        TopsWith(operations, done, latest, k);
        if Earlier(operations, latest, k) {
          latest := k;
        }
        rest, done := rest - {k}, done + {k};
      }
      assert Latest(operations, credential, latest);
      forall k | Latest(operations, credential, k) ensures k == latest {
        BelowTotal(k, latest);
      }
      return operations[latest].state == Succeeded;
    }

    // Starts, restarts or replays an operation. `Ok` with true is a replay, with false a request to send.
    method BeginOperation(group: nat, credential: nat, digest: string, key: string, now: int)
      returns (r: Result<(Operation, bool), Fault>)
      modifies this
      ensures operations == Step(old(operations), Begin(group, credential, digest, key, now))
      ensures r.Ok? && !r.value.1 <==> Sends(old(operations), Begin(group, credential, digest, key, now))
      ensures r.Ok? ==> key in operations && r.value.0 == operations[key]
      ensures BeginMeans(old(operations), group, credential, digest, key, now, operations)
      ensures Answers(old(operations), group, credential, digest, key, now, r)
    {
      hide AllowsNewKey, Unopposed;
      StepIs(operations, Begin(group, credential, digest, key, now));
      if key in operations {
        var existing := operations[key];
        if existing.digest != digest || existing.group != group || existing.credential != credential {
          return Err(KeyReused);
        }
        if CanRetry(existing, now) {
          var retried := existing.(state := Prepared, result := "", code := "", updatedAt := now, completedAt := None);
          operations := operations[key := retried];
          return Ok((retried, false));
        }
        match existing.state {
          case Succeeded => return Ok((existing, true));
          case Rejected => return Err(Stored(existing.code));
          case _ => return Err(Unresolved);
        }
      }
      var allowed := MayBegin(credential);
      if !allowed {
        return Err(Unresolved);
      }
      var operation := Operation(digest, group, credential, key, Prepared, "", "", now, now, None);
      operations := operations[key := operation];
      return Ok((operation, false));
    }

    method FinishOperation(key: string, state: State, result: string, code: string, now: int) returns (ok: bool)
      modifies this
      ensures operations == Step(old(operations), Finish(key, state, result, code, now))
      ensures ok <==> key in old(operations) && old(operations)[key].state == Prepared
      ensures FinishMeans(old(operations), key, state, result, code, now, operations)
    {
      if key !in operations || operations[key].state != Prepared {
        return false;
      }
      operations := operations[key := operations[key].(
        state := state, result := result, code := code, updatedAt := now, completedAt := Some(now))];
      return true;
    }
  }
}
