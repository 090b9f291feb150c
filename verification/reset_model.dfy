/**
  Reset-credit operations: at most one attempt to redeem a credential's reset credit may be open,
  and what an attempt came to is remembered under its idempotency key.
*/
module ResetModel {
  import opened Wrappers
  import opened TextOrder

  // Milliseconds after which a prepared operation counts as abandoned.
  const CONTROL_TIMEOUT: int := 30_000

  datatype State = Prepared | Succeeded | Rejected | OutcomeUnknown

  datatype Operation = Operation(
    digest: string, group: nat, credential: nat, redeem: string, state: State,
    result: string, code: string, createdAt: int, updatedAt: int, completedAt: Option<int>)

  type Operations = map<string, Operation>

  datatype Fault = KeyReused | Unresolved | Stored(code: string)

  // ---- the database's order on operations ------------------------------------------------

  // Ordered by time of the last write, then by key.
  predicate Earlier(ops: Operations, a: string, b: string)
    requires a in ops && b in ops
  {
    ops[a].updatedAt < ops[b].updatedAt || (ops[a].updatedAt == ops[b].updatedAt && Below(a, b))
  }

  lemma EarlierTransitive(ops: Operations, a: string, b: string, c: string)
    requires a in ops && b in ops && c in ops && Earlier(ops, a, b) && Earlier(ops, b, c)
    ensures Earlier(ops, a, c)
  {
    if ops[a].updatedAt == ops[b].updatedAt == ops[c].updatedAt {
      BelowTransitive(a, b, c);
    }
  }

  // ---- decisions -------------------------------------------------------------------------

  predicate Open(s: State) {
    s == Prepared || s == OutcomeUnknown
  }

  // Rejected operations do not count when a new key asks to begin.
  predicate Counts(op: Operation, credential: nat) {
    op.credential == credential && op.state != Rejected
  }

  predicate Latest(ops: Operations, credential: nat, key: string) {
    && key in ops && Counts(ops[key], credential)
    && forall k :: k in ops && Counts(ops[k], credential) && k != key ==> Earlier(ops, k, key)
  }

  // A new key may begin when the credential's latest operation succeeded, or it has none.
  ghost predicate AllowsNewKey(ops: Operations, credential: nat) {
    forall key :: Latest(ops, credential, key) ==> ops[key].state == Succeeded
  }

  predicate CanRetry(op: Operation, now: int) {
    if op.state == OutcomeUnknown then true
    else if op.state != Prepared || now < 0 then false
    else now - CONTROL_TIMEOUT >= 0 && op.updatedAt <= now - CONTROL_TIMEOUT
  }

  predicate SameRequest(op: Operation, group: nat, credential: nat, digest: string) {
    op.digest == digest && op.group == group && op.credential == credential
  }

  function Replay(op: Operation): Result<Operation, Fault> {
    match op.state
    case Succeeded => Ok(op)
    case Rejected => Err(Stored(op.code))
    case _ => Err(Unresolved)
  }

  function Retried(op: Operation, now: int): Operation {
    op.(state := Prepared, result := "", code := "", updatedAt := now, completedAt := None)
  }

  function Fresh(group: nat, credential: nat, digest: string, key: string, now: int): Operation {
    Operation(digest, group, credential, key, Prepared, "", "", now, now, None)
  }

  // The request is sent upstream.
  ghost predicate Dispatches(ops: Operations, group: nat, credential: nat, digest: string, key: string, now: int) {
    if key in ops then SameRequest(ops[key], group, credential, digest) && CanRetry(ops[key], now)
    else AllowsNewKey(ops, credential)
  }

  ghost function Begun(ops: Operations, group: nat, credential: nat, digest: string, key: string, now: int): Operations {
    if !Dispatches(ops, group, credential, digest, key, now) then ops
    else if key in ops then ops[key := Retried(ops[key], now)]
    else ops[key := Fresh(group, credential, digest, key, now)]
  }

  predicate Finishes(ops: Operations, key: string) {
    key in ops && ops[key].state == Prepared
  }

  function Finished(ops: Operations, key: string, state: State, result: string, code: string, now: int): Operations {
    if Finishes(ops, key) then
      ops[key := ops[key].(state := state, result := result, code := code, updatedAt := now, completedAt := Some(now))]
    else ops
  }

  // ---- at most one open operation ----------------------------------------------------------

  predicate IsOpen(ops: Operations, credential: nat, key: string) {
    key in ops && ops[key].credential == credential && Open(ops[key].state)
  }

  ghost predicate AtMostOneOpen(ops: Operations, credential: nat) {
    forall a, b :: IsOpen(ops, credential, a) && IsOpen(ops, credential, b) ==> a == b
  }

  // A success written after the open operation in the database's order hides it.
  ghost predicate Hidden(ops: Operations, credential: nat, key: string)
    requires key in ops
  {
    exists k :: k in ops && ops[k].credential == credential && ops[k].state == Succeeded && Earlier(ops, key, k)
  }

  // No key of the set comes after m.
  predicate Tops(ops: Operations, keys: set<string>, m: string) {
    m in keys && m in ops && forall k :: k in keys && k in ops && k != m ==> Earlier(ops, k, m)
  }

  lemma TopsWith(ops: Operations, keys: set<string>, m: string, x: string)
    requires Tops(ops, keys, m) && x in ops && x !in keys
    ensures Tops(ops, keys + {x}, if Earlier(ops, m, x) then x else m)
  {
    BelowTotal(x, m);
    if Earlier(ops, m, x) {
      forall k | k in keys && k in ops && k != m ensures Earlier(ops, k, x) {
        EarlierTransitive(ops, k, m, x);
      }
    }
  }

  lemma {:induction false} TopExists(ops: Operations, keys: set<string>)
    requires keys != {} && keys <= ops.Keys
    ensures exists m :: Tops(ops, keys, m)
    decreases keys
  {
    var x :| x in keys;
    var rest := keys - {x};
    assert keys == rest + {x};
    if rest == {} {
      assert Tops(ops, keys, x);
    } else {
      TopExists(ops, rest);
      var m :| Tops(ops, rest, m);
      TopsWith(ops, rest, m, x);
    }
  }

  // The query finds a latest operation whenever the credential has one that counts.
  lemma SomeLatest(ops: Operations, credential: nat, key: string)
    requires key in ops && Counts(ops[key], credential)
    ensures exists m :: Latest(ops, credential, m) && (m == key || Earlier(ops, key, m))
  {
    var keys := set k | k in ops && Counts(ops[k], credential);
    assert key in keys;
    TopExists(ops, keys);
    var m :| Tops(ops, keys, m);
    assert Latest(ops, credential, m);
  }

  // With one operation open, a second may begin exactly when a success hides the open one.
  lemma SecondOpensExactly(ops: Operations, credential: nat, key: string)
    requires AtMostOneOpen(ops, credential) && IsOpen(ops, credential, key)
    ensures AllowsNewKey(ops, credential) <==> Hidden(ops, credential, key)
  {
    SomeLatest(ops, credential, key);
    var m :| Latest(ops, credential, m) && (m == key || Earlier(ops, key, m));
    if m == key {
      forall k | k in ops && ops[k].credential == credential && ops[k].state == Succeeded
        ensures !Earlier(ops, key, k)
      {
        BelowTotal(k, key);
      }
    } else {
      assert !IsOpen(ops, credential, m);
      forall k | Latest(ops, credential, k) ensures ops[k].state == Succeeded {
        if k != m {
          BelowTotal(k, m);
        }
      }
    }
  }

  // Without an open operation a new key is always admitted.
  lemma NoneOpenAdmits(ops: Operations, credential: nat)
    requires forall key :: !IsOpen(ops, credential, key)
    ensures AllowsNewKey(ops, credential)
  {
    forall key | Latest(ops, credential, key) ensures ops[key].state == Succeeded {
      assert !IsOpen(ops, credential, key);
    }
  }

  // Beginning under a new key breaks the rule exactly when an open operation is hidden.
  lemma NewKeyKeepsOneOpen(ops: Operations, group: nat, credential: nat, digest: string, key: string, now: int)
    requires AtMostOneOpen(ops, credential) && key !in ops
    ensures AtMostOneOpen(Begun(ops, group, credential, digest, key, now), credential) <==>
            forall k :: IsOpen(ops, credential, k) ==> !Hidden(ops, credential, k)
  {
    var next := Begun(ops, group, credential, digest, key, now);
    if k :| IsOpen(ops, credential, k) {
      SecondOpensExactly(ops, credential, k);
      if AllowsNewKey(ops, credential) {
        assert IsOpen(next, credential, key) && IsOpen(next, credential, k);
      }
    } else {
      forall a | IsOpen(next, credential, a) ensures a == key {
        assert a != key ==> IsOpen(ops, credential, a);
      }
    }
  }
}
