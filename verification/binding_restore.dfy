/**
  Restoring native resource ownership at startup from the checkpoint file, by way of a pending
  file and claims in the database, with a failure possible at every step.
*/
module BindingRestore {

  datatype Identity = Identity(access: nat, key: string, group: nat, credential: nat, generation: nat)

  datatype Binding = Binding(id: Identity, expiresAt: int)

  predicate IsResource(id: Identity) {
    "native/" <= id.key
  }

  // ---- merging ---------------------------------------------------------------------------

  predicate Usable(b: Binding, now: int) {
    IsResource(b.id) && b.expiresAt > now
  }

  // Each usable identity once, with its earliest usable deadline; nothing else.
  ghost predicate Merges(sources: seq<Binding>, now: int, result: seq<Binding>) {
    && (forall i, j :: 0 <= i < j < |result| ==> result[i].id != result[j].id)
    && (forall b :: b in result ==> b in sources && Usable(b, now))
    && (forall s :: s in sources && Usable(s, now) ==> Earliest(result, s))
  }

  ghost predicate Earliest(result: seq<Binding>, s: Binding) {
    exists b :: b in result && b.id == s.id && b.expiresAt <= s.expiresAt
  }

  method Merge(pending: seq<Binding>, restored: seq<Binding>, now: int) returns (result: seq<Binding>)
    ensures Merges(pending + restored, now, result)
  {
    var sources := pending + restored;
    var seen: map<Identity, nat> := map[];
    result := [];
    for i := 0 to |sources|
      invariant Indexed(seen, result)
      invariant Merges(sources[..i], now, result)
    {
      var b := sources[i];
      assert sources[..i + 1] == sources[..i] + [b];
      if !Usable(b, now) {
        MergeSkip(sources[..i], now, result, b);
      } else if b.id in seen {
        var at := seen[b.id];
        if b.expiresAt < result[at].expiresAt {
          MergeEarlier(sources[..i], now, result, b, at);
          result := result[at := b];
        } else {
          assert Earliest(result, b);
          MergeSkip(sources[..i], now, result, b);
        }
      } else {
        MergeNew(sources[..i], now, result, b);
        seen := seen[b.id := |result|];
        result := result + [b];
      }
    }
    assert sources[..|sources|] == sources;
  }

  // The index of every identity in the result.
  ghost predicate Indexed(seen: map<Identity, nat>, result: seq<Binding>) {
    && (forall id :: id in seen ==> seen[id] < |result| && result[seen[id]].id == id)
    && (forall i :: 0 <= i < |result| ==> result[i].id in seen && seen[result[i].id] == i)
  }

  lemma MergeSkip(sources: seq<Binding>, now: int, result: seq<Binding>, b: Binding)
    requires Merges(sources, now, result) && (Usable(b, now) ==> Earliest(result, b))
    ensures Merges(sources + [b], now, result)
  {
  }

  lemma MergeEarlier(sources: seq<Binding>, now: int, result: seq<Binding>, b: Binding, at: nat)
    requires Merges(sources, now, result) && Usable(b, now)
    requires at < |result| && result[at].id == b.id && b.expiresAt < result[at].expiresAt
    ensures Merges(sources + [b], now, result[at := b])
  {
    var next := result[at := b];
    assert next[at] == b;
    forall s | s in sources && Usable(s, now) ensures Earliest(next, s) {
      var x :| x in result && x.id == s.id && x.expiresAt <= s.expiresAt;
      var i :| 0 <= i < |result| && result[i] == x;
      assert next[i] == if i == at then b else x;
      assert next[i] in next;
    }
    assert b in next && Earliest(next, b);
    forall x | x in next ensures x in sources + [b] && Usable(x, now) {
      var i :| 0 <= i < |next| && next[i] == x;
      assert i != at ==> result[i] == x && x in result;
    }
  }

  lemma MergeNew(sources: seq<Binding>, now: int, result: seq<Binding>, b: Binding)
    requires Merges(sources, now, result) && Usable(b, now)
    requires forall i :: 0 <= i < |result| ==> result[i].id != b.id
    ensures Merges(sources + [b], now, result + [b])
  {
    var next := result + [b];
    assert next[|result|] == b;
    forall s | s in sources && Usable(s, now) ensures Earliest(next, s) {
      assert Earliest(result, s);
      var x :| x in result && x.id == s.id && x.expiresAt <= s.expiresAt;
      assert x in next;
    }
    assert b in next && Earliest(next, b);
  }

  // The kept deadline is exactly the smallest usable one.
  lemma MergedDeadline(sources: seq<Binding>, now: int, result: seq<Binding>, b: Binding, s: Binding)
    requires Merges(sources, now, result) && b in result && s in sources && Usable(s, now) && s.id == b.id
    ensures b in sources && Usable(b, now) && b.expiresAt <= s.expiresAt
  {
    assert Earliest(result, s);
    var x :| x in result && x.id == s.id && x.expiresAt <= s.expiresAt;
    var i :| 0 <= i < |result| && result[i] == x;
    var j :| 0 <= j < |result| && result[j] == b;
  }

  // ---- durable state -----------------------------------------------------------------------

  datatype File = Missing | Corrupt | Good(bindings: seq<Binding>)

  function Contents(f: File): seq<Binding> {
    if f.Good? then f.bindings else []
  }

  predicate Lists(f: File, b: Binding) {
    b in Contents(f)
  }

  datatype Disk = Disk(checkpoint: File, pending: File, claimed: set<Identity>, refused: set<Identity>)

  predicate Records(d: Disk, b: Binding) {
    Lists(d.checkpoint, b) || Lists(d.pending, b)
  }

  // Claimed in the database, or refused there as someone else's.
  predicate Settled(d: Disk, id: Identity) {
    id in d.claimed || id in d.refused
  }

  ghost predicate Held(d: Disk, id: Identity) {
    Settled(d, id) || exists b :: Records(d, b) && b.id == id
  }

  // The clock reads no earlier than `since` and no later than `horizon`.
  datatype Span = Span(since: int, horizon: int)

  // Settled, or in a file with a deadline that no reading of the clock reaches.
  ghost predicate Safe(d: Disk, id: Identity, span: Span) {
    Settled(d, id) || exists b :: Records(d, b) && b.id == id && b.expiresAt > span.horizon
  }

  // A resource that is safe, and has no record that expires while the clock is being read. Records
  // that had expired before are no obstacle.
  ghost predicate Tracked(d: Disk, id: Identity, span: Span) {
    && IsResource(id) && Safe(d, id, span)
    && forall b :: Records(d, b) && b.id == id ==> b.expiresAt <= span.since || span.horizon < b.expiresAt
  }

  // Nothing tracked is lost, and neither a resource nor a deadline is invented.
  ghost predicate Keeps(before: Disk, after: Disk, span: Span) {
    && (forall id :: Tracked(before, id, span) ==> Safe(after, id, span))
    && (forall id :: Settled(after, id) ==> Held(before, id))
    && (forall b :: Records(after, b) ==> Records(before, b))
  }

  lemma KeepsTransitive(a: Disk, b: Disk, c: Disk, span: Span)
    requires Keeps(a, b, span) && Keeps(b, c, span)
    ensures Keeps(a, c, span)
  {
    forall id | Tracked(a, id, span) ensures Safe(c, id, span) {
      assert Tracked(b, id, span);
    }
  }

  // However many times startup is tried, and wherever each attempt stops, nothing tracked is lost.
  // `states[i + 1]` is any state reached by the attempt that began in `states[i]`.
  lemma {:induction false} AttemptsKeep(states: seq<Disk>, span: Span)
    requires states != []
    requires forall i :: 0 <= i < |states| - 1 ==> Keeps(states[i], states[i + 1], span)
    ensures Keeps(states[0], states[|states| - 1], span)
  {
    if |states| > 1 {
      var n := |states| - 1;
      AttemptsKeep(states[..n], span);
      assert Keeps(states[n - 1], states[n - 1 + 1], span);
      KeepsTransitive(states[0], states[n - 1], states[n], span);
    }
  }

  // ---- an attempt without failures -------------------------------------------------------------

  // The binding of this identity was not yet expired when its turn came.
  ghost predicate InTime(list: seq<Binding>, times: seq<int>, id: Identity)
    requires |times| == |list|
  {
    exists i :: 0 <= i < |list| && list[i].id == id && list[i].expiresAt > times[i]
  }

  // Besides what was settled before, exactly the bindings are settled whose turn came in time.
  ghost predicate Settles(before: Disk, after: Disk, list: seq<Binding>, times: seq<int>) {
    && |times| == |list|
    && forall id :: Settled(after, id) <==> Settled(before, id) || InTime(list, times, id)
  }

  // A startup that merges the two files at one time and comes to each binding at another, and
  // in which nothing fails.
  ghost predicate Attempt(before: Disk, after: Disk, mergedAt: int, merged: seq<Binding>, times: seq<int>) {
    && Merges(Contents(before.pending) + Contents(before.checkpoint), mergedAt, merged)
    && Settles(before, after, merged, times)
    && after.checkpoint == Missing && after.pending == Missing
  }

  ghost predicate ExpiresBetween(d: Disk, id: Identity, from: int, to: int) {
    exists b :: Records(d, b) && b.id == id && from < b.expiresAt <= to
  }

  // A resource that was usable when the files were merged gets its turn, and is kept exactly if
  // no record of it expires between the merge and that turn: a later record does not help it.
  lemma KeptExactly(before: Disk, after: Disk, mergedAt: int, merged: seq<Binding>, times: seq<int>, s: Binding)
    returns (turn: nat)
    requires Attempt(before, after, mergedAt, merged, times)
    requires Records(before, s) && Usable(s, mergedAt) && !Settled(before, s.id)
    ensures turn < |merged| && merged[turn].id == s.id
    ensures Held(after, s.id) <==> !ExpiresBetween(before, s.id, mergedAt, times[turn])
  {
    var sources := Contents(before.pending) + Contents(before.checkpoint);
    assert s in sources && Earliest(merged, s);
    var b :| b in merged && b.id == s.id && b.expiresAt <= s.expiresAt;
    turn :| 0 <= turn < |merged| && merged[turn] == b;
    assert b in sources && Records(before, b);
    assert InTime(merged, times, s.id) <==> b.expiresAt > times[turn];
    forall x | Records(before, x) && x.id == s.id && x.expiresAt > mergedAt ensures b.expiresAt <= x.expiresAt {
      assert x in sources && Usable(x, mergedAt);
      MergedDeadline(sources, mergedAt, merged, b, x);
    }
  }

  // A resource good until 100 with an older record good until 2: merged at 1 and reached at 3, it
  // is lost.
  lemma LateTurnLoses()
    ensures var id := Identity(1, "native/resource", 1, 1, 1);
            var before := Disk(Good([Binding(id, 100)]), Good([Binding(id, 2)]), {}, {});
            var after := Disk(Missing, Missing, {}, {});
            && IsResource(id) && Attempt(before, after, 1, [Binding(id, 2)], [3])
            && Safe(before, id, Span(1, 3)) && !Held(after, id)
  {
    var id := Identity(1, "native/resource", 1, 1, 1);
    var before := Disk(Good([Binding(id, 100)]), Good([Binding(id, 2)]), {}, {});
    assert "native/resource"[..7] == "native/";
    var sources := [Binding(id, 2), Binding(id, 100)];
    assert Contents(before.pending) + Contents(before.checkpoint) == sources;
    assert Binding(id, 2) in [Binding(id, 2)];
    assert Records(before, Binding(id, 100));
  }
}
