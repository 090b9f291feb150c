/**
  The snapshots of changed rules that a checkpoint takes: by ascending key, in the order of each
  key's rules, and no more than asked for.
*/
module QuotaSnapshots {
  import opened QuotaModel
  import R = QuotaReference

  function DirtyOf(key: nat, rules: seq<RuleState>): seq<RestoredState> {
    if rules == [] then []
    else
      var n := |rules| - 1;
      DirtyOf(key, rules[..n]) + if rules[n].dirty then [Capture(key, rules[n])] else []
  }

  function DirtyIn(entries: Entries, keys: seq<nat>): seq<RestoredState> {
    if keys == [] then []
    else
      var n := |keys| - 1;
      DirtyIn(entries, keys[..n]) + DirtyOf(keys[n], RulesOf(entries, keys[n]))
  }

  // A limit above zero cuts the list, zero asks for nothing.
  function Cut(list: seq<RestoredState>, limit: int): seq<RestoredState> {
    if limit < 0 || |list| <= limit then list else list[..limit]
  }

  predicate Ascending(keys: seq<nat>) {
    forall i, j :: 0 <= i < j < |keys| ==> keys[i] < keys[j]
  }

  ghost predicate Lists(keys: seq<nat>, all: set<nat>) {
    Ascending(keys) && forall k :: k in all <==> k in keys
  }

  lemma {:induction false} DirtyPrefix(key: nat, rules: seq<RuleState>, n: nat)
    requires n <= |rules|
    ensures DirtyOf(key, rules[..n]) <= DirtyOf(key, rules)
    decreases |rules| - n
  {
    if n == |rules| {
      assert rules[..n] == rules;
    } else {
      DirtyPrefix(key, rules, n + 1);
      assert rules[..n + 1][..n] == rules[..n];
    }
  }

  lemma DirtyNone(key: nat, rules: seq<RuleState>)
    ensures DirtyOf(key, rules[..0]) == []
  {
  }

  lemma NotFull(list: seq<RestoredState>, room: int)
    requires room > 0 ==> |list| < room
    requires room != 0
    ensures Cut(list, room) == list
  {
  }

  lemma DirtyNext(key: nat, rules: seq<RuleState>, n: nat)
    requires n < |rules|
    ensures DirtyOf(key, rules[..n + 1]) == DirtyOf(key, rules[..n]) + if rules[n].dirty then [Capture(key, rules[n])] else []
  {
    assert rules[..n + 1][..n] == rules[..n];
  }

  // A list that is full after the first rules is cut where it stands.
  lemma FullAfter(key: nat, rules: seq<RuleState>, n: nat, room: int)
    requires n <= |rules| && room > 0 && |DirtyOf(key, rules[..n])| == room
    ensures DirtyOf(key, rules[..n]) == Cut(DirtyOf(key, rules), room)
  {
    DirtyPrefix(key, rules, n);
  }

  lemma {:induction false} DirtyKeysPrefix(entries: Entries, keys: seq<nat>, n: nat)
    requires n <= |keys|
    ensures DirtyIn(entries, keys[..n]) <= DirtyIn(entries, keys)
    decreases |keys| - n
  {
    if n == |keys| {
      assert keys[..n] == keys;
    } else {
      DirtyKeysPrefix(entries, keys, n + 1);
      assert keys[..n + 1][..n] == keys[..n];
    }
  }

  // A full beginning is all that a limit lets through.
  lemma CutAtPrefix(list: seq<RestoredState>, head: seq<RestoredState>, limit: int)
    requires head <= list && limit > 0
    ensures |head| >= limit ==> Cut(list, limit) == Cut(head, limit)
  {
  }

  // Filling the room that is left is cutting the longer list.
  lemma CutInRoom(before: seq<RestoredState>, more: seq<RestoredState>, limit: int)
    requires limit < 0 || |before| < limit
    ensures before + Cut(more, if limit < 0 then limit else limit - |before|) == Cut(before + more, limit)
  {
  }

  lemma {:induction false} DirtyMembers(key: nat, rules: seq<RuleState>, s: RestoredState)
    ensures s in DirtyOf(key, rules) <==>
            exists i :: 0 <= i < |rules| && rules[i].dirty && s == Capture(key, rules[i])
  {
    if rules != [] {
      DirtyMembers(key, rules[..|rules| - 1], s);
    }
  }

  // Without a limit, or below it, exactly the changed rules are captured.
  lemma {:induction false} SnapshotsAreDirty(entries: Entries, keys: seq<nat>, s: RestoredState)
    ensures s in DirtyIn(entries, keys) <==>
            exists k, i :: k in keys && 0 <= i < |RulesOf(entries, k)| && RulesOf(entries, k)[i].dirty
                           && s == Capture(k, RulesOf(entries, k)[i])
  {
    if keys != [] {
      var n := |keys| - 1;
      SnapshotsAreDirty(entries, keys[..n], s);
      DirtyMembers(keys[n], RulesOf(entries, keys[n]), s);
      assert forall k :: k in keys <==> k in keys[..n] || k == keys[n];
    }
  }

  // ---- which rules, in which order ------------------------------------------------------------

  // A key and the position of one of its rules.
  type Place = (nat, nat)

  predicate Before(p: Place, q: Place) {
    p.0 < q.0 || (p.0 == q.0 && p.1 < q.1)
  }

  predicate DirtyPlace(entries: Entries, p: Place) {
    p.0 in entries && p.1 < |entries[p.0]| && entries[p.0][p.1].dirty
  }

  predicate InOrder(at: seq<Place>) {
    forall i, j :: 0 <= i < j < |at| ==> Before(at[i], at[j])
  }

  // All changed rules, by ascending key and then in the order of the key's rules.
  ghost predicate AllDirty(entries: Entries, at: seq<Place>) {
    (forall p :: DirtyPlace(entries, p) <==> p in at) && InOrder(at)
  }

  // The snapshot at a place holds all there is to its rule.
  ghost predicate SavedAt(entries: Entries, p: Place, s: RestoredState) {
    p.0 in entries && p.1 < |entries[p.0]| && R.Saves(s, p.0, entries[p.0][p.1])
  }

  // As many snapshots as the limit allows, from the front.
  ghost predicate SnapshotsMean(entries: Entries, limit: int, at: seq<Place>, snapshots: seq<RestoredState>) {
    && AllDirty(entries, at)
    && |snapshots| == (if 0 <= limit < |at| then limit else |at|)
    && forall i :: 0 <= i < |snapshots| ==> SavedAt(entries, at[i], snapshots[i])
  }

  ghost function PlacesOf(key: nat, rules: seq<RuleState>): seq<Place> {
    if rules == [] then []
    else
      var n := |rules| - 1;
      PlacesOf(key, rules[..n]) + if rules[n].dirty then [(key, n)] else []
  }

  ghost function PlacesIn(entries: Entries, keys: seq<nat>): seq<Place> {
    if keys == [] then []
    else
      var n := |keys| - 1;
      PlacesIn(entries, keys[..n]) + PlacesOf(keys[n], RulesOf(entries, keys[n]))
  }

  lemma {:induction false} PlacesOfKey(key: nat, rules: seq<RuleState>)
    ensures forall p :: p in PlacesOf(key, rules) <==> p.0 == key && p.1 < |rules| && rules[p.1].dirty
    ensures InOrder(PlacesOf(key, rules))
  {
    if rules != [] {
      var n := |rules| - 1;
      PlacesOfKey(key, rules[..n]);
      var at := PlacesOf(key, rules[..n]);
      forall i | 0 <= i < |at| ensures at[i].0 == key && at[i].1 < n {
        assert at[i] in at;
      }
    }
  }

  lemma {:induction false} PlacesInKeys(entries: Entries, keys: seq<nat>, p: Place)
    requires forall i :: 0 <= i < |keys| ==> keys[i] in entries
    ensures p in PlacesIn(entries, keys) <==> p.0 in keys && DirtyPlace(entries, p)
  {
    if keys != [] {
      var n := |keys| - 1;
      hide PlacesOf;
      PlacesInKeys(entries, keys[..n], p);
      PlacesOfKey(keys[n], entries[keys[n]]);
      assert keys == keys[..n] + [keys[n]];
    }
  }

  lemma OrderJoins(a: seq<Place>, b: seq<Place>, key: nat)
    requires InOrder(a) && InOrder(b)
    requires (forall i :: 0 <= i < |a| ==> a[i].0 < key) && (forall i :: 0 <= i < |b| ==> b[i].0 == key)
    ensures InOrder(a + b)
  {
  }

  lemma {:induction false} PlacesAscend(entries: Entries, keys: seq<nat>)
    requires Ascending(keys) && forall i :: 0 <= i < |keys| ==> keys[i] in entries
    ensures InOrder(PlacesIn(entries, keys))
  {
    if keys != [] {
      hide PlacesOf, InOrder;
      var n := |keys| - 1;
      var older, newer := PlacesIn(entries, keys[..n]), PlacesOf(keys[n], entries[keys[n]]);
      PlacesAscend(entries, keys[..n]);
      PlacesOfKey(keys[n], entries[keys[n]]);
      forall i | 0 <= i < |older| ensures older[i].0 < keys[n] {
        PlacesInKeys(entries, keys[..n], older[i]);
        var m :| 0 <= m < n && keys[m] == older[i].0;
      }
      forall i | 0 <= i < |newer| ensures newer[i].0 == keys[n] {
        assert newer[i] in newer;
      }
      OrderJoins(older, newer, keys[n]);
    } else {
      assert InOrder([]);
    }
  }

  lemma {:induction false} PlacesSaved(entries: Entries, key: nat, n: nat)
    requires key in entries && n <= |entries[key]|
    ensures var at, list := PlacesOf(key, entries[key][..n]), DirtyOf(key, entries[key][..n]);
            |at| == |list| && forall i :: 0 <= i < |at| ==> SavedAt(entries, at[i], list[i])
  {
    if n > 0 {
      PlacesSaved(entries, key, n - 1);
      assert entries[key][..n][..n - 1] == entries[key][..n - 1];
    }
  }

  lemma {:induction false} AllSaved(entries: Entries, keys: seq<nat>)
    requires forall i :: 0 <= i < |keys| ==> keys[i] in entries
    ensures var at, list := PlacesIn(entries, keys), DirtyIn(entries, keys);
            |at| == |list| && forall i :: 0 <= i < |at| ==> SavedAt(entries, at[i], list[i])
  {
    if keys != [] {
      hide SavedAt, PlacesOf, DirtyOf;
      var n := |keys| - 1;
      AllSaved(entries, keys[..n]);
      PlacesSaved(entries, keys[n], |entries[keys[n]]|);
      assert entries[keys[n]][..|entries[keys[n]]|] == entries[keys[n]];
    }
  }

  lemma SnapshotsAreComplete(entries: Entries, keys: seq<nat>, limit: int)
    requires Lists(keys, entries.Keys)
    ensures SnapshotsMean(entries, limit, PlacesIn(entries, keys), Cut(DirtyIn(entries, keys), limit))
  {
    hide SavedAt, PlacesIn, DirtyIn, InOrder, DirtyPlace;
    forall i | 0 <= i < |keys| ensures keys[i] in entries {
      assert keys[i] in keys;
    }
    PlacesAscend(entries, keys);
    AllSaved(entries, keys);
    forall p ensures DirtyPlace(entries, p) <==> p in PlacesIn(entries, keys) {
      PlacesInKeys(entries, keys, p);
      DirtyIsListed(entries, p);
    }
  }

  lemma DirtyIsListed(entries: Entries, p: Place)
    ensures DirtyPlace(entries, p) ==> p.0 in entries
  {
  }

  method Smallest(all: set<nat>) returns (m: nat)
    requires all != {}
    ensures m in all && forall k :: k in all ==> m <= k
  {
    m :| m in all;
    var rest := all;
    while rest != {}
      invariant rest <= all && m in all
      invariant forall k :: k in all && k !in rest ==> m <= k
      decreases rest
    {
      var k :| k in rest;
      rest := rest - {k};
      if k < m {
        m := k;
      }
    }
  }

  method SortKeys(all: set<nat>) returns (keys: seq<nat>)
    ensures Lists(keys, all)
  {
    keys := [];
    var rest := all;
    while rest != {}
      invariant rest <= all && Ascending(keys)
      invariant forall k :: k in keys <==> k in all && k !in rest
      invariant forall i, k :: 0 <= i < |keys| && k in rest ==> keys[i] < k
      decreases rest
    {
      var m := Smallest(rest);
      keys, rest := keys + [m], rest - {m};
    }
  }
}
