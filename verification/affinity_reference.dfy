/** What the cache's operations do, written out on its slots: the reference for the step functions. */
module AffinityReference {
  import opened Wrappers
  import opened AffinityModel

  // The slots of other keys, in their order.
  function Others(slots: seq<Slot>, key: Key): seq<Slot> {
    if slots == [] then []
    else Others(slots[..|slots| - 1], key) + if slots[|slots| - 1].key == key then [] else [slots[|slots| - 1]]
  }

  // The key's slot is there and its lifetime is not over.
  predicate Holds(slots: seq<Slot>, key: Key, now: int, s: Slot) {
    s in slots && s.key == key && now < s.expiresAt
  }

  predicate HoldsNone(slots: seq<Slot>, key: Key, now: int) {
    forall i :: 0 <= i < |slots| && slots[i].key == key ==> now >= slots[i].expiresAt
  }

  // A lookup: a slot in its lifetime comes to the front and is reported; one that is overdue goes; the
  // others stay as they are.
  ghost predicate LookupMeans(c: Cache, key: Key, now: int, after: Cache, o: Observation) {
    && after.capacity == c.capacity && after.ttl == c.ttl && after.revision == c.revision && after.nextVersion == c.nextVersion
    && if key == "" then after.slots == c.slots && !o.found && o.key == "" && o.revision == 0 && o.version == 0
       else
         && o.key == key && o.revision == c.revision
         && (forall s :: Holds(c.slots, key, now, s) ==>
               && o.found && o.target == s.target && o.version == s.version
               && after.slots == [s] + Others(c.slots, key))
         && (HoldsNone(c.slots, key, now) ==> !o.found && o.version == 0 && after.slots == Others(c.slots, key))
  }

  // A record is accepted for a valid key and target, under the configuration it was observed in, if the
  // slot of the key, should it be in its lifetime, is the one that was observed.
  ghost predicate Accepts(c: Cache, key: Key, o: Observation, target: Target, now: int) {
    && key != "" && target.group > 0 && target.credential > 0 && target.generation > 0
    && (o.key == "" || o.key == key)
    && c.capacity > 0 && c.ttl > 0 && o.revision == c.revision
    && forall s :: Holds(c.slots, key, now, s) ==> o.found && o.version == s.version && o.target == s.target
  }

  // An accepted record puts the key in front, with a new version and a whole lifetime. A key that was not
  // in the cache comes before as many of the others as there is room for.
  ghost predicate RecordMeans(c: Cache, key: Key, o: Observation, target: Target, now: int, after: Cache) {
    if Accepts(c, key, o, target, now) then
      var rest := Others(c.slots, key);
      var version := if c.nextVersion + 1 == VERSIONS then 0 else c.nextVersion + 1;
      var kept := if |rest| >= c.capacity && HoldsNone(c.slots, key, now) then rest[..c.capacity - 1] else rest;
      && after.capacity == c.capacity && after.ttl == c.ttl && after.revision == c.revision && after.nextVersion == version
      && after.slots == [Slot(key, target, version, now + c.ttl)] + kept
    else after == c
  }

  // A configuration is refused when it is not valid, older, or another one under the same revision. A
  // newer one empties the cache; versions go on.
  predicate ConfigureMeans(c: Cache, revision: nat, capacity: int, ttl: int, after: Cache, ok: bool) {
    if revision > c.revision && capacity > 0 && ttl > 0 then ok && after == Cache([], capacity, ttl, revision, c.nextVersion)
    else
      && after == c
      && (ok <==> revision > 0 && revision == c.revision && capacity > 0 && capacity == c.capacity && ttl > 0 && ttl == c.ttl)
  }

  // ---- the step functions do this ------------------------------------------------------

  lemma {:induction false} OthersAdd(a: seq<Slot>, b: seq<Slot>, key: Key)
    ensures Others(a + b, key) == Others(a, key) + Others(b, key)
    decreases |b|
  {
    if b == [] {
      assert a + b == a;
    } else {
      OthersAdd(a, b[..|b| - 1], key);
      assert (a + b)[..|a + b| - 1] == a + b[..|b| - 1];
    }
  }

  lemma {:induction false} OthersAll(slots: seq<Slot>, key: Key)
    requires forall i :: 0 <= i < |slots| ==> slots[i].key != key
    ensures Others(slots, key) == slots
  {
    if slots != [] {
      OthersAll(slots[..|slots| - 1], key);
    }
  }

  lemma {:induction false} WithoutIsOthers(slots: seq<Slot>, key: Key)
    requires Distinct(slots)
    ensures Without(slots, key) == Others(slots, key)
    decreases |slots|
  {
    if slots != [] {
      assert slots == [slots[0]] + slots[1..];
      OthersAdd([slots[0]], slots[1..], key);
      OneOther(slots[0], key);
      if slots[0].key == key {
        OthersAll(slots[1..], key);
      } else {
        WithoutIsOthers(slots[1..], key);
      }
    }
  }

  lemma OneOther(s: Slot, key: Key)
    ensures Others([s], key) == if s.key == key then [] else [s]
  {
    assert [s][..0] == [];
  }

  // The key's slot, if it is in its lifetime.
  lemma LiveMeans(c: Cache, key: Key, now: int)
    requires Distinct(c.slots)
    ensures Live(c, key, now) ==> Holds(c.slots, key, now, Get(c.slots, key).value)
    ensures Live(c, key, now) ==> forall s :: Holds(c.slots, key, now, s) ==> s == Get(c.slots, key).value
    ensures !Live(c, key, now) <==> HoldsNone(c.slots, key, now)
    ensures !Live(c, key, now) ==> forall s :: !Holds(c.slots, key, now, s)
  {
    hide Get;
    forall i | 0 <= i < |c.slots| && c.slots[i].key == key ensures Get(c.slots, key) == Some(c.slots[i]) {
      GetAt(c.slots, i);
    }
    if Get(c.slots, key).Some? {
      var i :| 0 <= i < |c.slots| && c.slots[i] == Get(c.slots, key).value;
    }
  }

  lemma PurgeMeans(c: Cache, key: Key, now: int)
    requires Distinct(c.slots) && !Live(c, key, now)
    ensures Purged(c, key, now) == c.(slots := Others(c.slots, key))
  {
    WithoutIsOthers(c.slots, key);
    if Get(c.slots, key).None? {
      OthersAll(c.slots, key);
    }
  }

  lemma LookupIs(c: Cache, key: Key, now: int)
    requires Distinct(c.slots)
    ensures LookupMeans(c, key, now, Lookup(c, key, now), Observed(c, key, now))
  {
    LiveMeans(c, key, now);
    WithoutIsOthers(c.slots, key);
    if !Live(c, key, now) {
      PurgeMeans(c, key, now);
    }
    hide Live, Get, Without, Others, Distinct, Holds, HoldsNone, Purged;
  }

  lemma AcceptMeans(c: Cache, key: Key, o: Observation, target: Target, now: int)
    requires Distinct(c.slots)
    ensures Accepted(c, key, o, target, now) <==> Accepts(c, key, o, target, now)
  {
    LiveMeans(c, key, now);
    hide Live, Get, Distinct, Holds, HoldsNone;
  }

  lemma AdvanceMeans(version: nat)
    requires version < VERSIONS
    ensures Advance(version) == if version + 1 == VERSIONS then 0 else version + 1
  {
  }

  lemma RecordIs(c: Cache, key: Key, o: Observation, target: Target, now: int)
    requires Distinct(c.slots) && c.nextVersion < VERSIONS
    ensures RecordMeans(c, key, o, target, now, Record(c, key, o, target, now))
  {
    hide Live, Get, Without, Others, Distinct, Holds, HoldsNone, Purged, Accepts, Advance;
    AcceptMeans(c, key, o, target, now);
    LiveMeans(c, key, now);
    WithoutIsOthers(c.slots, key);
    AdvanceMeans(c.nextVersion);
    if !Live(c, key, now) {
      PurgeMeans(c, key, now);
    }
  }
}
