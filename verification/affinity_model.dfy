/**
  The soft-affinity cache as a value: slots in recency order, newest first, and the steps that
  looking up, recording a success and configuring take on it.
*/
module AffinityModel {
  import opened Wrappers

  const VERSIONS: nat := 0x1_0000_0000_0000_0000

  type Key = string

  datatype Target = Target(group: nat, credential: nat, generation: nat)

  predicate ValidTarget(t: Target) {
    t.group != 0 && t.credential != 0 && t.generation != 0
  }

  datatype Observation = Observation(target: Target, key: Key, revision: nat, version: nat, found: bool)

  const NO_TARGET := Target(0, 0, 0)

  datatype Slot = Slot(key: Key, target: Target, version: nat, expiresAt: int)

  datatype Cache = Cache(slots: seq<Slot>, capacity: int, ttl: int, revision: nat, nextVersion: nat)

  // ---- slots ----------------------------------------------------------------------

  predicate Distinct(slots: seq<Slot>) {
    forall i, j :: 0 <= i < j < |slots| ==> slots[i].key != slots[j].key
  }

  function Without(slots: seq<Slot>, key: Key): seq<Slot> {
    if slots == [] then []
    else if slots[0].key == key then slots[1..]
    else [slots[0]] + Without(slots[1..], key)
  }

  function Get(slots: seq<Slot>, key: Key): (r: Option<Slot>)
    ensures r.Some? ==> r.value in slots && r.value.key == key
    ensures r.None? ==> forall i :: 0 <= i < |slots| ==> slots[i].key != key
  {
    if slots == [] then None
    else if slots[0].key == key then Some(slots[0])
    else Get(slots[1..], key)
  }

  lemma {:induction false} GetAt(slots: seq<Slot>, i: nat)
    requires Distinct(slots) && i < |slots|
    ensures Get(slots, slots[i].key) == Some(slots[i])
  {
    if i > 0 {
      GetAt(slots[1..], i - 1);
    }
  }

  lemma {:induction false} WithoutAt(slots: seq<Slot>, i: nat)
    requires Distinct(slots) && i < |slots|
    ensures Without(slots, slots[i].key) == slots[..i] + slots[i + 1..]
  {
    if i > 0 {
      WithoutAt(slots[1..], i - 1);
      assert slots[1..][..i - 1] == slots[1..i];
      assert slots[..i] == [slots[0]] + slots[1..i];
    }
  }

  lemma {:induction false} WithoutAbsent(slots: seq<Slot>, key: Key)
    requires forall i :: 0 <= i < |slots| ==> slots[i].key != key
    ensures Without(slots, key) == slots
  {
    if slots != [] {
      WithoutAbsent(slots[1..], key);
    }
  }

  lemma WithoutKeeps(slots: seq<Slot>, key: Key)
    requires Distinct(slots)
    ensures Distinct(Without(slots, key))
    ensures |Without(slots, key)| == if Get(slots, key).Some? then |slots| - 1 else |slots|
    ensures forall s :: s in Without(slots, key) <==> s in slots && s.key != key
  {
    if Get(slots, key).Some? {
      var i :| 0 <= i < |slots| && slots[i] == Get(slots, key).value;
      WithoutAt(slots, i);
    } else {
      WithoutAbsent(slots, key);
    }
  }

  // ---- steps ----------------------------------------------------------------------

  predicate Live(c: Cache, key: Key, now: int) {
    var s := Get(c.slots, key);
    s.Some? && now < s.value.expiresAt
  }

  // An expired slot is dropped when it is looked at.
  function Purged(c: Cache, key: Key, now: int): Cache {
    var s := Get(c.slots, key);
    if s.Some? && now >= s.value.expiresAt then c.(slots := Without(c.slots, key)) else c
  }

  function Front(c: Cache, s: Slot): Cache {
    c.(slots := [s] + Without(c.slots, s.key))
  }

  function Lookup(c: Cache, key: Key, now: int): Cache {
    if key == "" then c
    else if Live(c, key, now) then Front(c, Get(c.slots, key).value)
    else Purged(c, key, now)
  }

  function Observed(c: Cache, key: Key, now: int): Observation {
    if key == "" then Observation(NO_TARGET, "", 0, 0, false)
    else if Live(c, key, now) then
      var s := Get(c.slots, key).value;
      Observation(s.target, key, c.revision, s.version, true)
    else Observation(NO_TARGET, key, c.revision, 0, false)
  }

  function Advance(version: nat): nat { (version + 1) % VERSIONS }

  // What is left after evicting from the back until one more fits.
  function Room(slots: seq<Slot>, capacity: int): seq<Slot> {
    if |slots| < capacity then slots else if capacity <= 0 then [] else slots[..capacity - 1]
  }

  function Inserted(c: Cache, key: Key, target: Target, now: int): Cache {
    c.(slots := [Slot(key, target, Advance(c.nextVersion), now + c.ttl)] + Room(c.slots, c.capacity),
       nextVersion := Advance(c.nextVersion))
  }

  // The observation still describes the cache.
  predicate Matches(c: Cache, key: Key, o: Observation, now: int) {
    if Live(c, key, now) then
      var s := Get(c.slots, key).value;
      o.found && s.version == o.version && s.target == o.target
    else true
  }

  predicate Accepted(c: Cache, key: Key, o: Observation, target: Target, now: int) {
    && key != "" && ValidTarget(target) && (o.key != "" ==> o.key == key)
    && c.capacity > 0 && c.ttl > 0 && o.revision == c.revision
    && Matches(c, key, o, now)
  }

  function Record(c: Cache, key: Key, o: Observation, target: Target, now: int): Cache {
    if key == "" || !ValidTarget(target) || (o.key != "" && o.key != key)
       || c.capacity <= 0 || c.ttl <= 0 || o.revision != c.revision then c
    else if !Live(c, key, now) then Inserted(Purged(c, key, now), key, target, now)
    else if !Matches(c, key, o, now) then c
    else
      Front(c, Slot(key, target, Advance(c.nextVersion), now + c.ttl)).(nextVersion := Advance(c.nextVersion))
  }

  predicate Replaces(c: Cache, revision: nat, capacity: int, ttl: int) {
    revision != 0 && capacity > 0 && ttl > 0 && revision > c.revision
  }

  function Configure(c: Cache, revision: nat, capacity: int, ttl: int): Cache {
    if Replaces(c, revision, capacity, ttl) then Cache([], capacity, ttl, revision, c.nextVersion) else c
  }

  predicate Configured(c: Cache, revision: nat, capacity: int, ttl: int) {
    && revision != 0 && capacity > 0 && ttl > 0
    && (revision > c.revision || (revision == c.revision && c.capacity == capacity && c.ttl == ttl))
  }
}
