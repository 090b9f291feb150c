/**
  The soft-affinity cache as the program keeps it: a map from keys to list elements and a recency
  list, updated in place. Each method is tied to the step it takes on the cache's value.
*/
module AffinityCache {
  import opened Wrappers
  import opened AffinityModel
  import R = AffinityReference

  class Element {
    const key: Key
    var target: Target
    var version: nat
    var expiresAt: int

    constructor (key: Key, target: Target, version: nat, expiresAt: int)
      ensures this.key == key && Value() == Slot(key, target, version, expiresAt)
    {
      this.key := key;
      this.target := target;
      this.version := version;
      this.expiresAt := expiresAt;
    }

    function Value(): (s: Slot)
      reads this
      ensures s.key == key
    {
      Slot(key, target, version, expiresAt)
    }
  }

  function Values(list: seq<Element>): seq<Slot>
    reads list
  {
    if list == [] then [] else [list[0].Value()] + Values(list[1..])
  }

  lemma {:induction false} ValuesAt(list: seq<Element>)
    ensures |Values(list)| == |list|
    ensures forall i :: 0 <= i < |list| ==> Values(list)[i] == list[i].Value()
  {
    if list != [] {
      ValuesAt(list[1..]);
    }
  }

  lemma ValuesApart(list: seq<Element>)
    requires Apart(list)
    ensures Distinct(Values(list))
  {
    ValuesAt(list);
  }

  function Removed(list: seq<Element>, e: Element): seq<Element> {
    if list == [] then []
    else if list[0] == e then list[1..]
    else [list[0]] + Removed(list[1..], e)
  }

  // One element per key.
  ghost predicate Apart(list: seq<Element>) {
    forall i, j :: 0 <= i < j < |list| ==> list[i].key != list[j].key
  }

  // The map holds exactly the list's elements, under their keys.
  ghost predicate InStep(entries: map<Key, Element>, list: seq<Element>) {
    && Apart(list)
    && (forall i :: 0 <= i < |list| ==> list[i].key in entries && entries[list[i].key] == list[i])
    && forall k :: k in entries ==> entries[k] in list && entries[k].key == k
  }

  lemma {:induction false} RemovedAt(list: seq<Element>, i: nat)
    requires Apart(list) && i < |list|
    ensures Removed(list, list[i]) == list[..i] + list[i + 1..]
  {
    if i > 0 {
      RemovedAt(list[1..], i - 1);
      assert list[1..][..i - 1] == list[1..i];
      assert list[..i] == [list[0]] + list[1..i];
    }
  }

  lemma {:induction false} RemovedMembers(list: seq<Element>, e: Element)
    requires Apart(list) && e in list
    ensures |Removed(list, e)| == |list| - 1
    ensures forall i :: 0 <= i < |list| && list[i] != e ==> list[i] in Removed(list, e)
    ensures forall i :: 0 <= i < |Removed(list, e)| ==> Removed(list, e)[i] in list && Removed(list, e)[i].key != e.key
  {
    if list[0] != e {
      RemovedMembers(list[1..], e);
    }
  }

  lemma RemovedApart(list: seq<Element>, e: Element)
    requires Apart(list) && e in list
    ensures Apart(Removed(list, e))
  {
    var i :| 0 <= i < |list| && list[i] == e;
    RemovedAt(list, i);
  }

  // Taking an element out of the list is taking its key out of the value.
  lemma {:induction false} RemovedIsWithout(list: seq<Element>, e: Element)
    requires Apart(list) && e in list
    ensures Values(Removed(list, e)) == Without(Values(list), e.key)
  {
    if list[0] != e {
      assert e in list[1..];
      RemovedIsWithout(list[1..], e);
    }
  }

  lemma {:induction false} FoundIsGet(entries: map<Key, Element>, list: seq<Element>, key: Key)
    requires InStep(entries, list)
    ensures Get(Values(list), key) == if key in entries then Some(entries[key].Value()) else None
  {
    ValuesAt(list);
    var slots := Values(list);
    if key in entries {
      var i :| 0 <= i < |list| && list[i] == entries[key];
      assert forall i, j :: 0 <= i < j < |list| ==> slots[i].key != slots[j].key;
      GetAt(slots, i);
    } else {
      assert forall i :: 0 <= i < |list| ==> list[i] in list && slots[i].key == list[i].key;
    }
  }

  lemma {:induction false} SameSize(entries: map<Key, Element>, list: seq<Element>)
    requires InStep(entries, list)
    ensures |entries| == |list|
    decreases list
  {
    if list == [] {
      assert entries.Keys == {};
      assert |entries.Keys| == |entries|;
    } else {
      var rest, fewer := list[1..], entries - {list[0].key};
      assert list[0] in list;
      forall k | k in fewer ensures fewer[k] in rest && fewer[k].key == k {
        assert fewer[k] == entries[k] && entries[k] in list && entries[k] != list[0];
      }
      SameSize(fewer, rest);
      assert entries.Keys == fewer.Keys + {list[0].key};
      assert |entries| == |entries.Keys| && |fewer| == |fewer.Keys|;
    }
  }

  lemma RemovedInStep(entries: map<Key, Element>, list: seq<Element>, e: Element)
    requires InStep(entries, list) && e in list
    ensures InStep(entries - {e.key}, Removed(list, e))
  {
    RemovedMembers(list, e);
    RemovedApart(list, e);
    var fewer := entries - {e.key};
    forall k | k in fewer ensures fewer[k] in Removed(list, e) && fewer[k].key == k {
      assert fewer[k] == entries[k] && entries[k] in list;
    }
  }

  lemma AddedInStep(entries: map<Key, Element>, list: seq<Element>, e: Element)
    requires InStep(entries, list) && e.key !in entries
    ensures InStep(entries[e.key := e], [e] + list)
  {
    var more, front := entries[e.key := e], [e] + list;
    forall k | k in more ensures more[k] in front && more[k].key == k {
      assert k == e.key || entries[k] in list;
    }
  }

  lemma FrontInStep(entries: map<Key, Element>, list: seq<Element>, e: Element)
    requires InStep(entries, list) && e in list
    ensures InStep(entries, [e] + Removed(list, e))
  {
    RemovedInStep(entries, list, e);
    AddedInStep(entries - {e.key}, Removed(list, e), e);
    assert (entries - {e.key})[e.key := e] == entries;
  }

  lemma FrontValues(e: Element, list: seq<Element>)
    ensures Values([e] + list) == [e.Value()] + Values(list)
  {
  }

  lemma MappedIsListed(entries: map<Key, Element>, list: seq<Element>, key: Key)
    requires InStep(entries, list)
    ensures Apart(list)
    ensures key in entries ==> entries[key] in list && entries[key].key == key
  {
  }

  lemma RemovedLast(entries: map<Key, Element>, list: seq<Element>)
    requires InStep(entries, list) && list != []
    ensures Removed(list, list[|list| - 1]) == list[..|list| - 1]
  {
    RemovedAt(list, |list| - 1);
  }

  lemma {:induction false} ValuesPrefix(list: seq<Element>, m: nat)
    requires m <= |list|
    ensures m <= |Values(list)| && Values(list[..m]) == Values(list)[..m]
  {
    ValuesAt(list);
    ValuesAt(list[..m]);
  }

  class SoftCache {
    var entries: map<Key, Element>
    var recent: seq<Element>
    var capacity: int
    var ttl: int
    var revision: nat
    var nextVersion: nat

    ghost predicate Valid()
      reads this
    {
      InStep(entries, recent) && nextVersion < VERSIONS
    }

    function Value(): Cache
      reads this, recent
    {
      Cache(Values(recent), capacity, ttl, revision, nextVersion)
    }

    constructor (capacity: int, ttl: int)
      ensures Valid() && recent == [] && Value() == Cache([], capacity, ttl, 0, 0)
    {
      entries, recent := map[], [];
      this.capacity, this.ttl := capacity, ttl;
      revision, nextVersion := 0, 0;
    }

    method Configure(revision: nat, capacity: int, ttl: int) returns (ok: bool)
      requires Valid()
      modifies this
      ensures Valid()
      ensures forall e :: e in recent ==> e in old(recent)
      ensures Value() == AffinityModel.Configure(old(Value()), revision, capacity, ttl)
      ensures ok == Configured(old(Value()), revision, capacity, ttl)
      ensures R.ConfigureMeans(old(Value()), revision, capacity, ttl, Value(), ok)
    {
      if revision == 0 || capacity <= 0 || ttl <= 0 {
        return false;
      }
      if revision < this.revision {
        return false;
      }
      if revision == this.revision {
        return this.capacity == capacity && this.ttl == ttl;
      }
      this.revision := revision;
      this.capacity := capacity;
      this.ttl := ttl;
      entries := map[];
      recent := [];
      return true;
    }

    method Remove(e: Element)
      requires Valid() && e in recent
      modifies this`entries, this`recent
      ensures Valid() && recent == Removed(old(recent), e)
      ensures entries == old(entries) - {e.key}
    {
      RemovedInStep(entries, recent, e);
      entries := entries - {e.key};
      recent := Removed(recent, e);
    }

    method MoveToFront(e: Element)
      requires Valid() && e in recent
      modifies this`recent
      ensures Valid() && recent == [e] + Removed(old(recent), e)
    {
      FrontInStep(entries, recent, e);
      recent := [e] + Removed(recent, e);
    }

    // The live element of the key; an expired one is dropped.
    method Current(key: Key, now: int) returns (e: Option<Element>)
      requires Valid()
      modifies this`entries, this`recent
      ensures Valid() && forall x :: x in recent ==> x in old(recent)
      ensures Value() == Purged(old(Value()), key, now)
      ensures e.Some? == Live(old(Value()), key, now) == Live(Value(), key, now)
      ensures e.Some? ==> key in entries && entries[key] == e.value
      ensures e.Some? ==> e.value in recent && e.value.key == key && recent == old(recent)
      ensures e.None? ==> key !in entries
    {
      hide Removed, Values, Without, Get, InStep;
      FoundIsGet(entries, recent, key);
      if key !in entries {
        return None;
      }
      var element := entries[key];
      MappedIsListed(entries, recent, key);
      if now >= element.expiresAt {
        RemovedIsWithout(recent, element);
        RemovedMembers(recent, element);
        Remove(element);
        FoundIsGet(entries, recent, key);
        return None;
      }
      return Some(element);
    }

    method Lookup(key: Key, now: int) returns (o: Observation)
      requires Valid()
      modifies this`entries, this`recent
      ensures Valid() && forall x :: x in recent ==> x in old(recent)
      ensures Value() == AffinityModel.Lookup(old(Value()), key, now)
      ensures o == Observed(old(Value()), key, now)
      ensures R.LookupMeans(old(Value()), key, now, Value(), o)
    {
      hide R.LookupMeans;
      ValuesApart(recent);
      R.LookupIs(Value(), key, now);
      if key == "" {
        return Observation(NO_TARGET, "", 0, 0, false);
      }
      var element := Current(key, now);
      if element.None? {
        return Observation(NO_TARGET, key, revision, 0, false);
      }
      var e := element.value;
      hide Removed, Values, InStep, Without, Get;
      FoundIsGet(entries, recent, key);
      MappedIsListed(entries, recent, key);
      RemovedIsWithout(recent, e);
      RemovedMembers(recent, e);
      FrontValues(e, Removed(recent, e));
      MoveToFront(e);
      return Observation(e.target, key, revision, e.version, true);
    }

    method Insert(key: Key, target: Target, now: int) returns (ok: bool)
      requires Valid() && key !in entries
      modifies this`entries, this`recent, this`nextVersion
      ensures Valid() && ok
      ensures forall x :: x in recent ==> x in old(recent) || fresh(x)
      ensures Value() == Inserted(old(Value()), key, target, now)
    {
      hide Removed, Values, InStep;
      MakeRoom(key);
      nextVersion := (nextVersion + 1) % VERSIONS;
      var e := new Element(key, target, nextVersion, now + ttl);
      AddedInStep(entries, recent, e);
      FrontValues(e, recent);
      entries := entries[key := e];
      recent := [e] + recent;
      return true;
    }

    // Drops the least recent elements until one more fits.
    method MakeRoom(ghost key: Key)
      requires Valid() && key !in entries
      modifies this`entries, this`recent
      ensures Valid() && key !in entries
      ensures forall x :: x in recent ==> x in old(recent)
      ensures Values(recent) == Room(old(Values(recent)), capacity)
    {
      hide Removed, Values, InStep;
      ghost var n := |recent|;
      while |entries| >= capacity && recent != []
        invariant Valid() && key !in entries
        invariant |recent| <= n && recent == old(recent)[..|recent|]
        invariant |recent| == n || |recent| >= capacity - 1
        decreases |recent|
      {
        SameSize(entries, recent);
        var oldest := recent[|recent| - 1];
        RemovedLast(entries, recent);
        Remove(oldest);
      }
      SameSize(entries, recent);
      ValuesPrefix(old(recent), |recent|);
    }

    method RecordSuccess(key: Key, observed: Observation, target: Target, now: int) returns (ok: bool)
      requires Valid()
      modifies this, recent
      ensures Valid()
      ensures forall x :: x in recent ==> x in old(recent) || fresh(x)
      ensures Value() == Record(old(Value()), key, observed, target, now)
      ensures ok == Accepted(old(Value()), key, observed, target, now)
      ensures ok <==> R.Accepts(old(Value()), key, observed, target, now)
      ensures R.RecordMeans(old(Value()), key, observed, target, now, Value())
    {
      hide R.RecordMeans, R.Accepts, Values, Without, Get, Front, Inserted;
      ValuesApart(recent);
      R.RecordIs(Value(), key, observed, target, now);
      R.AcceptMeans(Value(), key, observed, target, now);
      if key == "" || !ValidTarget(target) {
        return false;
      }
      if observed.key != "" && observed.key != key {
        return false;
      }
      ok := RecordLocked(key, observed, target, now);
    }

    // The conditional update proper, on arguments that are in order.
    method RecordLocked(key: Key, observed: Observation, target: Target, now: int) returns (ok: bool)
      requires Valid() && key != "" && ValidTarget(target) && (observed.key == "" || observed.key == key)
      modifies this, recent
      ensures Valid()
      ensures forall x :: x in recent ==> x in old(recent) || fresh(x)
      ensures Value() == Record(old(Value()), key, observed, target, now)
      ensures ok == Accepted(old(Value()), key, observed, target, now)
    {
      hide Removed, Values, InStep, Without, Get, Front, Inserted;
      if capacity <= 0 || ttl <= 0 || observed.revision != revision {
        return false;
      }
      var element := Current(key, now);
      FoundIsGet(entries, recent, key);
      if observed.found {
        if element.Some? {
          if element.value.version != observed.version || element.value.target != observed.target {
            return false;
          }
        } else {
          ok := Insert(key, target, now);
          return;
        }
      } else if element.Some? {
        return false;
      }
      if element.None? {
        ok := Insert(key, target, now);
        return;
      }
      Refresh(element.value, target, now);
      return true;
    }

    // Writes the new target in place and makes the element the most recent.
    method Refresh(e: Element, target: Target, now: int)
      requires Valid() && e in recent
      modifies this`nextVersion, this`recent, e
      ensures Valid() && forall x :: x in recent ==> x in old(recent)
      ensures Value() == Front(old(Value()), Slot(e.key, target, Advance(old(nextVersion)), now + ttl))
                         .(nextVersion := Advance(old(nextVersion)))
    {
      hide Removed, Values, InStep;
      MappedIsListed(entries, recent, e.key);
      RemovedIsWithout(recent, e);
      RemovedMembers(recent, e);
      ghost var rest := Removed(recent, e);
      nextVersion := (nextVersion + 1) % VERSIONS;
      e.target := target;
      e.version := nextVersion;
      e.expiresAt := now + ttl;
      assert Values(rest) == old(Values(Removed(recent, e)));
      FrontValues(e, rest);
      MoveToFront(e);
    }
  }
}
