/**
  What holds of the soft-affinity cache over every run that starts empty: its shape, the
  recency order, which writes its slots remember, and what a conditional update implies.
*/
module AffinityRuns {
  import opened AffinityModel

  datatype Event =
    | Configured(revision: nat, capacity: int, ttl: int)
    | Looked(key: Key, now: int)
    | Recorded(key: Key, observed: Observation, target: Target, now: int)

  function New(capacity: int, ttl: int): Cache { Cache([], capacity, ttl, 0, 0) }

  function Step(c: Cache, e: Event): Cache {
    match e
    case Configured(revision, capacity, ttl) => Configure(c, revision, capacity, ttl)
    case Looked(key, now) => Lookup(c, key, now)
    case Recorded(key, observed, target, now) => Record(c, key, observed, target, now)
  }

  function Run(c: Cache, es: seq<Event>): Cache {
    if es == [] then c else Step(Run(c, es[..|es| - 1]), es[|es| - 1])
  }

  predicate Clears(c: Cache, e: Event) {
    e.Configured? && Replaces(c, e.revision, e.capacity, e.ttl)
  }

  predicate Writes(c: Cache, e: Event) {
    e.Recorded? && Accepted(c, e.key, e.observed, e.target, e.now)
  }

  predicate Touches(c: Cache, e: Event) {
    Writes(c, e) || (e.Looked? && e.key != "" && Live(c, e.key, e.now))
  }

  // The cache before the i-th event.
  function Before(c: Cache, es: seq<Event>, i: nat): Cache
    requires i <= |es|
  {
    Run(c, es[..i])
  }

  function WriteCount(c: Cache, es: seq<Event>): nat {
    if es == [] then 0
    else
      var n := |es| - 1;
      WriteCount(c, es[..n]) + if Writes(Run(c, es[..n]), es[n]) then 1 else 0
  }

  // The last event that touched the key, or -1.
  function LastTouch(c: Cache, es: seq<Event>, key: Key): (i: int)
    ensures -1 <= i < |es|
  {
    if es == [] then -1
    else
      var n := |es| - 1;
      if Touches(Run(c, es[..n]), es[n]) && es[n].key == key then n else LastTouch(c, es[..n], key)
  }

  // The last event that recorded a target for the key under the current configuration, or -1.
  function LastWrite(c: Cache, es: seq<Event>, key: Key): (i: int)
    ensures -1 <= i < |es|
    ensures 0 <= i ==> es[i].Recorded? && es[i].key == key
  {
    if es == [] then -1
    else
      var n := |es| - 1;
      if Clears(Run(c, es[..n]), es[n]) then -1
      else if Writes(Run(c, es[..n]), es[n]) && es[n].key == key then n
      else LastWrite(c, es[..n], key)
  }

  // The keys touched by events after the m-th.
  function TouchedSince(c: Cache, es: seq<Event>, m: int): set<Key> {
    if es == [] || |es| - 1 <= m then {}
    else
      var n := |es| - 1;
      TouchedSince(c, es[..n], m) + if Touches(Run(c, es[..n]), es[n]) then {es[n].key} else {}
  }

  // ---- shape ----------------------------------------------------------------------

  predicate Shaped(c: Cache) {
    && Distinct(c.slots)
    && (|c.slots| == 0 || |c.slots| <= c.capacity)
    && forall s :: s in c.slots ==> s.key != "" && ValidTarget(s.target)
  }

  lemma FrontShaped(c: Cache, s: Slot)
    requires Shaped(c) && s.key != "" && ValidTarget(s.target)
    requires Get(c.slots, s.key).Some?
    ensures Shaped(Front(c, s))
  {
    WithoutKeeps(c.slots, s.key);
    var rest := Without(c.slots, s.key);
    assert forall i :: 0 <= i < |rest| ==> rest[i] in rest;
  }

  lemma PurgedShaped(c: Cache, key: Key, now: int)
    requires Shaped(c)
    ensures Shaped(Purged(c, key, now)) && |Purged(c, key, now).slots| <= |c.slots|
    ensures !Live(c, key, now) ==> Get(Purged(c, key, now).slots, key).None?
    ensures forall s :: s in Purged(c, key, now).slots ==> s in c.slots
    ensures forall s :: s in c.slots && s.key != key ==> s in Purged(c, key, now).slots
  {
    WithoutKeeps(c.slots, key);
  }

  lemma InsertedShaped(c: Cache, key: Key, target: Target, now: int)
    requires Shaped(c) && Get(c.slots, key).None? && key != "" && ValidTarget(target) && c.capacity > 0
    ensures Shaped(Inserted(c, key, target, now))
  {
    var after := Inserted(c, key, target, now).slots;
    assert forall i :: 1 <= i < |after| ==> after[i] == c.slots[i - 1];
  }

  lemma StepShaped(c: Cache, e: Event)
    requires Shaped(c)
    ensures Shaped(Step(c, e))
  {
    match e
    case Configured(_, _, _) =>
    case Looked(key, now) =>
      if key != "" {
        if Live(c, key, now) {
          FrontShaped(c, Get(c.slots, key).value);
        } else {
          PurgedShaped(c, key, now);
        }
      }
    case Recorded(key, observed, target, now) =>
      if Accepted(c, key, observed, target, now) {
        if Live(c, key, now) {
          FrontShaped(c, Slot(key, target, Advance(c.nextVersion), now + c.ttl));
        } else {
          PurgedShaped(c, key, now);
          InsertedShaped(Purged(c, key, now), key, target, now);
        }
      }
  }

  // Over any run, one slot per key, never more slots than the capacity.
  lemma {:induction false} RunShaped(capacity: int, ttl: int, es: seq<Event>)
    ensures Shaped(Run(New(capacity, ttl), es))
  {
    if es != [] {
      RunShaped(capacity, ttl, es[..|es| - 1]);
      StepShaped(Run(New(capacity, ttl), es[..|es| - 1]), es[|es| - 1]);
    }
  }

  // ---- what a step leaves in the list ---------------------------------------------

  // Slots other than the event's own keep their contents and their relative order.
  lemma StepSlots(c: Cache, e: Event, s: Slot)
    requires Shaped(c) && s in Step(c, e).slots
    ensures !Clears(c, e)
    ensures Writes(c, e) && s.key == e.key ==>
              s == Slot(e.key, e.target, Step(c, e).nextVersion, e.now + c.ttl)
    ensures !(Writes(c, e) && s.key == e.key) ==> s in c.slots
  {
    match e
    case Configured(_, _, _) =>
    case Looked(key, now) =>
      WithoutKeeps(c.slots, key);
    case Recorded(key, observed, target, now) =>
      WithoutKeeps(c.slots, key);
      PurgedShaped(c, key, now);
      if Accepted(c, key, observed, target, now) && !Live(c, key, now) {
        InsertedSlots(Purged(c, key, now), key, target, now, s);
      }
  }

  lemma InsertedSlots(c: Cache, key: Key, target: Target, now: int, s: Slot)
    requires Shaped(c) && (forall i :: 0 <= i < |c.slots| ==> c.slots[i].key != key)
    requires s in Inserted(c, key, target, now).slots
    ensures s.key == key ==> s == Slot(key, target, Inserted(c, key, target, now).nextVersion, now + c.ttl)
    ensures s.key != key ==> s in c.slots
  {
    var after := Inserted(c, key, target, now).slots;
    assert forall i :: 1 <= i < |after| ==> after[i] == c.slots[i - 1];
  }

  lemma StepVersion(c: Cache, e: Event)
    ensures Step(c, e).nextVersion == if Writes(c, e) then Advance(c.nextVersion) else c.nextVersion
  {
  }

  // ---- versions -------------------------------------------------------------------

  lemma {:induction false} VersionCounts(capacity: int, ttl: int, es: seq<Event>)
    requires WriteCount(New(capacity, ttl), es) < VERSIONS
    ensures Run(New(capacity, ttl), es).nextVersion == WriteCount(New(capacity, ttl), es)
  {
    if es != [] {
      hide Writes, Step;
      VersionCounts(capacity, ttl, es[..|es| - 1]);
      StepVersion(Run(New(capacity, ttl), es[..|es| - 1]), es[|es| - 1]);
    }
  }

  lemma {:induction false} CountsGrow(c: Cache, es: seq<Event>, i: nat)
    requires i <= |es|
    ensures WriteCount(c, es[..i]) <= WriteCount(c, es)
    decreases |es|
  {
    if i < |es| {
      var n := |es| - 1;
      CountsGrow(c, es[..n], i);
      assert es[..n][..i] == es[..i];
    } else {
      assert es[..i] == es;
    }
  }

  lemma CountedAt(c: Cache, es: seq<Event>, i: nat)
    requires i < |es| && Writes(Before(c, es, i), es[i])
    ensures WriteCount(c, es[..i + 1]) == WriteCount(c, es[..i]) + 1
  {
    assert es[..i + 1][..i] == es[..i];
  }

  // A version is given to one write only, whatever happens between two writes.
  lemma VersionsNeverReused(capacity: int, ttl: int, es: seq<Event>, i: nat, j: nat)
    requires WriteCount(New(capacity, ttl), es) < VERSIONS
    requires i < j < |es|
    requires Writes(Before(New(capacity, ttl), es, i), es[i])
    requires Writes(Before(New(capacity, ttl), es, j), es[j])
    ensures 0 < Before(New(capacity, ttl), es, i + 1).nextVersion < Before(New(capacity, ttl), es, j + 1).nextVersion
  {
    hide Step, Writes, Run, WriteCount;
    var c := New(capacity, ttl);
    CountedAt(c, es, i);
    CountedAt(c, es, j);
    CountsGrow(c, es, i + 1);
    CountsGrow(c, es, j + 1);
    VersionCounts(capacity, ttl, es[..i + 1]);
    VersionCounts(capacity, ttl, es[..j + 1]);
    CountsGrow(c, es[..j], i + 1);
    assert es[..j][..i + 1] == es[..i + 1];
  }

  // ---- what a slot remembers -------------------------------------------------------

  ghost predicate Remembers(c: Cache, es: seq<Event>, s: Slot) {
    var w := LastWrite(c, es, s.key);
    && 0 <= w
    && Writes(Run(c, es[..w]), es[w]) && es[w].key == s.key
    && s.target == es[w].target
    && s.version == Run(c, es[..w + 1]).nextVersion
    && s.expiresAt == es[w].now + Run(c, es[..w]).ttl
    && Run(c, es[..w]).ttl == Run(c, es).ttl
    && Run(c, es[..w]).revision == Run(c, es).revision
  }

  lemma RemembersLater(c: Cache, es: seq<Event>, s: Slot)
    requires es != []
    requires Remembers(c, es[..|es| - 1], s)
    requires !Clears(Run(c, es[..|es| - 1]), es[|es| - 1])
    requires !(Writes(Run(c, es[..|es| - 1]), es[|es| - 1]) && es[|es| - 1].key == s.key)
    ensures Remembers(c, es, s)
  {
    hide Record, Lookup, Accepted;
    var n := |es| - 1;
    var w := LastWrite(c, es[..n], s.key);
    assert es[..n][..w] == es[..w] && es[..n][..w + 1] == es[..w + 1];
    StepKeeps(Run(c, es[..n]), es[n]);
  }

  lemma StepKeeps(c: Cache, e: Event)
    requires !Clears(c, e)
    ensures Step(c, e).ttl == c.ttl && Step(c, e).revision == c.revision && Step(c, e).capacity == c.capacity
  {
  }

  // Every slot holds what the last accepted record of the current configuration wrote.
  lemma {:induction false} SlotsRemember(capacity: int, ttl: int, es: seq<Event>, s: Slot)
    requires s in Run(New(capacity, ttl), es).slots
    ensures Remembers(New(capacity, ttl), es, s)
  {
    var c := New(capacity, ttl);
    var n := |es| - 1;
    RunShaped(capacity, ttl, es[..n]);
    StepSlots(Run(c, es[..n]), es[n], s);
    if Writes(Run(c, es[..n]), es[n]) && es[n].key == s.key {
      assert es[..n + 1] == es;
      StepKeeps(Run(c, es[..n]), es[n]);
    } else {
      SlotsRemember(capacity, ttl, es[..n], s);
      RemembersLater(c, es, s);
    }
  }

  // A hit returns the latest target recorded under this configuration, still within its lifetime.
  lemma HitIsLatest(capacity: int, ttl: int, es: seq<Event>, key: Key, now: int)
    requires Observed(Run(New(capacity, ttl), es), key, now).found
    ensures var c := New(capacity, ttl);
            var o := Observed(Run(c, es), key, now);
            var w := LastWrite(c, es, key);
            && 0 <= w && Writes(Run(c, es[..w]), es[w]) && es[w].key == key
            && o.target == es[w].target
            && o.revision == Run(c, es).revision == Run(c, es[..w]).revision
            && now < es[w].now + Run(c, es).ttl
  {
    var c := New(capacity, ttl);
    SlotsRemember(capacity, ttl, es, Get(Run(c, es).slots, key).value);
  }

  // ---- conditional updates ----------------------------------------------------------

  lemma {:induction false} LastWriteIsLast(c: Cache, es: seq<Event>, key: Key, i: nat)
    requires LastWrite(c, es, key) < i < |es|
    requires 0 <= LastWrite(c, es, key)
    ensures !Clears(Run(c, es[..i]), es[i])
    ensures !(Writes(Run(c, es[..i]), es[i]) && es[i].key == key)
  {
    hide Step, Accepted, Replaces;
    var n := |es| - 1;
    if i < n {
      LastWriteIsLast(c, es[..n], key, i);
      assert es[..n][..i] == es[..i];
    }
  }

  // A live mapping is replaced only if, since the lookup whose observation is presented, nobody
  // recorded a target for the key and no configuration took effect.
  lemma ReplacesOnlyWhatWasSeen(capacity: int, ttl: int, es: seq<Event>, p: nat, q: nat, i: nat)
    requires WriteCount(New(capacity, ttl), es) < VERSIONS
    requires p < i < q < |es|
    requires es[p].Looked? && es[q].Recorded?
    requires es[q].observed == Observed(Before(New(capacity, ttl), es, p), es[p].key, es[p].now)
    requires Writes(Before(New(capacity, ttl), es, q), es[q])
    requires Live(Before(New(capacity, ttl), es, q), es[q].key, es[q].now)
    ensures !Clears(Before(New(capacity, ttl), es, i), es[i])
    ensures !(Writes(Before(New(capacity, ttl), es, i), es[i]) && es[i].key == es[q].key)
  {
    hide Step, Run, WriteCount, LastWrite, Clears;
    var c := New(capacity, ttl);
    var key := es[q].key;
    var seen := Get(Run(c, es[..p]).slots, key).value;
    var live := Get(Run(c, es[..q]).slots, key).value;
    SlotsRemember(capacity, ttl, es[..p], seen);
    SlotsRemember(capacity, ttl, es[..q], live);
    var w := LastWrite(c, es[..p], key);
    var v := LastWrite(c, es[..q], key);
    assert es[..p][..w] == es[..w] && es[..p][..w + 1] == es[..w + 1];
    assert es[..q][..v] == es[..v] && es[..q][..v + 1] == es[..v + 1];
    if v < w {
      VersionsNeverReused(capacity, ttl, es, v, w);
    } else if w < v {
      VersionsNeverReused(capacity, ttl, es, w, v);
    }
    assert es[..q][..i] == es[..i];
    LastWriteIsLast(c, es[..q], key, i);
  }

  // ---- recency --------------------------------------------------------------------

  // Newer in the list means touched later.
  ghost predicate Ordered(c: Cache, es: seq<Event>, slots: seq<Slot>) {
    && (forall i, j :: 0 <= i < j < |slots| ==> LastTouch(c, es, slots[j].key) < LastTouch(c, es, slots[i].key))
    && forall i :: 0 <= i < |slots| ==> 0 <= LastTouch(c, es, slots[i].key)
  }

  lemma WithoutOrdered(c: Cache, es: seq<Event>, slots: seq<Slot>, key: Key)
    requires Ordered(c, es, slots) && Distinct(slots)
    ensures Ordered(c, es, Without(slots, key))
  {
    hide LastTouch, Without, Get;
    if Get(slots, key).Some? {
      var i :| 0 <= i < |slots| && slots[i] == Get(slots, key).value;
      WithoutAt(slots, i);
    } else {
      WithoutAbsent(slots, key);
    }
  }

  // One more event that touches none of these keys leaves their order alone.
  lemma OrderedUntouched(c: Cache, es: seq<Event>, slots: seq<Slot>)
    requires es != [] && Ordered(c, es[..|es| - 1], slots)
    requires Touches(Run(c, es[..|es| - 1]), es[|es| - 1]) ==>
               forall i :: 0 <= i < |slots| ==> slots[i].key != es[|es| - 1].key
    ensures Ordered(c, es, slots)
  {
  }

  // A touched key in front of untouched ones.
  lemma OrderedFront(c: Cache, es: seq<Event>, s: Slot, rest: seq<Slot>)
    requires es != [] && Ordered(c, es[..|es| - 1], rest)
    requires Touches(Run(c, es[..|es| - 1]), es[|es| - 1]) && s.key == es[|es| - 1].key
    requires forall i :: 0 <= i < |rest| ==> rest[i].key != s.key
    ensures Ordered(c, es, [s] + rest)
  {
    OrderedUntouched(c, es, rest);
    assert LastTouch(c, es, s.key) == |es| - 1;
    assert forall i :: 0 <= i < |rest| ==> LastTouch(c, es, rest[i].key) == LastTouch(c, es[..|es| - 1], rest[i].key);
  }

  // The list after an event: what was touched, then what is left of the others.
  lemma TouchedInFront(c: Cache, e: Event)
    requires Shaped(c) && Touches(c, e)
    ensures !e.Configured?
    ensures var after := Step(c, e).slots;
            && |after| > 0 && after[0].key == e.key
            && |after| - 1 <= |Without(c.slots, e.key)|
            && after[1..] == Without(c.slots, e.key)[..|after| - 1]
  {
    if !Live(c, e.key, e.now) {
      PurgedIsWithout(c, e.key, e.now);
    }
  }

  lemma UntouchedList(c: Cache, e: Event)
    requires Shaped(c) && !Touches(c, e)
    ensures Step(c, e).slots == c.slots || Step(c, e).slots == [] ||
            (!e.Configured? && Step(c, e).slots == Without(c.slots, e.key))
  {
  }

  lemma StepOrdered(c: Cache, es: seq<Event>)
    requires es != []
    requires Shaped(Run(c, es[..|es| - 1]))
    requires Ordered(c, es[..|es| - 1], Run(c, es[..|es| - 1]).slots)
    ensures Ordered(c, es, Run(c, es).slots)
  {
    hide Step, Touches, LastTouch, Without, Get;
    var n := |es| - 1;
    var init, e := es[..n], es[n];
    var b := Run(c, init);
    var after := Run(c, es).slots;
    if !e.Configured? {
      WithoutOrdered(c, init, b.slots, e.key);
      WithoutKeeps(b.slots, e.key);
    }
    if Touches(b, e) {
      TouchedInFront(b, e);
      var room := after[1..];
      assert forall i :: 0 <= i < |room| ==> room[i] in Without(b.slots, e.key);
      OrderedFront(c, es, after[0], room);
      assert after == [after[0]] + room;
    } else {
      UntouchedList(b, e);
      OrderedUntouched(c, es, after);
    }
  }

  lemma PurgedIsWithout(c: Cache, key: Key, now: int)
    requires !Live(c, key, now)
    ensures Purged(c, key, now).slots == Without(c.slots, key)
  {
    if Get(c.slots, key).None? {
      WithoutAbsent(c.slots, key);
    }
  }

  // Over any run the list is in the order of the keys' last uses.
  lemma {:induction false} RunOrdered(capacity: int, ttl: int, es: seq<Event>)
    ensures Ordered(New(capacity, ttl), es, Run(New(capacity, ttl), es).slots)
  {
    if es != [] {
      RunOrdered(capacity, ttl, es[..|es| - 1]);
      RunShaped(capacity, ttl, es[..|es| - 1]);
      StepOrdered(New(capacity, ttl), es);
    }
  }

  lemma {:induction false} TouchedLater(c: Cache, es: seq<Event>, m: int, key: Key)
    requires -1 <= m < LastTouch(c, es, key)
    ensures key in TouchedSince(c, es, m)
  {
    var n := |es| - 1;
    if !(Touches(Run(c, es[..n]), es[n]) && es[n].key == key) {
      TouchedLater(c, es[..n], m, key);
    }
  }

  function Keys(slots: seq<Slot>): set<Key> {
    set s | s in slots :: s.key
  }

  lemma {:induction false} KeysCount(slots: seq<Slot>)
    requires Distinct(slots)
    ensures |Keys(slots)| == |slots|
  {
    if slots != [] {
      KeysCount(slots[1..]);
      assert forall s :: s in slots <==> s == slots[0] || s in slots[1..];
      assert Keys(slots) == {slots[0].key} + Keys(slots[1..]);
    }
  }

  lemma SubsetCount<T>(a: set<T>, b: set<T>)
    requires a <= b
    ensures |a| <= |b|
  {
    assert b == a + (b - a);
  }

  lemma InsertedKeeps(c: Cache, key: Key, target: Target, now: int, s: Slot)
    requires Shaped(c) && s in c.slots && c.capacity > 0
    ensures s in Inserted(c, key, target, now).slots || (|c.slots| == c.capacity && c.slots[|c.slots| - 1] == s)
  {
    var after := Inserted(c, key, target, now).slots;
    var j :| 0 <= j < |c.slots| && c.slots[j] == s;
    assert j < |after| - 1 ==> after[j + 1] == s;
  }

  // A record keeps every other slot but the back of a full list.
  lemma RecordKeeps(c: Cache, e: Event, s: Slot)
    requires Shaped(c) && e.Recorded? && s in c.slots && e.key != s.key
    ensures s in Step(c, e).slots ||
            (Writes(c, e) && Get(c.slots, e.key).None? && |c.slots| == c.capacity && c.slots[|c.slots| - 1] == s)
  {
    hide Inserted, Distinct, Without, Get;
    WithoutKeeps(c.slots, e.key);
    if Writes(c, e) && !Live(c, e.key, e.now) {
      PurgedShaped(c, e.key, e.now);
      InsertedKeeps(Purged(c, e.key, e.now), e.key, e.target, e.now, s);
    }
  }

  lemma EvictedFromBack(c: Cache, e: Event, x: Key)
    requires Shaped(c) && e.Recorded? && e.key != x
    requires x in Keys(c.slots) && x !in Keys(Step(c, e).slots)
    ensures Writes(c, e) && e.key !in Keys(c.slots)
    ensures |c.slots| == c.capacity && c.slots[|c.slots| - 1].key == x
  {
    hide Step, Writes, Distinct;
    var s :| s in c.slots && s.key == x;
    RecordKeeps(c, e, s);
  }

  lemma CountOthers(slots: seq<Slot>, extra: Key, since: set<Key>)
    requires Distinct(slots) && slots != [] && extra !in Keys(slots)
    requires forall k :: k in Keys(slots[..|slots| - 1]) || k == extra ==> k in since
    ensures |since - {slots[|slots| - 1].key}| >= |slots|
  {
    var others := slots[..|slots| - 1];
    var x := slots[|slots| - 1];
    KeysCount(others);
    assert x in slots;
    assert forall o :: o in others ==> o in slots;
    assert x.key !in Keys(others);
    SubsetCount(Keys(others) + {extra}, since - {x.key});
  }

  // The other keys of the list, and the one just written, were all touched after the back of it.
  lemma OthersTouched(c: Cache, es: seq<Event>, slots: seq<Slot>, k: Key)
    requires es != [] && slots != [] && Ordered(c, es[..|es| - 1], slots)
    requires Touches(Run(c, es[..|es| - 1]), es[|es| - 1]) && es[|es| - 1].Recorded?
    requires es[|es| - 1].key !in Keys(slots)
    requires k in Keys(slots[..|slots| - 1]) || k == es[|es| - 1].key
    ensures var m := LastTouch(c, es, slots[|slots| - 1].key);
            0 <= m && k in TouchedSince(c, es, m)
  {
    hide Step, Touches, TouchedSince, Run;
    var m := LastTouch(c, es, slots[|slots| - 1].key);
    assert slots[|slots| - 1] in slots;
    if k != es[|es| - 1].key {
      var i :| 0 <= i < |slots| - 1 && slots[i].key == k;
      assert slots[i] in slots;
    }
    TouchedLater(c, es, m, k);
  }

  // An eviction means at least `capacity` other keys were touched since the victim's last touch.
  lemma EvictionNeedsDistinctTouches(capacity: int, ttl: int, es: seq<Event>, x: Key)
    requires es != [] && es[|es| - 1].Recorded? && es[|es| - 1].key != x
    requires x in Keys(Run(New(capacity, ttl), es[..|es| - 1]).slots)
    requires x !in Keys(Run(New(capacity, ttl), es).slots)
    ensures var c := New(capacity, ttl);
            var m := LastTouch(c, es, x);
            0 <= m && |TouchedSince(c, es, m) - {x}| >= Run(c, es).capacity
  {
    hide Step, Touches, Without, Get, TouchedSince, LastTouch, Ordered, Keys;
    var c := New(capacity, ttl);
    var n := |es| - 1;
    var init, e := es[..n], es[n];
    var b := Run(c, init);
    RunShaped(capacity, ttl, init);
    RunOrdered(capacity, ttl, init);
    EvictedFromBack(b, e, x);
    WriteTouches(b, e);
    var m := LastTouch(c, es, x);
    forall k | k in Keys(b.slots[..|b.slots| - 1]) || k == e.key
      ensures k in TouchedSince(c, es, m)
    {
      OthersTouched(c, es, b.slots, k);
    }
    OthersTouched(c, es, b.slots, e.key);
    CountOthers(b.slots, e.key, TouchedSince(c, es, m));
  }

  lemma WriteTouches(c: Cache, e: Event)
    requires Writes(c, e)
    ensures Touches(c, e) && Step(c, e).capacity == c.capacity
  {
  }
}
