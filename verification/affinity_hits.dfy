/**
  The converse of a hit being the latest record: a mapping recorded recently enough, of a key used
  recently enough, is found, over every run that starts empty.
*/
module AffinityHits {
  import opened AffinityModel
  import opened AffinityRuns

  // The key is there, or as many other keys as fit were touched since its last touch.
  ghost predicate HeldOrCrowded(c: Cache, es: seq<Event>, key: Key) {
    key in Keys(Run(c, es).slots) ||
    |TouchedSince(c, es, LastTouch(c, es, key)) - {key}| >= Run(c, es).capacity
  }

  // An event of the key that comes before `deadline`, if it is a lookup or a record.
  predicate InTime(e: Event, key: Key, deadline: int) {
    !e.Configured? && e.key == key ==> e.now < deadline
  }

  // A lookup takes no other key out of the cache, and its own only when that is overdue.
  lemma LookupRemovesOverdue(c: Cache, key: Key, now: int, s: Slot)
    requires Shaped(c) && s in c.slots
    ensures s.key != key ==> s in Lookup(c, key, now).slots
    ensures s.key == key ==> (s in Lookup(c, key, now).slots <==> now < s.expiresAt)
  {
    WithoutKeeps(c.slots, key);
    if s.key == key {
      var i :| 0 <= i < |c.slots| && c.slots[i] == s;
      GetAt(c.slots, i);
    }
  }

  // A step leaves a slot in place unless it replaces the configuration, evicts it from the back of a
  // full list, or comes for its key once it is overdue.
  lemma StepHolds(c: Cache, e: Event, s: Slot)
    requires Shaped(c) && s in c.slots && !Clears(c, e) && InTime(e, s.key, s.expiresAt)
    requires !(Writes(c, e) && e.key == s.key)
    ensures s.key in Keys(Step(c, e).slots) || (e.Recorded? && e.key != s.key)
  {
    hide Without, Get, Distinct, Inserted, Front;
    match e
    case Configured(_, _, _) =>
    case Looked(key, now) =>
      LookupRemovesOverdue(c, key, now, s);
    case Recorded(key, observed, target, now) =>
      if key == s.key {
        LiveSlot(c, s, now);
      }
  }

  lemma LiveSlot(c: Cache, s: Slot, now: int)
    requires Shaped(c) && s in c.slots && now < s.expiresAt
    ensures Live(c, s.key, now)
  {
    var i :| 0 <= i < |c.slots| && c.slots[i] == s;
    GetAt(c.slots, i);
  }

  // Nothing but a record brings a key into the cache.
  lemma StepBringsNothing(c: Cache, e: Event, key: Key)
    requires Shaped(c) && key !in Keys(c.slots) && !(Writes(c, e) && e.key == key)
    ensures key !in Keys(Step(c, e).slots)
    ensures Touches(c, e) ==> e.key != key
  {
    hide Step, Writes;
    if key in Keys(Step(c, e).slots) {
      var s :| s in Step(c, e).slots && s.key == key;
      StepSlots(c, e, s);
      assert false;
    }
    var held := Get(c.slots, key);
    assert held.Some? ==> held.value in c.slots;
  }

  lemma MoreTouched(c: Cache, es: seq<Event>, key: Key)
    requires es != []
    ensures var n := |es| - 1;
            !(Touches(Run(c, es[..n]), es[n]) && es[n].key == key) ==>
              && LastTouch(c, es, key) == LastTouch(c, es[..n], key)
              && TouchedSince(c, es[..n], LastTouch(c, es[..n], key)) <= TouchedSince(c, es, LastTouch(c, es, key))
  {
  }

  // One more event, neither a record of the key nor a new configuration nor too late for the key.
  lemma HeldNext(capacity: int, ttl: int, es: seq<Event>, key: Key, deadline: int)
    requires es != []
    requires var c := New(capacity, ttl);
             var b, e := Run(c, es[..|es| - 1]), es[|es| - 1];
             && HeldOrCrowded(c, es[..|es| - 1], key)
             && !Clears(b, e) && !(Writes(b, e) && e.key == key) && InTime(e, key, deadline)
             && forall s :: s in b.slots && s.key == key ==> s.expiresAt == deadline
    ensures HeldOrCrowded(New(capacity, ttl), es, key)
  {
    hide Step, Touches, Writes, Clears, TouchedSince, LastTouch, Shaped;
    var c := New(capacity, ttl);
    var n := |es| - 1;
    var b, e := Run(c, es[..n]), es[n];
    RunShaped(capacity, ttl, es[..n]);
    StepKeeps(b, e);
    if key in Keys(b.slots) {
      var s :| s in b.slots && s.key == key;
      StepHolds(b, e, s);
      if key !in Keys(Step(b, e).slots) {
        EvictionNeedsDistinctTouches(capacity, ttl, es, key);
      }
    } else {
      StepBringsNothing(b, e, key);
      MoreTouched(c, es, key);
      SubsetCount(TouchedSince(c, es[..n], LastTouch(c, es[..n], key)) - {key}, TouchedSince(c, es, LastTouch(c, es, key)) - {key});
    }
  }

  lemma WrittenIsHeld(c: Cache, e: Event)
    requires Shaped(c) && Writes(c, e)
    ensures e.key in Keys(Step(c, e).slots)
  {
    var after := Step(c, e).slots;
    assert after[0].key == e.key && after[0] in after;
  }

  // Since its last record the key is held, or crowded out.
  lemma {:induction false} HeldSinceWrite(capacity: int, ttl: int, es: seq<Event>, key: Key)
    requires var c := New(capacity, ttl);
             var w := LastWrite(c, es, key);
             && 0 <= w
             && forall i :: w < i < |es| ==> InTime(es[i], key, es[w].now + Run(c, es).ttl)
    ensures HeldOrCrowded(New(capacity, ttl), es, key)
  {
    hide Step, Writes, Clears, Touches, HeldOrCrowded, Shaped, Keys, InTime;
    var c := New(capacity, ttl);
    var n := |es| - 1;
    var b, e := Run(c, es[..n]), es[n];
    RunShaped(capacity, ttl, es[..n]);
    if LastWrite(c, es, key) == n {
      WrittenHolds(c, es, key);
    } else {
      var w := LastWrite(c, es[..n], key);
      StepKeeps(b, e);
      forall i | w < i < n ensures InTime(es[..n][i], key, es[..n][w].now + b.ttl) {
        assert InTime(es[i], key, es[w].now + Run(c, es).ttl);
      }
      HeldSinceWrite(capacity, ttl, es[..n], key);
      forall s | s in b.slots && s.key == key ensures s.expiresAt == es[w].now + b.ttl {
        SlotsRemember(capacity, ttl, es[..n], s);
      }
      assert InTime(es[n], key, es[w].now + b.ttl);
      HeldNext(capacity, ttl, es, key, es[w].now + b.ttl);
    }
  }

  lemma WrittenHolds(c: Cache, es: seq<Event>, key: Key)
    requires es != [] && Shaped(Run(c, es[..|es| - 1])) && LastWrite(c, es, key) == |es| - 1
    ensures HeldOrCrowded(c, es, key)
  {
    WrittenIsHeld(Run(c, es[..|es| - 1]), es[|es| - 1]);
  }

  // The key's last record under the current configuration is event w; no lookup or record of the key
  // came later than its lifetime; fewer other keys than fit were touched since the key's last touch.
  // Then a lookup within the lifetime finds the target of w.
  lemma RecentIsFound(capacity: int, ttl: int, es: seq<Event>, key: Key, now: int)
    requires var c := New(capacity, ttl);
             var w := LastWrite(c, es, key);
             && 0 <= w
             && (forall i :: w < i < |es| && !es[i].Configured? && es[i].key == key ==> es[i].now < es[w].now + Run(c, es).ttl)
             && |TouchedSince(c, es, LastTouch(c, es, key)) - {key}| < Run(c, es).capacity
             && now < es[w].now + Run(c, es).ttl
    ensures var c := New(capacity, ttl);
            var o := Observed(Run(c, es), key, now);
            o.found && o.target == es[LastWrite(c, es, key)].target
  {
    hide Step, Writes, Clears, Touches, TouchedSince, LastTouch, LastWrite;
    var c := New(capacity, ttl);
    HeldSinceWrite(capacity, ttl, es, key);
    var s :| s in Run(c, es).slots && s.key == key;
    RunShaped(capacity, ttl, es);
    SlotsRemember(capacity, ttl, es, s);
    assert s.key != "";
    LiveSlot(Run(c, es), s, now);
    var i :| 0 <= i < |Run(c, es).slots| && Run(c, es).slots[i] == s;
    GetAt(Run(c, es).slots, i);
  }
}
