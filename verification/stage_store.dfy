/**
  The transaction that consumes stages, over the two tables it changes in place.
*/
module StageStore {
  import opened Wrappers
  import opened StageModel
  import opened StageConsumption
  import R = StageReference

  // What else may go wrong while one stage is processed: a statement fails, or another
  // transaction got to the credential or to the stage first.
  datatype Trouble = Fine | DatabaseFails | CredentialChanged | StageChanged

  predicate Consumable(row: Stage, channel: string, now: int) {
    row.channel == channel && row.status == Ready && now < row.expiresAt && row.identity != ""
  }

  function Refusal(row: Stage, channel: string, now: int): Option<Fault> {
    if row.channel != channel then Some(Mismatch)
    else if row.status == Consumed then Some(AlreadyConsumed)
    else if row.status != Ready then Some(NotReady)
    else if now >= row.expiresAt then Some(Overdue)
    else if row.identity == "" then Some(Mismatch)
    else None
  }

  ghost predicate LoadedFrom(stages: map<string, Stage>, channel: string, ids: seq<string>, now: int, batch: seq<Loaded>) {
    && |batch| == |ids|
    && forall i :: 0 <= i < |ids| ==>
         && ids[i] in stages && batch[i] == Loaded(ids[i], stages[ids[i]])
         && Consumable(stages[ids[i]], channel, now)
  }

  // Why a stage that is there cannot be consumed now.
  predicate Refused(row: Stage, channel: string, now: int, fault: Fault) {
    if row.channel != channel then fault == Mismatch
    else match row.status
      case Ready =>
        && fault == (if now < row.expiresAt then Mismatch else Overdue)
        && (now < row.expiresAt ==> row.identity == "")
      case Consumed => fault == AlreadyConsumed
      case _ => fault == NotReady
  }

  // A stage is missing; or all are there, and this is about the first that cannot be consumed now.
  ghost predicate NotLoaded(stages: map<string, Stage>, channel: string, ids: seq<string>, now: int, fault: Fault) {
    if forall i :: 0 <= i < |ids| ==> ids[i] in stages then
      exists i :: && 0 <= i < |ids| && Refused(stages[ids[i]], channel, now, fault)
                  && forall j :: 0 <= j < i ==> Consumable(stages[ids[j]], channel, now)
    else fault == NotReady
  }

  lemma RefusalMeans(row: Stage, channel: string, now: int)
    ensures Refusal(row, channel, now).None? <==> Consumable(row, channel, now)
    ensures forall fault :: Refusal(row, channel, now) == Some(fault) <==> Refused(row, channel, now, fault)
  {
  }

  lemma LoadedFacts(stages: map<string, Stage>, channel: string, ids: seq<string>, now: int, batch: seq<Loaded>)
    requires LoadedFrom(stages, channel, ids, now, batch)
    requires forall i, j :: 0 <= i < j < |ids| ==> ids[i] != ids[j]
    ensures Apart(batch) && |batch| == |ids|
    ensures forall i :: 0 <= i < |batch| ==>
                          batch[i].id in stages && stages[batch[i].id] == batch[i].row && batch[i].row.status == Ready
  {
  }

  // What the batch may repair: a broken credential of a stage that is not skipped.
  ghost predicate Repairs(c: Credentials, group: nat, batch: seq<Loaded>, replacements: map<string, Existing>, i: nat)
    requires i < |batch|
  {
    var id, identity := batch[i].id, batch[i].row.identity;
    && (id in replacements <==> !Skipped(c, group, batch, i) && Present(c, group, identity))
    && (id in replacements ==>
          && Has(c, group, identity, replacements[id].row) && Replaceable(c[replacements[id].row].state)
          && c[replacements[id].row].version == replacements[id].version)
  }

  lemma SkippedPrefix(c: Credentials, group: nat, batch: seq<Loaded>, i: nat)
    requires i < |batch|
    ensures Skipped(c, group, batch[..i + 1], i) == Skipped(c, group, batch, i)
    ensures Skipped(c, group, batch, i) <==>
              Occupied(c, group, batch[i].row.identity) || Names(batch[..i], batch[i].row.identity)
    ensures SkippedIds(c, group, batch[..i + 1]) ==
            SkippedIds(c, group, batch[..i]) + if Skipped(c, group, batch, i) then [batch[i].id] else []
  {
    assert batch[..i + 1][..i] == batch[..i];
    NamesNext(batch, i, batch[i].row.identity);
    assert Repeated(batch[..i + 1], i) == Repeated(batch, i);
  }

  // The identities that a stage after the first i would be skipped for.
  ghost predicate SeenUpTo(c: Credentials, group: nat, batch: seq<Loaded>, i: nat, seen: set<string>)
    requires i <= |batch|
  {
    forall x :: Names(batch, x) ==> (x in seen <==> Occupied(c, group, x) || Names(batch[..i], x))
  }

  lemma SeenNext(c: Credentials, group: nat, batch: seq<Loaded>, i: nat, seen: set<string>)
    requires i < |batch| && SeenUpTo(c, group, batch, i, seen)
    ensures Names(batch, batch[i].row.identity)
    ensures batch[i].row.identity in seen <==> Skipped(c, group, batch, i)
    ensures SeenUpTo(c, group, batch, i + 1, seen + {batch[i].row.identity})
  {
    hide Occupied, Skipped, SkippedIds;
    SkippedPrefix(c, group, batch, i);
    var next := batch[..i + 1];
    forall x ensures Names(next, x) <==> Names(batch[..i], x) || x == batch[i].row.identity {
      NamesNext(batch, i, x);
    }
  }

  lemma NothingYet(c: Credentials, group: nat, batch: seq<Loaded>, seen: set<string>)
    requires forall x :: Names(batch, x) ==> (x in seen <==> Occupied(c, group, x))
    ensures SeenUpTo(c, group, batch, 0, seen) && SkippedIds(c, group, batch[..0]) == []
  {
  }

  lemma HasIsPresent(c: Credentials, group: nat, identity: string, r: nat)
    requires Has(c, group, identity, r)
    ensures Present(c, group, identity)
  {
  }

  ghost predicate RepairsUpTo(c: Credentials, group: nat, batch: seq<Loaded>, i: nat, replacements: map<string, Existing>)
    requires i <= |batch|
  {
    && (forall j :: 0 <= j < i ==> Repairs(c, group, batch, replacements, j))
    && (forall j :: i <= j < |batch| ==> batch[j].id !in replacements)
  }

  lemma RepairsNext(c: Credentials, group: nat, batch: seq<Loaded>, i: nat,
                    replacements: map<string, Existing>, next: map<string, Existing>)
    requires i < |batch| && Apart(batch) && RepairsUpTo(c, group, batch, i, replacements)
    requires next - {batch[i].id} == replacements
    requires Repairs(c, group, batch, next, i)
    ensures RepairsUpTo(c, group, batch, i + 1, next)
  {
    hide Skipped, Present;
    forall j | 0 <= j < i ensures Repairs(c, group, batch, next, j) {
      assert Repairs(c, group, batch, replacements, j);
      assert batch[j].id in next <==> batch[j].id in replacements;
    }
  }

  lemma StartSettled(open: string -> Option<Secret>, group: nat, batch: seq<Loaded>, c: Credentials,
                     stages: map<string, Stage>, now: int)
    requires Unique(c)
    ensures Settled(open, group, batch[..0], c, c)
    ensures ConsumedBy(group, now, batch[..0], stages, stages)
    ensures SkippedIds(c, group, batch[..0]) == []
  {
  }

  lemma SettledIsUnique(open: string -> Option<Secret>, group: nat, batch: seq<Loaded>, before: Credentials, after: Credentials)
    requires Settled(open, group, batch, before, after)
    ensures Unique(after)
  {
  }

  lemma SkippedAt(c: Credentials, group: nat, batch: seq<Loaded>, i: nat)
    requires i < |batch| && Apart(batch)
    ensures batch[i].id in SkippedIds(c, group, batch) <==> Skipped(c, group, batch, i)
  {
    SkippedMembers(c, group, batch, batch[i].id);
  }

  // A stage that is not skipped leaves its credential behind, repaired or new.
  lemma SettleDelivered(open: string -> Option<Secret>, group: nat, batch: seq<Loaded>, i: nat, before: Credentials,
                        was: Credentials, replacements: map<string, Existing>, after: Credentials, row: nat, c: Credential)
    requires i < |batch| && Unique(before) && Settled(open, group, batch[..i], before, was)
    requires !Skipped(before, group, batch, i) && Repairs(before, group, batch, replacements, i)
    requires Delivers(open, group, batch[i], c)
    requires batch[i].id in replacements ==> row == replacements[batch[i].id].row &&
                                             c.version == replacements[batch[i].id].version + 1
    requires batch[i].id !in replacements ==> row !in was && c.version == 1
    requires after == was[row := c]
    ensures Settled(open, group, batch[..i + 1], before, after)
  {
    hide Settled;
    if batch[i].id in replacements {
      SettleRepaired(open, group, batch, i, before, was, row, c);
    } else {
      SettleAdded(open, group, batch, i, before, was, row, c);
    }
  }

  lemma NotYetConsumed(group: nat, now: int, batch: seq<Loaded>, i: nat, before: map<string, Stage>, stages: map<string, Stage>)
    requires i < |batch| && Apart(batch) && ConsumedBy(group, now, batch[..i], before, stages)
    requires batch[i].id in before && before[batch[i].id] == batch[i].row
    ensures batch[i].id in stages && stages[batch[i].id] == batch[i].row
  {
    assert !Listed(batch[..i], batch[i].id);
  }

  lemma OtherItem(group: nat, now: int, item: Loaded, before: map<string, Stage>, stages: map<string, Stage>,
                  id: string, row: Stage)
    requires ItemConsumed(group, now, item, before, stages) && item.id != id
    ensures ItemConsumed(group, now, item, before, stages[id := row])
  {
  }

  lemma ConsumeNext(group: nat, now: int, batch: seq<Loaded>, i: nat, before: map<string, Stage>,
                    stages: map<string, Stage>, row: Stage)
    requires i < |batch| && Apart(batch) && ConsumedBy(group, now, batch[..i], before, stages)
    requires batch[i].id in before && before[batch[i].id] == batch[i].row
    requires Some(row) == Consume(batch[i].row, group, now)
    ensures ConsumedBy(group, now, batch[..i + 1], before, stages[batch[i].id := row])
  {
    var next, id := batch[..i + 1], batch[i].id;
    var after := stages[id := row];
    assert ItemConsumed(group, now, batch[i], before, after);
    hide ItemConsumed, Consume;
    forall j | 0 <= j < |next| ensures ItemConsumed(group, now, next[j], before, after) {
      if j < i {
        assert ItemConsumed(group, now, batch[..i][j], before, stages);
        OtherItem(group, now, batch[j], before, stages, id, row);
      }
    }
    forall x | x in before && !Listed(next, x) ensures after[x] == before[x] {
      NotListed(batch, i, x);
    }
  }

  lemma NotListed(batch: seq<Loaded>, i: nat, x: string)
    requires i < |batch| && !Listed(batch[..i + 1], x)
    ensures !Listed(batch[..i], x) && batch[i].id != x
  {
    var next := batch[..i + 1];
    assert next[i] == batch[i];
    assert forall j :: 0 <= j < i ==> batch[..i][j] == next[j];
  }

  // ---- why a batch fails -----------------------------------------------------------------

  // The stage's payload does not hold the account it was staged for.
  predicate Unopened(open: string -> Option<Secret>, item: Loaded) {
    var secret := open(item.row.payload);
    secret.None? || secret.value.identity != item.row.identity
  }

  // Another identity of the group, as it was or as an earlier stage made it, has the same secret.
  ghost predicate SecretClash(open: string -> Option<Secret>, group: nat, batch: seq<Loaded>, before: Credentials, i: nat)
    requires i < |batch| && open(batch[i].row.payload).Some?
  {
    var fingerprint, identity := open(batch[i].row.payload).value.fingerprint, batch[i].row.identity;
    || (exists r :: r in before && before[r].group == group && before[r].fingerprint == fingerprint
                    && before[r].identity != identity)
    || (exists j :: 0 <= j < i && batch[j].row.identity != identity && open(batch[j].row.payload).Some?
                    && open(batch[j].row.payload).value.fingerprint == fingerprint)
  }

  // What made the i-th stage fail.
  ghost predicate Blamed(open: string -> Option<Secret>, group: nat, batch: seq<Loaded>, before: Credentials, i: nat,
                         trouble: Trouble, fault: Fault)
    requires i < |batch|
  {
    if Unopened(open, batch[i]) then fault == Mismatch
    else
      || (trouble == DatabaseFails && fault == Unavailable)
      || (trouble == CredentialChanged && fault == VersionConflict)
      || (trouble == StageChanged && fault == AlreadyConsumed)
      || (SecretClash(open, group, batch, before, i) &&
          fault == if Present(before, group, batch[i].row.identity) then DuplicateResource else DuplicateIdentity)
  }

  lemma ClashFound(open: string -> Option<Secret>, group: nat, batch: seq<Loaded>, i: nat, before: Credentials,
                   was: Credentials, replacements: map<string, Existing>, r: nat)
    requires i < |batch| && Unique(before) && Settled(open, group, batch[..i], before, was)
    requires !Skipped(before, group, batch, i) && Repairs(before, group, batch, replacements, i)
    requires r in was && was[r].group == group && open(batch[i].row.payload).Some?
    requires batch[i].id in replacements ==> r != replacements[batch[i].id].row
    ensures was[r].identity != batch[i].row.identity
    ensures was[r].fingerprint == open(batch[i].row.payload).value.fingerprint ==>
              SecretClash(open, group, batch, before, i)
  {
    if was[r].identity == batch[i].row.identity {
      NoOther(open, group, batch, i, before, was, r);
      HasIsPresent(before, group, batch[i].row.identity, r);
    }
    if r !in before || was[r] != before[r] {
      assert Carries(open, batch[..i], was[r]);
      var j :| 0 <= j < i && batch[..i][j].row.identity == was[r].identity
               && open(batch[..i][j].row.payload) == Some(Secret(was[r].identity, was[r].data, was[r].fingerprint));
      assert batch[j] == batch[..i][j];
    }
  }

  // The credential to repair is as it was when the batch was classified.
  lemma NotMoved(open: string -> Option<Secret>, group: nat, batch: seq<Loaded>, i: nat, before: Credentials,
                 was: Credentials, replacements: map<string, Existing>)
    requires i < |batch| && Settled(open, group, batch[..i], before, was) && batch[i].id in replacements
    requires Repairs(before, group, batch, replacements, i)
    ensures StillThere(was, group, batch[i].row.identity, replacements[batch[i].id])
  {
    Untouched(open, group, batch, i, before, was, replacements[batch[i].id].row);
  }

  // The guard of the repairing statement.
  predicate StillThere(c: Credentials, group: nat, identity: string, existing: Existing) {
    Has(c, group, identity, existing.row) && c[existing.row].version == existing.version
    && Replaceable(c[existing.row].state)
  }

  function EndOverdue(row: Stage, now: int): Stage {
    if row.expiresAt <= now && row.status == Exchanging then
      row.(status := OutcomeUnknown, payload := "", stateHash := None, code := INTERRUPTED, updatedAt := now)
    else row
  }

  function ExpireOverdue(row: Stage, now: int): Stage {
    if row.expiresAt <= now && (row.status == Pending || row.status == Ready) then
      row.(status := Expired, payload := "", stateHash := None, updatedAt := now)
    else row
  }

  lemma SweepInTwo(row: Stage, now: int)
    ensures ExpireOverdue(EndOverdue(row, now), now) == Sweep(row, now)
  {
  }

  class Store {
    var stages: map<string, Stage>
    var credentials: Credentials
    var nextRow: nat

    ghost predicate Valid()
      reads this
    {
      Unique(credentials) && forall r :: r in credentials ==> r < nextRow
    }

    // Reads the batch, refusing it unless every stage is there and can be consumed now.
    method Load(channel: string, ids: seq<string>, now: int) returns (r: Result<seq<Loaded>, Fault>)
      ensures r.Ok? ==> LoadedFrom(stages, channel, ids, now, r.value)
      ensures r.Err? ==> NotLoaded(stages, channel, ids, now, r.error)
    {
      for i := 0 to |ids|
        invariant forall j :: 0 <= j < i ==> ids[j] in stages
      {
        if ids[i] !in stages {
          return Err(NotReady);
        }
      }
      var batch := [];
      for i := 0 to |ids|
        invariant |batch| == i
        invariant forall j :: 0 <= j < i ==> batch[j] == Loaded(ids[j], stages[ids[j]]) &&
                                             Consumable(stages[ids[j]], channel, now)
      {
        var row := stages[ids[i]];
        var refusal := Refusal(row, channel, now);
        RefusalMeans(row, channel, now);
        if refusal.Some? {
          return Err(refusal.value);
        }
        batch := batch + [Loaded(ids[i], row)];
      }
      return Ok(batch);
    }

    // The identities of the batch that the group has healthy, and the broken ones with their rows.
    method Survey(group: nat, batch: seq<Loaded>) returns (seen: set<string>, broken: map<string, Existing>)
      requires Valid()
      ensures forall x :: Names(batch, x) ==> (x in seen <==> Occupied(credentials, group, x))
      ensures forall x :: x in seen ==> Names(batch, x)
      ensures forall x :: Names(batch, x) && Present(credentials, group, x) && x !in seen ==> x in broken
      ensures forall x :: x in broken ==>
                            && Has(credentials, group, x, broken[x].row)
                            && Replaceable(credentials[broken[x].row].state)
                            && credentials[broken[x].row].version == broken[x].version
    {
      var identities := set item | item in batch :: item.row.identity;
      assert forall x :: Names(batch, x) <==> x in identities;
      var rows := set r | r in credentials && credentials[r].group == group && credentials[r].identity in identities;
      seen, broken := {}, map[];
      ghost var all := rows;
      while rows != {}
        invariant rows <= all
        invariant forall r :: r in all - rows ==>
                                if Replaceable(credentials[r].state) then credentials[r].identity in broken
                                else credentials[r].identity in seen
        invariant forall x :: x in seen ==> x in identities && Occupied(credentials, group, x)
        invariant forall x :: x in broken ==>
                                && Has(credentials, group, x, broken[x].row)
                                && Replaceable(credentials[broken[x].row].state)
                                && credentials[broken[x].row].version == broken[x].version
        decreases rows
      {
        var r :| r in rows;
        rows := rows - {r};
        var c := credentials[r];
        assert Has(credentials, group, c.identity, r);
        if Replaceable(c.state) {
          broken := broken[c.identity := Existing(r, c.version)];
        } else {
          seen := seen + {c.identity};
        }
      }
      forall x | Names(batch, x)
        ensures Occupied(credentials, group, x) ==> x in seen
        ensures Present(credentials, group, x) && x !in seen ==> x in broken
      {
        if Occupied(credentials, group, x) {
          var r :| Has(credentials, group, x, r) && !Replaceable(credentials[r].state);
          assert r in all;
        }
        if Present(credentials, group, x) {
          var r :| Has(credentials, group, x, r);
          assert r in all;
        }
      }
    }

    method Classify(group: nat, batch: seq<Loaded>) returns (skipped: seq<string>, replacements: map<string, Existing>)
      requires Valid() && Apart(batch)
      ensures skipped == SkippedIds(credentials, group, batch)
      ensures forall i :: 0 <= i < |batch| ==> Repairs(credentials, group, batch, replacements, i)
    {
      hide Skipped, SkippedIds, Occupied, Names, Present, Has;
      var seen, broken := Survey(group, batch);
      NothingYet(credentials, group, batch, seen);
      skipped, replacements := [], map[];
      for i := 0 to |batch|
        invariant skipped == SkippedIds(credentials, group, batch[..i])
        invariant SeenUpTo(credentials, group, batch, i, seen)
        invariant RepairsUpTo(credentials, group, batch, i, replacements)
      {
        var item := batch[i];
        var identity := item.row.identity;
        ghost var was := replacements;
        SkippedPrefix(credentials, group, batch, i);
        SeenNext(credentials, group, batch, i, seen);
        if identity in seen {
          skipped := skipped + [item.id];
          assert seen + {identity} == seen;
        } else {
          seen := seen + {identity};
          if identity in broken {
            replacements := replacements[item.id := broken[identity]];
            HasIsPresent(credentials, group, identity, broken[identity].row);
          }
        }
        assert replacements - {item.id} == was;
        RepairsNext(credentials, group, batch, i, was, replacements);
      }
      assert batch[..|batch|] == batch;
    }

    // Another row of the group that the unique indexes set against the secret.
    ghost predicate InTheWay(group: nat, secret: Secret, row: Option<nat>)
      reads this`credentials
    {
      exists r :: r in credentials && credentials[r].group == group && row != Some(r)
                  && (credentials[r].fingerprint == secret.fingerprint || credentials[r].identity == secret.identity)
    }

    // Writes one stage's credential: repairs the broken one, or creates it.
    method Deliver(group: nat, item: Loaded, secret: Secret, replacements: map<string, Existing>, trouble: Trouble)
      returns (fault: Option<Fault>)
      requires Valid()
      modifies this`credentials, this`nextRow
      ensures fault.None? && item.id in replacements ==>
                && nextRow == old(nextRow)
                && credentials == old(credentials)[replacements[item.id].row :=
                     Credential(group, secret.identity, secret.data, secret.fingerprint,
                                replacements[item.id].version + 1, Healthy)]
      ensures fault.None? && item.id !in replacements ==>
                && nextRow == old(nextRow) + 1
                && credentials == old(credentials)[old(nextRow) :=
                     Credential(group, secret.identity, secret.data, secret.fingerprint, 1, Healthy)]
      ensures fault.None? ==> forall r :: r in credentials ==> r < nextRow
      ensures fault.Some? ==> unchanged(this)
      ensures fault.Some? ==>
                || (trouble == DatabaseFails && fault.value == Unavailable)
                || (item.id in replacements && fault.value == VersionConflict
                    && (trouble == CredentialChanged
                        || !StillThere(credentials, group, secret.identity, replacements[item.id])))
                || (InTheWay(group, secret, if item.id in replacements then Some(replacements[item.id].row) else None)
                    && fault.value == if item.id in replacements then DuplicateResource else DuplicateIdentity)
    {
      if trouble == DatabaseFails {
        return Some(Unavailable);
      }
      if item.id in replacements {
        var existing := replacements[item.id];
        if trouble == CredentialChanged || !StillThere(credentials, group, secret.identity, existing) {
          return Some(VersionConflict);
        }
        if exists r :: r in credentials && r != existing.row && credentials[r].group == group &&
                       credentials[r].fingerprint == secret.fingerprint
        {
          return Some(DuplicateResource);
        }
        credentials := credentials[existing.row :=
          Credential(group, secret.identity, secret.data, secret.fingerprint, existing.version + 1, Healthy)];
      } else {
        if exists r :: r in credentials && credentials[r].group == group &&
                       (credentials[r].fingerprint == secret.fingerprint || credentials[r].identity == secret.identity)
        {
          return Some(DuplicateIdentity);
        }
        credentials := credentials[nextRow :=
          Credential(group, secret.identity, secret.data, secret.fingerprint, 1, Healthy)];
        nextRow := nextRow + 1;
      }
      return None;
    }

    // Nothing but another transaction or an equal secret can be in the way of a stage that is not skipped.
    lemma Explain(open: string -> Option<Secret>, group: nat, items: seq<Loaded>, i: nat, before: Credentials,
                  secret: Secret, replacements: map<string, Existing>)
      requires i < |items| && Unique(before) && Settled(open, group, items[..i], before, credentials)
      requires !Skipped(before, group, items, i) && Repairs(before, group, items, replacements, i)
      requires open(items[i].row.payload) == Some(secret) && secret.identity == items[i].row.identity
      ensures items[i].id in replacements <==> Present(before, group, secret.identity)
      ensures items[i].id in replacements ==>
                StillThere(credentials, group, secret.identity, replacements[items[i].id])
      ensures InTheWay(group, secret, if items[i].id in replacements then Some(replacements[items[i].id].row) else None) ==>
                SecretClash(open, group, items, before, i)
    {
      assert items[i].id in replacements <==> Present(before, group, secret.identity);
      hide Settled, Skipped, Repairs, SecretClash, StillThere, Unique, Present;
      var row := if items[i].id in replacements then Some(replacements[items[i].id].row) else None;
      if row.Some? {
        NotMoved(open, group, items, i, before, credentials, replacements);
      }
      if InTheWay(group, secret, row) {
        var r :| r in credentials && credentials[r].group == group && row != Some(r)
                 && (credentials[r].fingerprint == secret.fingerprint || credentials[r].identity == secret.identity);
        ClashFound(open, group, items, i, before, credentials, replacements, r);
      }
    }

    // One stage of the batch: its credential unless it is skipped, then the stage itself.
    method Process(group: nat, items: seq<Loaded>, i: nat, now: int, open: string -> Option<Secret>, trouble: Trouble,
                   skipped: seq<string>, replacements: map<string, Existing>,
                   ghost before: Credentials, ghost rows: map<string, Stage>)
      returns (fault: Option<Fault>, delivered: bool)
      requires Valid() && Unique(before) && i < |items| && Apart(items)
      requires skipped == SkippedIds(before, group, items) && Repairs(before, group, items, replacements, i)
      requires items[i].id in rows && rows[items[i].id] == items[i].row && items[i].row.status == Ready
      requires Settled(open, group, items[..i], before, credentials)
      requires ConsumedBy(group, now, items[..i], rows, stages)
      modifies this
      ensures fault.None? ==>
                && Valid() && delivered == !Skipped(before, group, items, i)
                && Settled(open, group, items[..i + 1], before, credentials)
                && ConsumedBy(group, now, items[..i + 1], rows, stages)
                && !Unopened(open, items[i]) && trouble != StageChanged
      ensures fault.Some? ==> Blamed(open, group, items, before, i, trouble, fault.value)
    {
      hide Settled, ConsumedBy, Skipped, SkippedIds, Repairs, Has, Unique, Apart, SecretClash, StillThere;
      delivered := false;
      var item := items[i];
      var secret := open(item.row.payload);
      if secret.None? || secret.value.identity != item.row.identity {
        return Some(Mismatch), false;
      }
      SkippedAt(before, group, items, i);
      if item.id !in skipped {
        ghost var was := credentials;
        fault := Deliver(group, item, secret.value, replacements, trouble);
        if fault.Some? {
          Explain(open, group, items, i, before, secret.value, replacements);
          return;
        }
        ghost var row := if item.id in replacements then replacements[item.id].row else nextRow - 1;
        SettleDelivered(open, group, items, i, before, was, replacements, credentials, row, credentials[row]);
        delivered := true;
      } else {
        SettleSkipped(open, group, items, i, before, credentials);
      }
      SettledIsUnique(open, group, items[..i + 1], before, credentials);
      NotYetConsumed(group, now, items, i, rows, stages);
      if trouble == StageChanged || stages[item.id].status != Ready {
        return Some(AlreadyConsumed), delivered;
      }
      var consumed := stages[item.id].(
        status := Consumed, payload := "", stateHash := None, consumedBy := Some(group), updatedAt := now);
      ConsumeNext(group, now, items, i, rows, stages, consumed);
      stages := stages[item.id := consumed];
      return None, delivered;
    }

    // The transaction's statements; on a fault the caller rolls back.
    method Attempt(group: nat, channel: string, ids: seq<string>, now: int,
                   open: string -> Option<Secret>, troubles: string -> Trouble)
      returns (r: Result<(nat, seq<string>), Fault>, ghost batch: seq<Loaded>)
      requires Valid() && forall i, j :: 0 <= i < j < |ids| ==> ids[i] != ids[j]
      modifies this
      ensures r.Ok? ==>
                && LoadedFrom(old(stages), channel, ids, now, batch)
                && r.value.1 == SkippedIds(old(credentials), group, batch)
                && r.value.0 + |r.value.1| == |ids|
                && ConsumedBy(group, now, batch, old(stages), stages)
                && Settled(open, group, batch, old(credentials), credentials)
                && (forall i :: 0 <= i < |batch| ==> !Unopened(open, batch[i]) && troubles(batch[i].id) != StageChanged)
                && Valid()
      ensures r.Err? ==>
                || NotLoaded(old(stages), channel, ids, now, r.error)
                || (LoadedFrom(old(stages), channel, ids, now, batch) &&
                    exists i :: 0 <= i < |batch| &&
                                Blamed(open, group, batch, old(credentials), i, troubles(batch[i].id), r.error))
    {
      hide Settled, ConsumedBy, Skipped, SkippedIds, Repairs, Unique, LoadedFrom, Apart, NotLoaded, Blamed;
      batch := [];
      var loaded := Load(channel, ids, now);
      if loaded.Err? {
        return Err(loaded.error), batch;
      }
      var items := loaded.value;
      batch := items;
      LoadedFacts(stages, channel, ids, now, items);
      var skipped, replacements := Classify(group, items);
      StartSettled(open, group, items, credentials, stages, now);
      var added := 0;
      for i := 0 to |items|
        invariant Valid()
        invariant Settled(open, group, items[..i], old(credentials), credentials)
        invariant ConsumedBy(group, now, items[..i], old(stages), stages)
        invariant added + |SkippedIds(old(credentials), group, items[..i])| == i
        invariant forall j :: 0 <= j < i ==> !Unopened(open, items[j]) && troubles(items[j].id) != StageChanged
      {
        SkippedPrefix(old(credentials), group, items, i);
        var fault, delivered := Process(group, items, i, now, open, troubles(items[i].id), skipped, replacements,
                                        old(credentials), old(stages));
        if fault.Some? {
          return Err(fault.value), batch;
        }
        added := if delivered then added + 1 else added;
      }
      assert items[..|items|] == items;
      return Ok((added, skipped)), batch;
    }

    // Consumes the whole batch, or changes nothing.
    method Consume(group: nat, channel: string, ids: seq<string>, now: int,
                   open: string -> Option<Secret>, troubles: string -> Trouble)
      returns (r: Result<(nat, seq<string>), Fault>, ghost batch: seq<Loaded>)
      requires Valid() && forall i, j :: 0 <= i < j < |ids| ==> ids[i] != ids[j]
      modifies this
      ensures Valid()
      ensures r.Ok? ==>
                && LoadedFrom(old(stages), channel, ids, now, batch)
                && r.value.1 == SkippedIds(old(credentials), group, batch)
                && r.value.0 + |r.value.1| == |ids|
                && ConsumedBy(group, now, batch, old(stages), stages)
                && Settled(open, group, batch, old(credentials), credentials)
                && forall i :: 0 <= i < |batch| ==> !Unopened(open, batch[i]) && troubles(batch[i].id) != StageChanged
      ensures r.Err? ==> stages == old(stages) && credentials == old(credentials) && nextRow == old(nextRow)
      ensures r.Err? ==>
                || NotLoaded(old(stages), channel, ids, now, r.error)
                || (LoadedFrom(old(stages), channel, ids, now, batch) &&
                    exists i :: 0 <= i < |batch| &&
                                Blamed(open, group, batch, old(credentials), i, troubles(batch[i].id), r.error))
    {
      var savedStages, savedCredentials, savedRow := stages, credentials, nextRow;
      r, batch := Attempt(group, channel, ids, now, open, troubles);
      if r.Err? {
        stages, credentials, nextRow := savedStages, savedCredentials, savedRow;
      }
    }

    // Ends overdue exchanges, expires overdue pending and ready stages, then prunes old tombstones.
    method CleanUp(now: int)
      modifies this`stages
      ensures stages == Cleaned(old(stages), now)
      ensures R.CleanedTo(old(stages), now, stages)
    {
      hide EndOverdue, ExpireOverdue, Sweep, Stale, R.CleanedTo;
      R.CleanMeans(stages, now);
      stages := map id | id in stages :: EndOverdue(stages[id], now);
      stages := map id | id in stages :: ExpireOverdue(stages[id], now);
      forall id | id in stages ensures stages[id] == Sweep(old(stages)[id], now) {
        SweepInTwo(old(stages)[id], now);
      }
      stages := map id | id in stages && !Stale(stages[id], now) :: stages[id];
    }
  }
}
