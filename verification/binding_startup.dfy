/**
  The startup procedure itself, over a disk and a database whose every operation may fail. `history`
  holds each durable state, so that what is true of all of it is true of a crash at any point.
*/
module BindingStartup {
  import opened Wrappers
  import opened BindingRestore

  datatype Answer = Claimed | Conflict | Failed

  class Machine {
    var disk: Disk
    ghost var history: seq<Disk>
    ghost var failures: nat

    constructor (disk: Disk)
      ensures this.disk == disk && history == [disk] && failures == 0
    {
      this.disk := disk;
      history := [disk];
      failures := 0;
    }

    method Now(span: Span) returns (now: int)
      requires span.since <= span.horizon
      ensures span.since <= now <= span.horizon
    {
      now := *;
      if now < span.since || now > span.horizon {
        now := span.horizon;
      }
    }

    method ReadPending() returns (f: Option<File>)
      modifies this`failures
      ensures f.Some? ==> f.value == disk.pending
      ensures failures == old(failures) + if f.None? then 1 else 0
    {
      if * {
        failures := failures + 1;
        return None;
      }
      return Some(disk.pending);
    }

    method ReadCheckpoint() returns (f: Option<File>)
      modifies this`failures
      ensures f.Some? ==> f.value == disk.checkpoint
      ensures failures == old(failures) + if f.None? then 1 else 0
    {
      if * {
        failures := failures + 1;
        return None;
      }
      return Some(disk.checkpoint);
    }

    // Written to a temporary file first, then moved into place.
    method WritePending(bindings: seq<Binding>) returns (ok: bool)
      modifies this
      ensures disk == if ok then old(disk).(pending := Good(bindings)) else old(disk)
      ensures history == old(history) + [disk]
      ensures failures == old(failures) + if ok then 0 else 1
    {
      ok := *;
      if ok {
        disk := disk.(pending := Good(bindings));
      } else {
        failures := failures + 1;
      }
      history := history + [disk];
    }

    // Removing the file, or moving it aside when it cannot be read.
    method ClearPending() returns (ok: bool)
      modifies this
      ensures disk == if ok then old(disk).(pending := Missing) else old(disk)
      ensures history == old(history) + [disk]
      ensures failures == old(failures) + if ok then 0 else 1
    {
      ok := *;
      if ok {
        disk := disk.(pending := Missing);
      } else {
        failures := failures + 1;
      }
      history := history + [disk];
    }

    method ClearCheckpoint() returns (ok: bool)
      modifies this
      ensures disk == if ok then old(disk).(checkpoint := Missing) else old(disk)
      ensures history == old(history) + [disk]
      ensures failures == old(failures) + if ok then 0 else 1
    {
      ok := *;
      if ok {
        disk := disk.(checkpoint := Missing);
      } else {
        failures := failures + 1;
      }
      history := history + [disk];
    }

    // Whether the time for the import has run out.
    method RanOut() returns (over: bool)
      modifies this`failures
      ensures failures == old(failures) + if over then 1 else 0
    {
      over := *;
      if over {
        failures := failures + 1;
      }
    }

    // A failed claim may or may not have reached the database.
    method Claim(id: Identity) returns (a: Answer)
      modifies this
      ensures disk == old(disk).(claimed := disk.claimed, refused := disk.refused)
      ensures old(disk).claimed <= disk.claimed && old(disk).refused <= disk.refused
      ensures disk.claimed <= old(disk).claimed + {id} && disk.refused <= old(disk).refused + {id}
      ensures a == Claimed ==> id in disk.claimed
      ensures a == Conflict ==> id in disk.refused
      ensures history == old(history) + [disk]
      ensures failures == old(failures) + if a == Failed then 1 else 0
    {
      if * {
        disk := disk.(claimed := disk.claimed + {id});
        a := Claimed;
      } else if * {
        disk := disk.(refused := disk.refused + {id});
        a := Conflict;
      } else {
        if * {
          disk := disk.(claimed := disk.claimed + {id});
        }
        failures := failures + 1;
        a := Failed;
      }
      history := history + [disk];
    }
  }

  lemma PendingIsHeld(d: Disk, b: Binding)
    requires Lists(d.pending, b)
    ensures Held(d, b.id)
  {
    assert Records(d, b);
  }

  lemma SettledIsHeld(d: Disk)
    ensures forall id :: Settled(d, id) ==> Held(d, id)
  {
  }

  lemma Stays(d: Disk, span: Span)
    ensures Keeps(d, d, span)
  {
  }

  // Every durable state after the first n keeps what the start held.
  ghost predicate AllKeep(history: seq<Disk>, n: nat, start: Disk, span: Span) {
    n <= |history| && forall k :: n <= k < |history| ==> Keeps(start, history[k], span)
  }

  lemma KeepAppend(history: seq<Disk>, n: nat, start: Disk, d: Disk, span: Span)
    requires AllKeep(history, n, start, span) && Keeps(start, d, span)
    ensures AllKeep(history + [d], n, start, span)
  {
  }

  lemma KeepThrough(history: seq<Disk>, m: nat, n: nat, start: Disk, mid: Disk, span: Span)
    requires n <= m && AllKeep(history, m, mid, span) && Keeps(start, mid, span)
    requires AllKeep(history[..m], n, start, span)
    ensures AllKeep(history, n, start, span)
  {
    hide Keeps;
    forall k | n <= k < |history| ensures Keeps(start, history[k], span) {
      if k < m {
        assert history[..m][k] == history[k];
      } else {
        KeepsTransitive(start, mid, history[k], span);
      }
    }
  }

  // More claims lose nothing.
  lemma ClaimsKeep(before: Disk, after: Disk, span: Span)
    requires MoreClaims(before, after)
    ensures Keeps(before, after, span)
  {
    assert forall b :: Records(after, b) <==> Records(before, b);
  }

  // A pending file that may go may also go after more claims.
  lemma StillDispensable(start: Disk, d: Disk, span: Span)
    requires Keeps(start, start.(pending := Missing), span)
    requires d == start.(claimed := d.claimed, refused := d.refused)
    requires start.claimed <= d.claimed && start.refused <= d.refused
    ensures Keeps(d, d.(pending := Missing), span)
  {
    var left := d.(pending := Missing);
    assert forall b :: Records(start, b) <==> Records(d, b);
    assert forall b :: Records(start.(pending := Missing), b) <==> Records(left, b);
    SettledIsHeld(d);
    forall id | Tracked(d, id, span) ensures Safe(left, id, span) {
      if !Settled(d, id) {
        assert Tracked(start, id, span);
        assert Safe(start.(pending := Missing), id, span);
      }
    }
  }

  // ---- claiming what is pending ----------------------------------------------------------------

  // Every binding of the list is settled in the database, expired, or among the failed.
  ghost predicate Accounted(list: seq<Binding>, failed: seq<Binding>, d: Disk, span: Span) {
    && (forall b :: b in failed ==> b in list)
    && (forall b :: b in list && b.expiresAt > span.horizon ==> b in failed || Settled(d, b.id))
  }

  // What is left in the pending file, once everything else is accounted for, is enough.
  lemma LeftoversSuffice(before: Disk, failed: seq<Binding>, span: Span)
    requires before.pending.Good? && before.checkpoint.Missing?
    requires Accounted(before.pending.bindings, failed, before, span)
    ensures Keeps(before, before.(pending := Good(failed)), span)
    ensures failed == [] ==> Keeps(before, before.(pending := Missing), span)
  {
    var left := before.(pending := Good(failed));
    SettledIsHeld(before);
    forall b | Records(left, b) ensures Records(before, b) {
      assert b in failed;
    }
    forall id | Tracked(before, id, span) ensures Safe(left, id, span) && (failed == [] ==> Settled(before, id)) {
      if !Settled(before, id) {
        var b :| Records(before, b) && b.id == id && b.expiresAt > span.horizon;
        assert b in before.pending.bindings && b in failed;
        assert Records(left, b);
      }
    }
  }

  lemma SettlesNone(d: Disk)
    ensures Settles(d, d, [], [])
  {
  }

  lemma SettlesNext(before: Disk, was: Disk, now: Disk, list: seq<Binding>, i: nat, times: seq<int>, at: int)
    requires i < |list| && Settles(before, was, list[..i], times)
    requires forall id :: Settled(now, id) <==> Settled(was, id) || (id == list[i].id && list[i].expiresAt > at)
    ensures Settles(before, now, list[..i + 1], times + [at])
  {
    var head, all := list[..i + 1], times + [at];
    forall id ensures InTime(head, all, id) <==> InTime(list[..i], times, id) || (id == list[i].id && list[i].expiresAt > at) {
      assert head[i] == list[i] && all[i] == at;
      if InTime(list[..i], times, id) {
        var j :| 0 <= j < i && list[..i][j].id == id && list[..i][j].expiresAt > times[j];
        assert head[j].id == id && head[j].expiresAt > all[j];
      }
    }
  }

  // The files are written and removed without touching what is settled.
  lemma SettlesAlike(before: Disk, was: Disk, now: Disk, list: seq<Binding>, times: seq<int>)
    requires Settles(before, was, list, times) && now.claimed == was.claimed && now.refused == was.refused
    ensures Settles(before, now, list, times)
  {
  }

  lemma SettlesFrom(start: Disk, before: Disk, after: Disk, list: seq<Binding>, times: seq<int>)
    requires Settles(before, after, list, times) && before.claimed == start.claimed && before.refused == start.refused
    ensures Settles(start, after, list, times)
  {
  }

  // More claims and nothing else, all of resources that were held.
  ghost predicate MoreClaims(before: Disk, after: Disk) {
    && after == before.(claimed := after.claimed, refused := after.refused)
    && before.claimed <= after.claimed && before.refused <= after.refused
    && forall id :: Settled(after, id) ==> Held(before, id)
  }

  lemma ClaimOne(start: Disk, was: Disk, now: Disk, b: Binding)
    requires MoreClaims(start, was) && Lists(start.pending, b)
    requires now == was.(claimed := now.claimed, refused := now.refused)
    requires was.claimed <= now.claimed <= was.claimed + {b.id} && was.refused <= now.refused <= was.refused + {b.id}
    ensures MoreClaims(start, now)
  {
    hide Held;
    PendingIsHeld(start, b);
  }

  // Claims each binding in turn; what fails, and what time does not suffice for, is left.
  method ClaimAll(m: Machine, bindings: seq<Binding>, span: Span) returns (failed: seq<Binding>, ghost times: seq<int>)
    requires span.since <= span.horizon
    requires bindings != [] ==> m.disk.pending == Good(bindings)
    modifies m
    ensures MoreClaims(old(m.disk), m.disk) && Accounted(bindings, failed, m.disk, span)
    ensures old(m.history) <= m.history && AllKeep(m.history, |old(m.history)|, old(m.disk), span)
    ensures m.failures >= old(m.failures)
    ensures m.failures == old(m.failures) ==> failed == [] && Settles(old(m.disk), m.disk, bindings, times)
  {
    hide Keeps, Held, Tracked, Settles, AllKeep;
    failed, times := [], [];
    ghost var start, n := m.disk, |m.history|;
    SettledIsHeld(start);
    SettlesNone(start);
    NothingNew(m.history, start, span);
    assert bindings[..0] == [];
    for i := 0 to |bindings|
      invariant MoreClaims(start, m.disk)
      invariant |failed| <= i && Accounted(bindings[..i], failed, m.disk, span)
      invariant m.failures >= old(m.failures)
      invariant m.failures == old(m.failures) ==> failed == [] && Settles(start, m.disk, bindings[..i], times)
      invariant old(m.history) <= m.history && AllKeep(m.history, n, start, span)
    {
      var over := m.RanOut();
      if over {
        // The rest waits for the next start.
        failed := failed + bindings[i..];
        break;
      }
      var now := m.Now(span);
      ghost var was := m.disk;
      assert bindings[..i + 1] == bindings[..i] + [bindings[i]];
      if bindings[i].expiresAt > now {
        ghost var history := m.history;
        var answer := m.Claim(bindings[i].id);
        ClaimOne(start, was, m.disk, bindings[i]);
        ClaimsKeep(start, m.disk, span);
        KeepAppend(history, n, start, m.disk, span);
        if answer == Failed {
          failed := failed + [bindings[i]];
        }
      }
      if m.failures == old(m.failures) {
        SettlesNext(start, was, m.disk, bindings, i, times, now);
      }
      times := times + [now];
    }
    assert bindings[..|bindings|] == bindings;
  }

  lemma NothingNew(history: seq<Disk>, start: Disk, span: Span)
    ensures AllKeep(history, |history|, start, span)
  {
  }

  method Persist(m: Machine, bindings: seq<Binding>, span: Span) returns (failed: seq<Binding>, ghost times: seq<int>)
    requires span.since <= span.horizon
    requires m.disk.checkpoint.Missing?
    requires m.disk.pending == Good(bindings) || (bindings == [] && Keeps(m.disk, m.disk.(pending := Missing), span))
    modifies m
    ensures Keeps(old(m.disk), m.disk, span)
    ensures old(m.history) <= m.history && AllKeep(m.history, |old(m.history)|, old(m.disk), span)
    ensures m.disk.checkpoint.Missing? && m.failures >= old(m.failures)
    ensures m.failures == old(m.failures) ==>
              failed == [] && m.disk.pending.Missing? && Settles(old(m.disk), m.disk, bindings, times)
  {
    hide Keeps, Held, Tracked, Settles, AllKeep;
    ghost var start, n := m.disk, |m.history|;
    var left, at := ClaimAll(m, bindings, span);
    failed, times := left, at;
    assert failed == [] || failed[0] in bindings;
    ghost var history, before := m.history, m.disk;
    ClaimsKeep(start, before, span);
    if before.pending == Good(bindings) {
      LeftoversSuffice(before, failed, span);
    } else {
      StillDispensable(start, before, span);
    }
    if failed != [] {
      var _ := m.WritePending(failed);
    } else {
      var _ := m.ClearPending();
    }
    Stays(before, span);
    KeepsTransitive(start, before, m.disk, span);
    KeepAppend(history, n, start, m.disk, span);
    if m.failures == old(m.failures) {
      SettlesAlike(start, before, m.disk, bindings, times);
    }
  }

  // ---- startup -----------------------------------------------------------------------------

  // The merged list takes the place of both files.
  lemma MergedSuffices(d: Disk, pending: seq<Binding>, document: seq<Binding>, now: int, merged: seq<Binding>, span: Span)
    requires span.since <= now <= span.horizon && d.checkpoint == Good(document)
    requires d.pending == Good(pending) || (pending == [] && !d.pending.Good?)
    requires Merges(pending + document, now, merged)
    ensures Keeps(d, d.(pending := Good(merged)), span)
    ensures Keeps(d, d.(pending := Good(merged), checkpoint := Missing), span)
    ensures merged == [] ==> Keeps(d, d.(checkpoint := Missing, pending := Missing), span)
    ensures merged == [] ==> Keeps(d, d.(checkpoint := Missing), span)
  {
    var next := d.(pending := Good(merged));
    var sole := d.(pending := Good(merged), checkpoint := Missing);
    SettledIsHeld(d);
    forall b | b in merged ensures Records(d, b) {
      assert b in pending || b in document;
    }
    assert forall b :: Records(next, b) ==> Records(d, b);
    assert forall b :: Records(sole, b) ==> Records(d, b);
    forall id | Tracked(d, id, span) ensures Safe(next, id, span) && Safe(sole, id, span)
      ensures merged == [] ==> Settled(d, id)
    {
      if !Settled(d, id) {
        var s :| Records(d, s) && s.id == id && s.expiresAt > span.horizon;
        assert s in pending + document && Usable(s, now);
        assert Earliest(merged, s);
        var b :| b in merged && b.id == id && b.expiresAt <= s.expiresAt;
        assert b.expiresAt > span.since;
        assert Records(next, b) && Records(sole, b);
      }
    }
  }

  lemma SetAside(d: Disk, span: Span)
    requires !d.pending.Good?
    ensures Keeps(d, d.(pending := Missing), span)
  {
    Emptied(d, d.(pending := Missing), span);
  }

  // The same settled resources and the same records.
  lemma Emptied(d: Disk, e: Disk, span: Span)
    requires e.claimed == d.claimed && e.refused == d.refused
    requires forall b :: Records(d, b) <==> Records(e, b)
    ensures Keeps(d, e, span)
  {
    SettledIsHeld(d);
  }

  lemma Consumed(d: Disk, span: Span)
    requires !d.checkpoint.Good?
    ensures Keeps(d, d.(checkpoint := Missing), span)
  {
    Emptied(d, d.(checkpoint := Missing), span);
  }

  // Reads what is pending; a file that cannot be decoded is moved aside.
  method LoadPending(m: Machine, span: Span) returns (r: Option<seq<Binding>>)
    modifies m
    ensures Keeps(old(m.disk), m.disk, span) && m.disk.checkpoint == old(m.disk).checkpoint
    ensures old(m.history) <= m.history && AllKeep(m.history, |old(m.history)|, old(m.disk), span)
    ensures r.Some? ==> m.disk.pending == Good(r.value) || (r.value == [] && m.disk.pending == Missing)
    ensures r.Some? ==> r.value == Contents(old(m.disk).pending)
    ensures m.disk == old(m.disk).(pending := m.disk.pending)
    ensures r.Some? <==> m.failures == old(m.failures)
    ensures m.failures >= old(m.failures)
  {
    Stays(m.disk, span);
    var f := m.ReadPending();
    if f.None? {
      return None;
    }
    match f.value {
      case Good(bindings) => return Some(bindings);
      case Missing => return Some([]);
      case Corrupt =>
        SetAside(m.disk, span);
        var moved := m.ClearPending();
        if !moved {
          return None;
        }
        return Some([]);
    }
  }

  // Moves the checkpoint's resources into the pending file, then consumes the checkpoint.
  method Transfer(m: Machine, pending: seq<Binding>, document: seq<Binding>, span: Span)
    returns (r: Option<seq<Binding>>, ghost mergedAt: int)
    requires span.since <= span.horizon
    requires m.disk.checkpoint == Good(document)
    requires m.disk.pending == Good(pending) || (pending == [] && m.disk.pending == Missing)
    modifies m
    ensures Keeps(old(m.disk), m.disk, span)
    ensures old(m.history) <= m.history && AllKeep(m.history, |old(m.history)|, old(m.disk), span)
    ensures r.Some? ==>
              && m.disk.checkpoint.Missing?
              && (m.disk.pending == Good(r.value) ||
                  (r.value == [] && Keeps(old(m.disk), m.disk.(pending := Missing), span)
                   && Keeps(m.disk, m.disk.(pending := Missing), span)))
    ensures r.Some? ==> Merges(pending + document, mergedAt, r.value)
    ensures m.disk.claimed == old(m.disk).claimed && m.disk.refused == old(m.disk).refused
    ensures r.Some? <==> m.failures == old(m.failures)
    ensures m.failures >= old(m.failures)
  {
    hide Keeps;
    ghost var start, n := m.disk, |m.history|;
    Stays(start, span);
    var now := m.Now(span);
    mergedAt := now;
    var merged := Merge(pending, document, now);
    MergedSuffices(start, pending, document, now, merged, span);
    if merged != [] {
      var written := m.WritePending(merged);
      if !written {
        return None, mergedAt;
      }
    }
    ghost var history := m.history;
    var removed := m.ClearCheckpoint();
    KeepAppend(history, n, start, m.disk, span);
    if !removed {
      return None, mergedAt;
    }
    if merged == [] {
      EmptyMerge(start, pending, document, now, span);
    }
    return Some(merged), mergedAt;
  }

  // With nothing usable in either file, the pending file alone may go.
  lemma EmptyMerge(d: Disk, pending: seq<Binding>, document: seq<Binding>, now: int, span: Span)
    requires span.since <= now <= span.horizon && d.checkpoint == Good(document)
    requires d.pending == Good(pending) || (pending == [] && !d.pending.Good?)
    requires Merges(pending + document, now, [])
    ensures var left := d.(checkpoint := Missing); Keeps(left, left.(pending := Missing), span)
  {
    var left := d.(checkpoint := Missing);
    var none := left.(pending := Missing);
    SettledIsHeld(left);
    forall s | Records(left, s) && IsResource(s.id) ensures s.expiresAt <= now {
      assert s in pending + document;
      assert Usable(s, now) ==> Earliest([], s);
    }
    assert forall b :: !Records(none, b);
  }

  // The whole attempt. The ghost results say when the files were merged, what that left, and when
  // the turn of each binding came.
  method Restore(m: Machine, span: Span) returns (ghost mergedAt: int, ghost list: seq<Binding>, ghost times: seq<int>)
    requires span.since <= span.horizon
    modifies m
    ensures Keeps(old(m.disk), m.disk, span)
    ensures old(m.history) <= m.history && AllKeep(m.history, |old(m.history)|, old(m.disk), span)
    ensures m.failures == old(m.failures) ==> m.disk.checkpoint.Missing?
    ensures m.failures == old(m.failures) && !old(m.disk).checkpoint.Corrupt? ==> m.disk.pending.Missing?
    ensures m.failures == old(m.failures) && old(m.disk).checkpoint.Good? ==>
              Attempt(old(m.disk), m.disk, mergedAt, list, times)
    ensures m.failures == old(m.failures) && old(m.disk).checkpoint.Missing? ==>
              list == Contents(old(m.disk).pending) && Settles(old(m.disk), m.disk, list, times)
  {
    hide Keeps, Records, Merges, Settles;
    mergedAt, list, times := 0, [], [];
    ghost var start, n := m.disk, |m.history|;
    var pending := LoadPending(m, span);
    if pending.None? {
      return;
    }
    var bindings := pending.value;
    var checkpoint := m.ReadCheckpoint();
    if checkpoint.None? {
      return;
    }
    ghost var history, mid := m.history, m.disk;
    match checkpoint.value {
      case Missing =>
        if mid.pending == Missing {
          SetAside(mid, span);
        }
      case Corrupt =>
        Consumed(mid, span);
        Stays(mid, span);
        var _ := m.ClearCheckpoint();
        KeepsTransitive(start, mid, m.disk, span);
        KeepAppend(history, n, start, m.disk, span);
        return;
      case Good(document) =>
        var transferred;
        transferred, mergedAt := Transfer(m, bindings, document, span);
        KeepsTransitive(start, mid, m.disk, span);
        assert m.history[..|history|] == history;
        KeepThrough(m.history, |history|, n, start, mid, span);
        if transferred.None? {
          return;
        }
        bindings := transferred.value;
    }
    ghost var before, last := m.history, m.disk;
    list := bindings;
    var _, at := Persist(m, bindings, span);
    times := at;
    if m.failures == old(m.failures) {
      SettlesFrom(start, last, m.disk, bindings, times);
    }
    KeepsTransitive(start, last, m.disk, span);
    assert m.history[..|before|] == before;
    KeepThrough(m.history, |before|, n, start, last, span);
  }
}
