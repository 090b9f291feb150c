/**
  Editing the cost-limit rules of one access key: delete what is not desired any more, move
  changed rules to temporary periods, then update and insert in the desired order. The unique
  index is checked by every single write.
*/
module RuleEditing {
  import opened Wrappers
  import opened QuotaModel
  import opened RuleTable
  import opened RulePlanner

  datatype EditError = Validation | NoNextRevision | IndexViolated | RowLost

  function AsRules(desired: seq<Desired>): seq<Rule> {
    seq(|desired|, i requires 0 <= i < |desired| => Rule(desired[i].id, 1, desired[i].kind, desired[i].limit, desired[i].period))
  }

  // What normalising a request guarantees.
  predicate ValidDesired(desired: seq<Desired>) {
    && (forall i :: 0 <= i < |desired| ==>
          desired[i].limit > 0
          && ValidPeriod(desired[i].kind, desired[i].period))
    && (forall i, j :: 0 <= i < j < |desired| && desired[i].id != 0 ==> desired[i].id != desired[j].id)
    && (forall i, j :: 0 <= i < j < |desired| ==>
          !(desired[i].kind == desired[j].kind && desired[i].period == desired[j].period))
    && CountOk(desired)
  }

  predicate CountOk(desired: seq<Desired>) {
    CountTotal(AsRules(desired)) <= 1 && CountPeriodic(AsRules(desired)) <= MAX_PERIODIC_RULES
  }

  predicate ValidPeriod(kind: Kind, period: int) {
    match kind
    case Total => period == 0
    case Periodic => MIN_PERIOD_SECONDS <= period <= MAX_PERIOD_SECONDS
    case Other(_) => false
  }

  // Rows as the table's checks allow them.
  predicate ValidRows(rows: map<nat, Row>) {
    forall id :: id in rows ==>
      rows[id].limit > 0 && rows[id].revision > 0 && ValidPeriod(rows[id].kind, rows[id].period)
  }

  // Every rule's checkpoint belongs to the rule's revision.
  predicate Synced(rows: map<nat, Row>, states: map<nat, Saved>) {
    states.Keys == rows.Keys && forall id :: id in rows ==> states[id].revision == rows[id].revision
  }

  // A definition that names a rule names one of this key and of the same kind.
  predicate Refers(current: map<nat, Row>, d: Desired) {
    d.id != 0 ==> d.id in current && current[d.id].kind == d.kind
  }

  predicate Retained(desired: seq<Desired>, id: nat) {
    exists i :: 0 <= i < |desired| && desired[i].id == id
  }

  function TargetRow(current: map<nat, Row>, key: nat, d: Desired): Row
    requires Refers(current, d)
  {
    if d.id == 0 then Row(key, d.kind, d.limit, d.period, 1)
    else if Changes(current, d) then current[d.id].(limit := d.limit, period := d.period, revision := current[d.id].revision + 1)
    else current[d.id].(limit := d.limit)
  }

  // ---- phase one: what is not desired goes ----------------------------------------

  function Kept(rows: map<nat, Row>, key: nat, desired: seq<Desired>): map<nat, Row> {
    map id | id in rows && (rows[id].key == key ==> Retained(desired, id)) :: rows[id]
  }

  method DeleteOthers(table: Table, key: nat, desired: seq<Desired>)
    requires table.Valid()
    modifies table`rows, table`states
    ensures table.Valid()
    ensures table.rows == Kept(old(table.rows), key, desired)
    ensures forall id :: id in table.states ==> id in old(table.states) && table.states[id] == old(table.states)[id]
  {
    hide RuleTable.Unique, Retained;
    ghost var rows, states := table.rows, table.states;
    var todo := set id | id in table.rows && table.rows[id].key == key;
    while todo != {}
      invariant table.Valid() && table.nextId == old(table.nextId)
      invariant forall id :: id in todo ==> id in rows && rows[id].key == key
      invariant forall id :: id in table.rows <==> id in rows && (id in todo || rows[id].key != key || Retained(desired, id))
      invariant forall id :: id in table.rows ==> table.rows[id] == rows[id]
      invariant forall id :: id in table.states ==> id in states && table.states[id] == states[id]
    {
      var id :| id in todo;
      if !Retained(desired, id) {
        table.Delete(id);
      }
      todo := todo - {id};
    }
  }

  // ---- phase two: changed rules step aside ----------------------------------------

  function Moved(rows: map<nat, Row>, moves: seq<Move>): (r: map<nat, Row>)
    ensures r.Keys == rows.Keys
    decreases |moves|
  {
    if moves == [] then rows
    else
      var before, m := Moved(rows, moves[..|moves| - 1]), moves[|moves| - 1];
      if m.ruleId in before then before[m.ruleId := before[m.ruleId].(period := m.temporary)] else before
  }

  // A row after the moves: its own, or with the temporary period of its move.
  lemma {:induction false} MovedRow(rows: map<nat, Row>, moves: seq<Move>, id: nat)
    requires id in rows
    requires forall m, l :: 0 <= m < l < |moves| ==> moves[m].ruleId != moves[l].ruleId
    ensures (forall m :: 0 <= m < |moves| ==> moves[m].ruleId != id) ==> Moved(rows, moves)[id] == rows[id]
    ensures forall m :: 0 <= m < |moves| && moves[m].ruleId == id ==>
      Moved(rows, moves)[id] == rows[id].(period := moves[m].temporary)
    decreases |moves|
  {
    if moves != [] {
      MovedRow(rows, moves[..|moves| - 1], id);
    }
  }

  // Everything an edit may rely on before it writes.
  ghost predicate Editable(rows: map<nat, Row>, key: nat, desired: seq<Desired>) {
    && ValidRows(rows) && ValidDesired(desired)
    && forall i :: 0 <= i < |desired| ==> Refers(RowsOfKey(rows, key), desired[i])
  }

  lemma MoverIsPeriodic(rows: map<nat, Row>, key: nat, desired: seq<Desired>, moves: seq<Move>, reserved: set<int>, m: nat)
    requires Editable(rows, key, desired) && Planned(RowsOfKey(rows, key), desired, moves, reserved) && m < |moves|
    ensures var id := moves[m].ruleId;
            id in rows && rows[id].key == key && rows[id].kind.Periodic? && Retained(desired, id)
  {
    assert MoveNeeded(RowsOfKey(rows, key), desired, moves[m].ruleId);
    var i :| 0 <= i < |desired| && desired[i].id == moves[m].ruleId && Changes(RowsOfKey(rows, key), desired[i]);
    assert Refers(RowsOfKey(rows, key), desired[i]);
  }

  lemma MoveFits(rows: map<nat, Row>, key: nat, desired: seq<Desired>, moves: seq<Move>, reserved: set<int>, n: nat)
    requires Editable(rows, key, desired) && Planned(RowsOfKey(rows, key), desired, moves, reserved) && n < |moves|
    requires Unique(Moved(Kept(rows, key, desired), moves[..n]))
    ensures var now := Moved(Kept(rows, key, desired), moves[..n]);
            var id := moves[n].ruleId;
            id in now && now[id].key == key && Fits(now, id, now[id].(period := moves[n].temporary))
  {
    hide ValidDesired, RuleTable.Unique;
    var kept := Kept(rows, key, desired);
    var now := Moved(kept, moves[..n]);
    var id := moves[n].ruleId;
    MoverIsPeriodic(rows, key, desired, moves, reserved, n);
    MovedRow(kept, moves[..n], id);
    forall j | j in now && j != id ensures !SameSlot(now[j], now[id].(period := moves[n].temporary)) {
      MovedRow(kept, moves[..n], j);
      if m :| 0 <= m < n && moves[m].ruleId == j {
        assert moves[..n][m] == moves[m];
        assert now[j].period == moves[m].temporary;
      } else {
        assert now[j] == rows[j];
        if rows[j].key == key && rows[j].kind.Periodic? {
          assert RowsOfKey(rows, key)[j].period in reserved;
        }
      }
    }
  }

  method ApplyMoves(table: Table, key: nat, moves: seq<Move>,
                    ghost rows: map<nat, Row>, ghost desired: seq<Desired>, ghost reserved: set<int>)
    returns (ok: bool)
    requires table.Valid() && table.rows == Kept(rows, key, desired)
    requires Editable(rows, key, desired) && Planned(RowsOfKey(rows, key), desired, moves, reserved)
    modifies table`rows
    ensures table.Valid() && ok
    ensures table.rows == Moved(Kept(rows, key, desired), moves)
  {
    hide Editable, RulePlanner.Planned, Kept, RuleTable.Fits;
    for n := 0 to |moves|
      invariant table.Valid()
      invariant table.rows == Moved(Kept(rows, key, desired), moves[..n])
    {
      MoveFits(rows, key, desired, moves, reserved, n);
      assert moves[..n + 1][..n] == moves[..n];
      var affected, fits := table.SetPeriod(moves[n].ruleId, key, moves[n].temporary);
      if !fits || affected != 1 {
        return false;
      }
    }
    assert moves[..|moves|] == moves;
    ok := true;
  }

  // ---- phase three: updates and inserts in the desired order -----------------------

  // After `n` definitions: done ones are at their target, the others where the moves left them.
  ghost predicate Progress(rows: map<nat, Row>, moved: map<nat, Row>, current: map<nat, Row>, key: nat,
                           desired: seq<Desired>, ids: seq<nat>)
    requires |ids| <= |desired| && forall i :: 0 <= i < |desired| ==> Refers(current, desired[i])
  {
    && (forall id :: id in moved && moved[id].key != key ==> id in rows && rows[id] == moved[id])
    && (forall i :: 0 <= i < |ids| ==> ids[i] in rows && rows[ids[i]] == TargetRow(current, key, desired[i]))
    && (forall i :: 0 <= i < |ids| && desired[i].id != 0 ==> ids[i] == desired[i].id)
    && (forall i :: |ids| <= i < |desired| && desired[i].id != 0 ==>
          desired[i].id in rows && desired[i].id in moved && rows[desired[i].id] == moved[desired[i].id])
    && (forall id :: id in rows && rows[id].key == key ==> Owner(desired, ids, id))
    && (forall id :: id in rows && rows[id].key != key ==> id in moved && rows[id] == moved[id])
  }

  ghost predicate Owner(desired: seq<Desired>, ids: seq<nat>, id: nat) {
    || (exists i :: 0 <= i < |ids| && ids[i] == id)
    || (exists i :: |ids| <= i < |desired| && desired[i].id == id && id != 0)
  }

  // Where the moves leave a rule that is still waiting: at its desired period if that does
  // not change, and otherwise at a period nobody wants.
  ghost predicate Parked(moved: map<nat, Row>, current: map<nat, Row>, d: Desired, reserved: set<int>) {
    && d.id in current && d.id in moved
    && moved[d.id].key == current[d.id].key && moved[d.id].kind == d.kind
    && moved[d.id].revision == current[d.id].revision && moved[d.id].limit == current[d.id].limit
    && (if Changes(current, d) then d.kind.Periodic? && moved[d.id].period !in reserved
        else moved[d.id].period == d.period)
  }

  ghost predicate AllParked(moved: map<nat, Row>, current: map<nat, Row>, key: nat, desired: seq<Desired>, reserved: set<int>) {
    && (forall i :: 0 <= i < |desired| && desired[i].id != 0 ==> Parked(moved, current, desired[i], reserved))
    && (forall i :: 0 <= i < |desired| && desired[i].kind.Periodic? ==> desired[i].period in reserved)
    && (forall id :: id in current ==> current[id].key == key)
  }

  lemma MovesPark(rows: map<nat, Row>, key: nat, desired: seq<Desired>, moves: seq<Move>, reserved: set<int>)
    requires Editable(rows, key, desired) && Planned(RowsOfKey(rows, key), desired, moves, reserved)
    ensures AllParked(Moved(Kept(rows, key, desired), moves), RowsOfKey(rows, key), key, desired, reserved)
  {
    var current, kept := RowsOfKey(rows, key), Kept(rows, key, desired);
    forall i | 0 <= i < |desired| && desired[i].id != 0
      ensures Parked(Moved(kept, moves), current, desired[i], reserved)
    {
      ParkOne(rows, key, desired, moves, reserved, i);
    }
  }

  lemma Unmoved(rows: map<nat, Row>, key: nat, desired: seq<Desired>, moves: seq<Move>, reserved: set<int>, i: nat, m: nat)
    requires ValidDesired(desired) && Planned(RowsOfKey(rows, key), desired, moves, reserved)
    requires i < |desired| && desired[i].id != 0 && !Changes(RowsOfKey(rows, key), desired[i]) && m < |moves|
    ensures moves[m].ruleId != desired[i].id
  {
    assert MoveNeeded(RowsOfKey(rows, key), desired, moves[m].ruleId);
    var j :| 0 <= j < |desired| && desired[j].id == moves[m].ruleId && Changes(RowsOfKey(rows, key), desired[j]);
  }

  lemma ParkOne(rows: map<nat, Row>, key: nat, desired: seq<Desired>, moves: seq<Move>, reserved: set<int>, i: nat)
    requires Editable(rows, key, desired) && Planned(RowsOfKey(rows, key), desired, moves, reserved)
    requires i < |desired| && desired[i].id != 0
    ensures Parked(Moved(Kept(rows, key, desired), moves), RowsOfKey(rows, key), desired[i], reserved)
  {
    hide ValidDesired, ValidRows, Moved;
    var current, kept, d := RowsOfKey(rows, key), Kept(rows, key, desired), desired[i];
    assert Refers(current, d);
    assert Retained(desired, d.id);
    MovedRow(kept, moves, d.id);
    if Changes(current, d) {
      assert MoveExists(moves, d.id);
      var m :| 0 <= m < |moves| && moves[m].ruleId == d.id;
      MoverIsPeriodic(rows, key, desired, moves, reserved, m);
    } else {
      forall m | 0 <= m < |moves| ensures moves[m].ruleId != d.id {
        Unmoved(rows, key, desired, moves, reserved, i, m);
      }
    }
  }

  // The rule at index `i` occupies its desired slot or none that is desired.
  lemma SlotTaken(rows: map<nat, Row>, moved: map<nat, Row>, current: map<nat, Row>, key: nat,
                  desired: seq<Desired>, ids: seq<nat>, reserved: set<int>, id: nat) returns (i: nat)
    requires |ids| < |desired| && forall i :: 0 <= i < |desired| ==> Refers(current, desired[i])
    requires AllParked(moved, current, key, desired, reserved) && Progress(rows, moved, current, key, desired, ids)
    requires id in rows && rows[id].key == key
    ensures i < |desired| && (i < |ids| ==> ids[i] == id) && (i >= |ids| ==> desired[i].id == id)
    ensures rows[id].kind == desired[i].kind
    ensures rows[id].period == desired[i].period || (desired[i].kind.Periodic? && rows[id].period !in reserved)
  {
    assert Owner(desired, ids, id);
    if j :| 0 <= j < |ids| && ids[j] == id {
      i := j;
      assert desired[i].id != 0 ==> Parked(moved, current, desired[i], reserved);
    } else {
      i :| |ids| <= i < |desired| && desired[i].id == id && id != 0;
      assert Parked(moved, current, desired[i], reserved);
    }
  }

  /** The next update or insert never meets the unique index. */
  lemma TargetFits(rows: map<nat, Row>, moved: map<nat, Row>, current: map<nat, Row>, key: nat,
                   desired: seq<Desired>, ids: seq<nat>, reserved: set<int>, at: nat)
    requires ValidDesired(desired)
    requires |ids| < |desired| && forall i :: 0 <= i < |desired| ==> Refers(current, desired[i])
    requires AllParked(moved, current, key, desired, reserved) && Progress(rows, moved, current, key, desired, ids)
    requires desired[|ids|].id != 0 ==> at == desired[|ids|].id
    requires desired[|ids|].id == 0 ==> at !in rows
    ensures Fits(rows, at, TargetRow(current, key, desired[|ids|]))
  {
    var n := |ids|;
    var row := TargetRow(current, key, desired[n]);
    assert desired[n].id != 0 ==> Parked(moved, current, desired[n], reserved);
    assert row.key == key && row.kind == desired[n].kind && row.period == desired[n].period;
    forall j | j in rows && j != at ensures !SameSlot(rows[j], row) {
      if rows[j].key == key {
        var i := SlotTaken(rows, moved, current, key, desired, ids, reserved, j);
        assert i != n;
      }
    }
  }

  lemma ProgressStep(rows: map<nat, Row>, moved: map<nat, Row>, current: map<nat, Row>, key: nat,
                     desired: seq<Desired>, ids: seq<nat>, at: nat)
    requires ValidDesired(desired)
    requires |ids| < |desired| && forall i :: 0 <= i < |desired| ==> Refers(current, desired[i])
    requires Progress(rows, moved, current, key, desired, ids)
    requires forall id :: id in current ==> current[id].key == key
    requires forall i :: 0 <= i < |desired| && desired[i].id in moved ==> moved[desired[i].id].key == key
    requires desired[|ids|].id != 0 ==> at == desired[|ids|].id
    requires desired[|ids|].id == 0 ==> at !in rows && at !in current && at !in moved
    requires forall i :: 0 <= i < |ids| ==> ids[i] != at
    ensures Progress(rows[at := TargetRow(current, key, desired[|ids|])], moved, current, key, desired, ids + [at])
  {
    hide CountOk;
    var n := |ids|;
    var next, after := rows[at := TargetRow(current, key, desired[n])], ids + [at];
    assert TargetRow(current, key, desired[n]).key == key;
    forall i | |after| <= i < |desired| && desired[i].id != 0
      ensures desired[i].id in next && desired[i].id in moved && next[desired[i].id] == moved[desired[i].id]
    {
      assert desired[i].id != at;
    }
    forall i | 0 <= i < |after| ensures after[i] in next && next[after[i]] == TargetRow(current, key, desired[i]) {
    }
    forall id | id in next && next[id].key == key ensures Owner(desired, after, id) {
      if id == at {
        assert after[n] == at;
      } else if i :| 0 <= i < |ids| && ids[i] == id {
        assert after[i] == id;
      } else {
        assert Owner(desired, ids, id);
        var i :| |ids| <= i < |desired| && desired[i].id == id && id != 0;
        assert i != n;
      }
    }
  }

  // The checkpoint after a definition is done: reset for a new or changed rule, else kept.
  function TargetState(states: map<nat, Saved>, current: map<nat, Row>, key: nat, d: Desired): Saved
    requires Refers(current, d)
  {
    if d.id != 0 && !Changes(current, d) && d.id in states then states[d.id]
    else ZeroState(TargetRow(current, key, d).revision)
  }

  ghost predicate StateProgress(now: map<nat, Saved>, states: map<nat, Saved>, current: map<nat, Row>, key: nat,
                                desired: seq<Desired>, ids: seq<nat>)
    requires |ids| <= |desired| && forall i :: 0 <= i < |desired| ==> Refers(current, desired[i])
  {
    && (forall i :: 0 <= i < |ids| ==> ids[i] in now && now[ids[i]] == TargetState(states, current, key, desired[i]))
    && (forall id :: id in states && (forall i :: 0 <= i < |ids| ==> ids[i] != id) ==> id in now && now[id] == states[id])
  }

  lemma StateStep(now: map<nat, Saved>, next: map<nat, Saved>, states: map<nat, Saved>, current: map<nat, Row>, key: nat,
                  desired: seq<Desired>, ids: seq<nat>, at: nat)
    requires |ids| < |desired| && forall i :: 0 <= i < |desired| ==> Refers(current, desired[i])
    requires StateProgress(now, states, current, key, desired, ids)
    requires forall i :: 0 <= i < |ids| ==> ids[i] != at
    requires at in next && next[at] == TargetState(states, current, key, desired[|ids|])
    requires forall id :: id in now && id != at ==> id in next && next[id] == now[id]
    ensures StateProgress(next, states, current, key, desired, ids + [at])
  {
    var after := ids + [at];
    forall id | id in states && (forall i :: 0 <= i < |after| ==> after[i] != id) ensures id in next && next[id] == states[id] {
      assert forall i :: 0 <= i < |ids| ==> after[i] == ids[i];
      assert after[|ids|] == at;
    }
  }

  // What holds between two definitions.
  ghost predicate Stage(rows: map<nat, Row>, now: map<nat, Saved>, moved: map<nat, Row>, states: map<nat, Saved>,
                        current: map<nat, Row>, key: nat, desired: seq<Desired>, ids: seq<nat>, firstNew: nat)
  {
    && |ids| <= |desired| && (forall i :: 0 <= i < |desired| ==> Refers(current, desired[i]))
    && Progress(rows, moved, current, key, desired, ids)
    && StateProgress(now, states, current, key, desired, ids)
    && Synced(rows, now)
    && (forall i :: 0 <= i < |ids| && desired[i].id == 0 ==> ids[i] >= firstNew)
  }

  // The facts that do not change while the definitions are applied.
  ghost predicate Setting(moved: map<nat, Row>, current: map<nat, Row>, key: nat, desired: seq<Desired>,
                          reserved: set<int>, firstNew: nat)
  {
    && ValidDesired(desired) && (forall i :: 0 <= i < |desired| ==> Refers(current, desired[i]))
    && AllParked(moved, current, key, desired, reserved)
    && (forall id :: id in moved || id in current ==> 0 < id < firstNew)
    && (forall id :: id in current ==> current[id].revision > 0)
  }

  lemma NextIndexIsNew(rows: map<nat, Row>, moved: map<nat, Row>, current: map<nat, Row>, key: nat,
                       desired: seq<Desired>, ids: seq<nat>, reserved: set<int>, firstNew: nat)
    requires Setting(moved, current, key, desired, reserved, firstNew)
    requires |ids| < |desired| && Progress(rows, moved, current, key, desired, ids)
    requires forall i :: 0 <= i < |ids| && desired[i].id == 0 ==> ids[i] >= firstNew
    ensures desired[|ids|].id != 0 ==> forall i :: 0 <= i < |ids| ==> ids[i] != desired[|ids|].id
  {
  }

  method ApplyNew(table: Table, key: nat, d: Desired, ghost moved: map<nat, Row>, ghost states: map<nat, Saved>,
                  ghost current: map<nat, Row>, ghost desired: seq<Desired>, ghost ids: seq<nat>,
                  ghost reserved: set<int>, ghost firstNew: nat)
    returns (ok: bool, id: nat)
    requires table.Valid() && firstNew <= table.nextId
    requires Setting(moved, current, key, desired, reserved, firstNew)
    requires Stage(table.rows, table.states, moved, states, current, key, desired, ids, firstNew)
    requires |ids| < |desired| && d == desired[|ids|] && d.id == 0
    modifies table
    ensures table.Valid() && table.nextId >= old(table.nextId) && ok
    ensures Stage(table.rows, table.states, moved, states, current, key, desired, ids + [id], firstNew)
  {
    hide ValidDesired, AllParked, Progress, StateProgress, RuleTable.Unique;
    TargetFits(table.rows, moved, current, key, desired, ids, reserved, table.nextId);
    StagedIds(table.rows, moved, current, key, desired, ids);
    ProgressStep(table.rows, moved, current, key, desired, ids, table.nextId) by {
      ParkedKeys(moved, current, key, desired, reserved);
    }
    ghost var before := table.states;
    id, ok := table.Insert(Row(key, d.kind, d.limit, d.period, 1));
    StateStep(before, table.states, states, current, key, desired, ids, id);
  }

  lemma StagedIds(rows: map<nat, Row>, moved: map<nat, Row>, current: map<nat, Row>, key: nat,
                  desired: seq<Desired>, ids: seq<nat>)
    requires |ids| <= |desired| && (forall i :: 0 <= i < |desired| ==> Refers(current, desired[i]))
    requires Progress(rows, moved, current, key, desired, ids)
    ensures forall i :: 0 <= i < |ids| ==> ids[i] in rows
  {
  }

  lemma ParkedKeys(moved: map<nat, Row>, current: map<nat, Row>, key: nat, desired: seq<Desired>, reserved: set<int>)
    requires AllParked(moved, current, key, desired, reserved)
    requires 0 !in moved
    ensures forall id :: id in current ==> current[id].key == key
    ensures forall i :: 0 <= i < |desired| && desired[i].id in moved ==> moved[desired[i].id].key == key
  {
    forall i | 0 <= i < |desired| && desired[i].id in moved ensures moved[desired[i].id].key == key {
      assert desired[i].id != 0;
      assert Parked(moved, current, desired[i], reserved);
    }
  }

  lemma WaitingRow(rows: map<nat, Row>, moved: map<nat, Row>, current: map<nat, Row>, key: nat,
                   desired: seq<Desired>, ids: seq<nat>, reserved: set<int>)
    requires |ids| < |desired| && (forall i :: 0 <= i < |desired| ==> Refers(current, desired[i]))
    requires AllParked(moved, current, key, desired, reserved) && Progress(rows, moved, current, key, desired, ids)
    requires desired[|ids|].id != 0
    ensures var d := desired[|ids|];
            && d.id in rows && d.id in current && rows[d.id].key == key && rows[d.id].revision == current[d.id].revision
            && TargetRow(current, key, d)
               == if Changes(current, d) then rows[d.id].(limit := d.limit, period := d.period, revision := current[d.id].revision + 1)
                  else rows[d.id].(limit := d.limit)
  {
    assert Parked(moved, current, desired[|ids|], reserved);
  }

  method ApplyExisting(table: Table, key: nat, d: Desired, current: map<nat, Row>, ghost moved: map<nat, Row>,
                       ghost states: map<nat, Saved>, ghost desired: seq<Desired>, ghost ids: seq<nat>,
                       ghost reserved: set<int>, ghost firstNew: nat)
    returns (ok: bool)
    requires table.Valid() && firstNew <= table.nextId
    requires Setting(moved, current, key, desired, reserved, firstNew)
    requires Stage(table.rows, table.states, moved, states, current, key, desired, ids, firstNew)
    requires |ids| < |desired| && d == desired[|ids|] && d.id != 0
    requires d.id in states && states[d.id] == table.states[d.id]
    modifies table
    ensures table.Valid() && table.nextId == old(table.nextId) && ok
    ensures Stage(table.rows, table.states, moved, states, current, key, desired, ids + [d.id], firstNew)
    ensures d.id in current && d.id in table.rows && table.rows == old(table.rows)[d.id := table.rows[d.id]]
    ensures table.rows[d.id].limit == d.limit
    ensures current[d.id].period == d.period ==> table.states == old(table.states)
    ensures current[d.id].period != d.period ==>
              && table.rows[d.id].period == d.period && table.rows[d.id].revision == current[d.id].revision + 1
              && table.states == old(table.states)[d.id := Saved(current[d.id].revision + 1, 0, None, None, 0, 1)]
  {
    hide ValidDesired, AllParked, Progress, StateProgress, RuleTable.Unique;
    WaitingRow(table.rows, moved, current, key, desired, ids, reserved);
    TargetFits(table.rows, moved, current, key, desired, ids, reserved, d.id);
    NextIndexIsNew(table.rows, moved, current, key, desired, ids, reserved, firstNew);
    ProgressStep(table.rows, moved, current, key, desired, ids, d.id) by {
      ParkedKeys(moved, current, key, desired, reserved);
    }
    ghost var before := table.states;
    var revision := current[d.id].revision;
    var changed := current[d.id].period != d.period;
    ok := table.Update(d.id, key, d.limit, if changed then Some(d.period) else None, revision + 1);
    if changed {
      var affected := table.ResetState(d.id, revision, revision + 1);
      ok := ok && affected == 1;
    }
    StateStep(before, table.states, states, current, key, desired, ids, d.id);
  }

  lemma WaitingState(now: map<nat, Saved>, states: map<nat, Saved>, current: map<nat, Row>, key: nat,
                     desired: seq<Desired>, ids: seq<nat>, id: nat)
    requires |ids| <= |desired| && (forall i :: 0 <= i < |desired| ==> Refers(current, desired[i]))
    requires StateProgress(now, states, current, key, desired, ids)
    requires id in states && forall i :: 0 <= i < |ids| ==> ids[i] != id
    ensures id in now && now[id] == states[id]
  {
  }

  method ApplyDesired(table: Table, key: nat, current: map<nat, Row>, desired: seq<Desired>,
                      ghost reserved: set<int>, ghost firstNew: nat)
    returns (ok: bool, ids: seq<nat>)
    requires table.Valid() && firstNew <= table.nextId && Synced(table.rows, table.states)
    requires Setting(table.rows, current, key, desired, reserved, firstNew)
    requires Progress(table.rows, table.rows, current, key, desired, [])
    modifies table
    ensures table.Valid() && ok && |ids| == |desired|
    ensures Stage(table.rows, table.states, old(table.rows), old(table.states), current, key, desired, ids, firstNew)
  {
    hide ValidDesired, AllParked, Progress, RuleTable.Unique, TargetState;
    ghost var moved, states := table.rows, table.states;
    ids := [];
    for n := 0 to |desired|
      invariant table.Valid() && firstNew <= table.nextId && |ids| == n
      invariant Stage(table.rows, table.states, moved, states, current, key, desired, ids, firstNew)
    {
      var d := desired[n];
      if d.id == 0 {
        var done, id := ApplyNew(table, key, d, moved, states, current, desired, ids, reserved, firstNew);
        if !done {
          return false, ids;
        }
        ids := ids + [id];
      } else {
        NextIndexIsNew(table.rows, moved, current, key, desired, ids, reserved, firstNew);
        ParkedIds(moved, current, key, desired, reserved, n);
        WaitingState(table.states, states, current, key, desired, ids, d.id);
        var done := ApplyExisting(table, key, d, current, moved, states, desired, ids, reserved, firstNew);
        if !done {
          return false, ids;
        }
        ids := ids + [d.id];
      }
    }
    ok := true;
  }

  lemma ParkedIds(moved: map<nat, Row>, current: map<nat, Row>, key: nat, desired: seq<Desired>, reserved: set<int>, i: nat)
    requires AllParked(moved, current, key, desired, reserved) && i < |desired| && desired[i].id != 0
    ensures desired[i].id in moved
  {
    assert Parked(moved, current, desired[i], reserved);
  }

  // ---- the whole edit -------------------------------------------------------------

  lemma MovedKeepsRest(rows: map<nat, Row>, moves: seq<Move>, id: nat)
    requires id in rows
    ensures Moved(rows, moves)[id].key == rows[id].key && Moved(rows, moves)[id].revision == rows[id].revision
    decreases |moves|
  {
    if moves != [] {
      MovedKeepsRest(rows, moves[..|moves| - 1], id);
    }
  }

  lemma StartProgress(rows: map<nat, Row>, key: nat, desired: seq<Desired>, moves: seq<Move>)
    requires 0 !in rows && forall i :: 0 <= i < |desired| ==> Refers(RowsOfKey(rows, key), desired[i])
    ensures var moved := Moved(Kept(rows, key, desired), moves);
            Progress(moved, moved, RowsOfKey(rows, key), key, desired, [])
  {
    var kept := Kept(rows, key, desired);
    var moved := Moved(kept, moves);
    forall id | id in moved && moved[id].key == key ensures Owner(desired, [], id) {
      MovedKeepsRest(kept, moves, id);
      assert Retained(desired, id);
    }
    forall i | 0 <= i < |desired| && desired[i].id != 0 ensures desired[i].id in moved {
      assert Refers(RowsOfKey(rows, key), desired[i]);
      assert Retained(desired, desired[i].id);
    }
  }

  lemma {:induction false} CountsCoverAll(rules: seq<Rule>)
    requires forall i :: 0 <= i < |rules| ==> rules[i].kind.Total? || rules[i].kind.Periodic?
    ensures |rules| == CountTotal(rules) + CountPeriodic(rules)
    decreases |rules|
  {
    if rules != [] {
      CountsCoverAll(rules[..|rules| - 1]);
    }
  }

  lemma AtMostEleven(desired: seq<Desired>)
    requires ValidDesired(desired)
    ensures |desired| <= MAX_PERIODIC_RULES + 1
  {
    forall i | 0 <= i < |desired| ensures AsRules(desired)[i].kind.Total? || AsRules(desired)[i].kind.Periodic? {
      assert ValidPeriod(desired[i].kind, desired[i].period);
    }
    CountsCoverAll(AsRules(desired));
  }

  predicate Refused(current: map<nat, Row>, desired: seq<Desired>) {
    exists i :: 0 <= i < |desired| && (!Refers(current, desired[i]) || Exhausts(current, desired[i]))
  }

  // The result: each definition has its row under its ID, nothing else of this key remains,
  // and rows of other keys are as before.
  ghost predicate Edited(before: map<nat, Row>, after: map<nat, Row>, key: nat, desired: seq<Desired>, ids: seq<nat>, firstNew: nat)
    requires forall i :: 0 <= i < |desired| ==> Refers(RowsOfKey(before, key), desired[i])
  {
    && |ids| == |desired|
    && (forall i :: 0 <= i < |ids| ==> ids[i] in after && after[ids[i]] == TargetRow(RowsOfKey(before, key), key, desired[i]))
    && (forall i :: 0 <= i < |ids| ==> if desired[i].id != 0 then ids[i] == desired[i].id else ids[i] >= firstNew)
    && (forall id :: id in after && after[id].key == key ==> id in ids)
    && (forall id :: id in before && before[id].key != key ==> id in after && after[id] == before[id])
    && (forall id :: id in after && after[id].key != key ==> id in before && after[id] == before[id])
  }

  method CheckReferences(current: map<nat, Row>, desired: seq<Desired>) returns (ok: bool)
    ensures ok <==> forall i :: 0 <= i < |desired| ==> Refers(current, desired[i])
  {
    for n := 0 to |desired|
      invariant forall i :: 0 <= i < n ==> Refers(current, desired[i])
    {
      var d := desired[n];
      if d.id != 0 && (d.id !in current || current[d.id].kind != d.kind) {
        assert !Refers(current, d);
        return false;
      }
    }
    ok := true;
  }

  lemma FinalRows(rows: map<nat, Row>, key: nat, desired: seq<Desired>, moves: seq<Move>,
                  after: map<nat, Row>, now: map<nat, Saved>, states: map<nat, Saved>, ids: seq<nat>, firstNew: nat)
    requires forall i :: 0 <= i < |desired| ==> Refers(RowsOfKey(rows, key), desired[i])
    requires |ids| == |desired|
    requires Stage(after, now, Moved(Kept(rows, key, desired), moves), states, RowsOfKey(rows, key), key, desired, ids, firstNew)
    requires forall m :: 0 <= m < |moves| ==> moves[m].ruleId in rows && rows[moves[m].ruleId].key == key
    requires forall m, l :: 0 <= m < l < |moves| ==> moves[m].ruleId != moves[l].ruleId
    ensures Edited(rows, after, key, desired, ids, firstNew)
  {
    var kept := Kept(rows, key, desired);
    var moved := Moved(kept, moves);
    forall id | id in kept && kept[id].key != key ensures id in moved && moved[id] == rows[id] {
      MovedRow(kept, moves, id);
    }
    forall id | id in moved ensures moved[id].key == rows[id].key {
      MovedKeepsRest(kept, moves, id);
    }
    forall id | id in after && after[id].key == key ensures id in ids {
      assert Owner(desired, ids, id);
    }
  }

  /** Editing the rules of a key. The unique index is never met: the edit fails only for a
      definition that names no rule of this key and kind, or a rule without a next revision. */
  // What becomes of one definition, in fields. A new rule starts with revision 1 and nothing used. A rule
  // that keeps its period keeps revision and checkpoint. A rule that changes it gets the next revision and
  // starts again.
  predicate EditMeans(d: Desired, key: nat, id: nat, rows: map<nat, Row>, states: map<nat, Saved>,
                      after: map<nat, Row>, saved: map<nat, Saved>)
  {
    && id in after && id in saved
    && if d.id == 0 then
         && id !in rows
         && after[id] == Row(key, d.kind, d.limit, d.period, 1) && saved[id] == Saved(1, 0, None, None, 0, 1)
       else
         && id == d.id && id in rows && id in states
         && (rows[id].period == d.period ==>
               && after[id] == Row(key, rows[id].kind, d.limit, rows[id].period, rows[id].revision)
               && saved[id] == states[id])
         && (rows[id].period != d.period ==>
               && after[id] == Row(key, rows[id].kind, d.limit, d.period, rows[id].revision + 1)
               && saved[id] == Saved(rows[id].revision + 1, 0, None, None, 0, 1))
  }

  // The definition names no rule of this key and kind.
  predicate BadReference(d: Desired, key: nat, rows: map<nat, Row>) {
    d.id != 0 && (d.id !in rows || rows[d.id].key != key || rows[d.id].kind != d.kind)
  }

  // The definition changes the period of a rule whose revisions are used up.
  predicate NoRevisionLeft(d: Desired, key: nat, rows: map<nat, Row>) {
    d.id != 0 && d.id in rows && rows[d.id].key == key && rows[d.id].period != d.period && rows[d.id].revision == MAX_UINT64
  }

  // Rows and checkpoints of other keys are as they were, and of this key only the desired rows remain.
  ghost predicate NothingElse(key: nat, ids: seq<nat>, rows: map<nat, Row>, states: map<nat, Saved>,
                              after: map<nat, Row>, saved: map<nat, Saved>)
  {
    && (forall id :: id in rows && rows[id].key != key ==>
          id in after && after[id] == rows[id] && id in states && id in saved && saved[id] == states[id])
    && (forall id :: id in after ==> id in ids || (id in rows && rows[id].key != key))
    && saved.Keys == after.Keys
  }

  lemma RefusedMeans(rows: map<nat, Row>, key: nat, desired: seq<Desired>)
    ensures (exists i :: 0 <= i < |desired| && !Refers(RowsOfKey(rows, key), desired[i])) <==>
            (exists i :: 0 <= i < |desired| && BadReference(desired[i], key, rows))
    ensures Refused(RowsOfKey(rows, key), desired) <==>
            exists i :: 0 <= i < |desired| && (BadReference(desired[i], key, rows) || NoRevisionLeft(desired[i], key, rows))
  {
    var current := RowsOfKey(rows, key);
    forall i | 0 <= i < |desired|
      ensures Refers(current, desired[i]) <==> !BadReference(desired[i], key, rows)
      ensures Exhausts(current, desired[i]) <==> NoRevisionLeft(desired[i], key, rows)
    {
    }
    hide Refers, Exhausts, BadReference, NoRevisionLeft;
  }

  lemma EditedMeans(rows: map<nat, Row>, states: map<nat, Saved>, after: map<nat, Row>, saved: map<nat, Saved>,
                    key: nat, desired: seq<Desired>, ids: seq<nat>, firstNew: nat, i: nat)
    requires forall j :: 0 <= j < |desired| ==> Refers(RowsOfKey(rows, key), desired[j])
    requires Edited(rows, after, key, desired, ids, firstNew) && i < |desired|
    requires states.Keys == rows.Keys && saved.Keys == after.Keys && forall id :: id in rows ==> id < firstNew
    requires saved[ids[i]] == TargetState(states, RowsOfKey(rows, key), key, desired[i])
    ensures EditMeans(desired[i], key, ids[i], rows, states, after, saved)
  {
    assert Refers(RowsOfKey(rows, key), desired[i]);
  }

  method Reconcile(table: Table, key: nat, desired: seq<Desired>) returns (r: Result<seq<nat>, EditError>)
    requires table.Valid() && ValidRows(table.rows) && Synced(table.rows, table.states)
    requires ValidDesired(desired) && |RowsOfKey(table.rows, key)| <= MAX_PERIODIC_RULES + 1
    modifies table
    ensures table.Valid()
    ensures r.Err? <==> Refused(RowsOfKey(old(table.rows), key), desired)
    ensures r.Err? ==> r.error.Validation? || r.error.NoNextRevision?
    ensures r.Ok? ==> Edited(old(table.rows), table.rows, key, desired, r.value, old(table.nextId))
    ensures r.Ok? ==> Synced(table.rows, table.states)
    ensures r.Ok? ==> forall i :: 0 <= i < |desired| ==>
      table.states[r.value[i]] == TargetState(old(table.states), RowsOfKey(old(table.rows), key), key, desired[i])
    ensures r == Err(Validation) <==> exists i :: 0 <= i < |desired| && BadReference(desired[i], key, old(table.rows))
    ensures r.Ok? ==> |r.value| == |desired| && forall i :: 0 <= i < |desired| ==>
      EditMeans(desired[i], key, r.value[i], old(table.rows), old(table.states), table.rows, table.states)
    ensures r.Ok? ==> NothingElse(key, r.value, old(table.rows), old(table.states), table.rows, table.states)
    ensures r.Err? <==>
      exists i :: 0 <= i < |desired| && (BadReference(desired[i], key, old(table.rows)) || NoRevisionLeft(desired[i], key, old(table.rows)))
  {
    RefusedMeans(table.rows, key, desired);
    hide CountOk, RuleTable.Unique, Edited, StateProgress, Planned, BadReference, NoRevisionLeft, EditMeans, NothingElse;
    var current := RowsOfKey(table.rows, key);
    ghost var rows, firstNew, saved := table.rows, table.nextId, table.states;
    var referring := CheckReferences(current, desired);
    if !referring {
      return Err(Validation);
    }
    DeleteOthers(table, key, desired);
    AtMostEleven(desired);
    var plan, reserved := Plan(current, desired);
    if plan.Err? {
      return Err(NoNextRevision);
    }
    ghost var kept := table.states;
    r := Write(table, key, current, desired, plan.value, rows, reserved, firstNew);
    StatesReported(table.states, kept, saved, rows, key, desired, r.value);
    EditReported(rows, saved, table.rows, table.states, kept, key, desired, r.value, firstNew);
  }

  lemma EditReported(rows: map<nat, Row>, states: map<nat, Saved>, after: map<nat, Row>, saved: map<nat, Saved>,
                     kept: map<nat, Saved>, key: nat, desired: seq<Desired>, ids: seq<nat>, firstNew: nat)
    requires forall j :: 0 <= j < |desired| ==> Refers(RowsOfKey(rows, key), desired[j])
    requires Edited(rows, after, key, desired, ids, firstNew)
    requires states.Keys == rows.Keys && saved.Keys == after.Keys && forall id :: id in rows ==> 0 < id < firstNew
    requires forall i :: 0 <= i < |desired| ==> saved[ids[i]] == TargetState(states, RowsOfKey(rows, key), key, desired[i])
    requires kept.Keys == Kept(rows, key, desired).Keys && forall id :: id in kept ==> id in states && kept[id] == states[id]
    requires StateProgress(saved, kept, RowsOfKey(rows, key), key, desired, ids)
    ensures forall i :: 0 <= i < |desired| ==> EditMeans(desired[i], key, ids[i], rows, states, after, saved)
    ensures NothingElse(key, ids, rows, states, after, saved)
  {
    hide TargetState, EditMeans;
    forall i | 0 <= i < |desired| ensures EditMeans(desired[i], key, ids[i], rows, states, after, saved) {
      EditedMeans(rows, states, after, saved, key, desired, ids, firstNew, i);
    }
    forall id | id in rows && rows[id].key != key ensures saved[id] == states[id] {
      assert id in kept;
      forall i | 0 <= i < |ids| ensures ids[i] != id {
        assert Refers(RowsOfKey(rows, key), desired[i]);
      }
    }
  }

  // The checkpoints after an edit, in terms of those before it.
  lemma StatesReported(now: map<nat, Saved>, kept: map<nat, Saved>, saved: map<nat, Saved>, rows: map<nat, Row>, key: nat,
                       desired: seq<Desired>, ids: seq<nat>)
    requires |ids| == |desired| && forall i :: 0 <= i < |desired| ==> Refers(RowsOfKey(rows, key), desired[i])
    requires StateProgress(now, kept, RowsOfKey(rows, key), key, desired, ids)
    requires Synced(Kept(rows, key, desired), kept)
    requires forall id :: id in kept ==> id in saved && kept[id] == saved[id]
    ensures forall i :: 0 <= i < |desired| ==>
              ids[i] in now && now[ids[i]] == TargetState(saved, RowsOfKey(rows, key), key, desired[i])
  {
    forall i | 0 <= i < |desired|
      ensures ids[i] in now && now[ids[i]] == TargetState(saved, RowsOfKey(rows, key), key, desired[i])
    {
      assert Retained(desired, desired[i].id);
      assert desired[i].id != 0 ==> desired[i].id in Kept(rows, key, desired);
    }
  }

  method Write(table: Table, key: nat, current: map<nat, Row>, desired: seq<Desired>, moves: seq<Move>,
               ghost rows: map<nat, Row>, ghost reserved: set<int>, ghost firstNew: nat)
    returns (r: Result<seq<nat>, EditError>)
    requires table.Valid() && table.rows == Kept(rows, key, desired) && table.nextId == firstNew
    requires Synced(table.rows, table.states)
    requires Editable(rows, key, desired) && current == RowsOfKey(rows, key)
    requires Planned(current, desired, moves, reserved)
    requires forall id :: id in rows ==> 0 < id < firstNew
    modifies table
    ensures table.Valid() && r.Ok? && Synced(table.rows, table.states)
    ensures Edited(rows, table.rows, key, desired, r.value, firstNew)
    ensures StateProgress(table.states, old(table.states), current, key, desired, r.value)
  {
    var moved := ApplyMoves(table, key, moves, rows, desired, reserved);
    if !moved {
      return Err(IndexViolated);
    }
    MovesPark(rows, key, desired, moves, reserved);
    StartProgress(rows, key, desired, moves);
    SyncedMoved(rows, key, desired, moves, table.states);
    ghost var parked, states := table.rows, table.states;
    var ok, ids := ApplyDesired(table, key, current, desired, reserved, firstNew);
    if !ok {
      return Err(RowLost);
    }
    forall m | 0 <= m < |moves| ensures moves[m].ruleId in rows && rows[moves[m].ruleId].key == key {
      MoverIsPeriodic(rows, key, desired, moves, reserved, m);
    }
    FinalRows(rows, key, desired, moves, table.rows, table.states, states, ids, firstNew);
    r := Ok(ids);
  }

  lemma SyncedMoved(rows: map<nat, Row>, key: nat, desired: seq<Desired>, moves: seq<Move>, states: map<nat, Saved>)
    requires Synced(Kept(rows, key, desired), states)
    ensures Synced(Moved(Kept(rows, key, desired), moves), states)
  {
    var kept := Kept(rows, key, desired);
    forall id | id in kept ensures Moved(kept, moves)[id].revision == kept[id].revision {
      MovedKeepsRest(kept, moves, id);
    }
  }

  // ---- the runtime accepts every edit ---------------------------------------------

  // Live rules carry an ID that was issued, a revision that is not ahead of the row, and at the
  // row's revision its kind and period.
  ghost predicate LiveFrom(rows: map<nat, Row>, rules: seq<RuleState>, firstNew: nat) {
    forall i :: 0 <= i < |rules| ==>
      && rules[i].def.id < firstNew
      && (rules[i].def.id in rows ==>
            var row := rows[rules[i].def.id];
            && rules[i].def.revision <= row.revision
            && (rules[i].def.revision == row.revision ==> rules[i].def.kind == row.kind && rules[i].def.period == row.period))
  }

  function RuleOf(id: nat, row: Row): Rule {
    Rule(id, row.revision, row.kind, row.limit, row.period)
  }

  function DefinitionsOfKey(rows: map<nat, Row>, ids: seq<nat>): seq<Rule>
    requires forall i :: 0 <= i < |ids| ==> ids[i] in rows
  {
    seq(|ids|, i requires 0 <= i < |ids| => RuleOf(ids[i], rows[ids[i]]))
  }

  lemma {:induction false} SameKindsSameCounts(a: seq<Rule>, b: seq<Rule>)
    requires |a| == |b| && forall i :: 0 <= i < |a| ==> a[i].kind == b[i].kind
    ensures CountTotal(a) == CountTotal(b) && CountPeriodic(a) == CountPeriodic(b)
    decreases |a|
  {
    if a != [] {
      SameKindsSameCounts(a[..|a| - 1], b[..|b| - 1]);
    }
  }

  lemma EditedIdsDistinct(before: map<nat, Row>, after: map<nat, Row>, key: nat, desired: seq<Desired>, ids: seq<nat>, firstNew: nat)
    requires ValidDesired(desired) && forall i :: 0 <= i < |desired| ==> Refers(RowsOfKey(before, key), desired[i])
    requires Edited(before, after, key, desired, ids, firstNew)
    requires forall i, j :: 0 <= i < j < |desired| && desired[i].id == 0 && desired[j].id == 0 ==>
      !SameSlot(after[ids[i]], after[ids[j]])
    requires forall id :: id in before ==> 0 < id < firstNew
    ensures forall i, j :: 0 <= i < j < |ids| ==> ids[i] != ids[j]
  {
    hide CountOk;
    forall i, j | 0 <= i < j < |ids| ensures ids[i] != ids[j] {
      assert Refers(RowsOfKey(before, key), desired[i]) && Refers(RowsOfKey(before, key), desired[j]);
    }
  }

  lemma TargetSlot(current: map<nat, Row>, key: nat, d: Desired)
    requires Refers(current, d)
    ensures TargetRow(current, key, d).kind == d.kind && TargetRow(current, key, d).period == d.period
    ensures TargetRow(current, key, d).limit == d.limit
  {
  }

  /** The edited rows of a key are definitions the runtime validates. */
  lemma EditedRowsAreValid(before: map<nat, Row>, after: map<nat, Row>, key: nat, desired: seq<Desired>, ids: seq<nat>, firstNew: nat)
    requires ValidRows(before) && ValidDesired(desired)
    requires forall i :: 0 <= i < |desired| ==> Refers(RowsOfKey(before, key), desired[i])
    requires Edited(before, after, key, desired, ids, firstNew)
    requires firstNew > 0 && forall id :: id in before ==> 0 < id < firstNew
    ensures ValidRules(DefinitionsOfKey(after, ids))
  {
    var rules := DefinitionsOfKey(after, ids);
    EditedMatches(before, after, key, desired, ids, firstNew);
    SameKindsSameCounts(rules, AsRules(desired));
    hide Edited, AsRules, QuotaModel.CountTotal, QuotaModel.CountPeriodic, QuotaModel.ValidRule;
    forall i, j | 0 <= i < j < |desired| ensures !SameSlot(after[ids[i]], after[ids[j]]) {
      assert rules[i].kind == desired[i].kind && rules[j].kind == desired[j].kind;
    }
    EditedIdsDistinct(before, after, key, desired, ids, firstNew);
  }

  // Each row is a valid rule of its definition's kind and period.
  lemma EditedMatches(before: map<nat, Row>, after: map<nat, Row>, key: nat, desired: seq<Desired>, ids: seq<nat>, firstNew: nat)
    requires ValidRows(before) && ValidDesired(desired)
    requires forall i :: 0 <= i < |desired| ==> Refers(RowsOfKey(before, key), desired[i])
    requires Edited(before, after, key, desired, ids, firstNew)
    requires firstNew > 0 && forall id :: id in before ==> 0 < id < firstNew
    ensures |ids| == |desired| && forall i :: 0 <= i < |ids| ==> ids[i] in after
    ensures forall i :: 0 <= i < |ids| ==>
              && ValidRule(DefinitionsOfKey(after, ids)[i])
              && DefinitionsOfKey(after, ids)[i].kind == desired[i].kind
              && DefinitionsOfKey(after, ids)[i].period == desired[i].period
  {
    hide CountOk;
    forall i | 0 <= i < |ids|
      ensures ValidRule(DefinitionsOfKey(after, ids)[i])
      ensures after[ids[i]].kind == desired[i].kind && after[ids[i]].period == desired[i].period
    {
      assert Refers(RowsOfKey(before, key), desired[i]);
      TargetSlot(RowsOfKey(before, key), key, desired[i]);
      assert ValidPeriod(desired[i].kind, desired[i].period);
    }
  }

  lemma EditedRevision(before: map<nat, Row>, after: map<nat, Row>, key: nat, desired: seq<Desired>, ids: seq<nat>, firstNew: nat, id: nat)
    requires forall i :: 0 <= i < |desired| ==> Refers(RowsOfKey(before, key), desired[i])
    requires Edited(before, after, key, desired, ids, firstNew)
    requires id in after && id < firstNew
    ensures id in before && before[id].revision <= after[id].revision
    ensures before[id].revision == after[id].revision ==>
      before[id].kind == after[id].kind && before[id].period == after[id].period
  {
    if after[id].key == key {
      var i :| 0 <= i < |ids| && ids[i] == id;
      assert Refers(RowsOfKey(before, key), desired[i]);
    }
  }

  /** No edit makes the runtime refuse: a period never changes under an unchanged revision. */
  lemma EditNeverConflicts(before: map<nat, Row>, after: map<nat, Row>, key: nat, desired: seq<Desired>, ids: seq<nat>,
                           firstNew: nat, rules: seq<RuleState>, defs: seq<Rule>)
    requires forall i :: 0 <= i < |desired| ==> Refers(RowsOfKey(before, key), desired[i])
    requires Edited(before, after, key, desired, ids, firstNew)
    requires LiveFrom(before, rules, firstNew)
    requires forall i :: 0 <= i < |defs| ==> defs[i].id in after && defs[i] == RuleOf(defs[i].id, after[defs[i].id])
    ensures LiveFrom(after, rules, firstNew)
    ensures Compatible(defs, rules)
  {
    hide Edited;
    forall i | 0 <= i < |rules| && rules[i].def.id in after
      ensures rules[i].def.revision <= after[rules[i].def.id].revision
      ensures rules[i].def.revision == after[rules[i].def.id].revision ==>
        rules[i].def.kind == after[rules[i].def.id].kind && rules[i].def.period == after[rules[i].def.id].period
    {
      EditedRevision(before, after, key, desired, ids, firstNew, rules[i].def.id);
    }
    forall i | 0 <= i < |defs| ensures !Conflicts(defs[i], rules) {
      var p := Find(rules, defs[i].id);
      if p.Some? {
        var j :| 0 <= j < |rules| && rules[j] == p.value;
      }
    }
  }
}
