/**
  Temporary periods for rules whose period changes: every changed rule first moves to a period
  that no current, desired or earlier temporary rule uses.
*/
module RulePlanner {
  import opened Wrappers
  import opened QuotaModel
  import opened RuleTable

  datatype Desired = Desired(id: nat, kind: Kind, limit: int, period: int)

  datatype Move = Move(ruleId: nat, temporary: int)

  datatype PlanError = RevisionExhausted | NoTemporary

  function Interval(low: int, high: int): (s: set<int>)
    ensures forall p :: p in s <==> low < p <= high
    decreases high - low
  {
    if low >= high then {} else Interval(low, high - 1) + {high}
  }

  lemma {:induction false} IntervalSize(low: int, high: int)
    requires low <= high
    ensures |Interval(low, high)| == high - low
    decreases high - low
  {
    if low < high {
      IntervalSize(low, high - 1);
    }
  }

  lemma SmallerSubset(a: set<int>, b: set<int>)
    requires a <= b
    ensures |a| <= |b|
  {
    assert b == a + (b - a);
    assert |b| == |a| + |b - a|;
  }

  // The highest period from `from` down that is not reserved.
  method NextFree(from: int, reserved: set<int>) returns (candidate: int)
    requires from <= MAX_PERIOD_SECONDS
    ensures candidate <= from
    ensures forall p :: candidate < p <= from && p >= MIN_PERIOD_SECONDS ==> p in reserved
    ensures candidate >= MIN_PERIOD_SECONDS ==> candidate !in reserved
    ensures from >= MIN_PERIOD_SECONDS - 1 ==> candidate >= MIN_PERIOD_SECONDS - 1
  {
    candidate := from;
    while candidate >= MIN_PERIOD_SECONDS && candidate in reserved
      invariant candidate <= from
      invariant from >= MIN_PERIOD_SECONDS - 1 ==> candidate >= MIN_PERIOD_SECONDS - 1
      invariant forall p :: candidate < p <= from && p >= MIN_PERIOD_SECONDS ==> p in reserved
    {
      candidate := candidate - 1;
    }
  }

  ghost predicate DistinctTemporaries(moves: seq<Move>, reserved: set<int>) {
    && (forall i, j :: 0 <= i < j < |moves| ==> moves[i].temporary != moves[j].temporary)
    && (forall i :: 0 <= i < |moves| ==>
          MIN_PERIOD_SECONDS <= moves[i].temporary <= MAX_PERIOD_SECONDS && moves[i].temporary !in reserved)
  }

  /** Every changed rule gets a temporary period in range, different from all reserved ones and
      from each other; that fails only if the reserved periods fill the whole range. */
  method AssignTemporaries(changed: seq<nat>, reserved: set<int>) returns (r: Result<seq<Move>, PlanError>)
    ensures r.Ok? ==> |r.value| == |changed| && DistinctTemporaries(r.value, reserved)
    ensures r.Ok? ==> forall i :: 0 <= i < |changed| ==> r.value[i].ruleId == changed[i]
    ensures r.Err? ==> r.error.NoTemporary? && |reserved| + |changed| > MAX_PERIOD_SECONDS - MIN_PERIOD_SECONDS + 1
  {
    var taken, moves, candidate := reserved, [], MAX_PERIOD_SECONDS;
    for n := 0 to |changed|
      invariant |moves| == n && MIN_PERIOD_SECONDS - 1 <= candidate <= MAX_PERIOD_SECONDS
      invariant DistinctTemporaries(moves, reserved)
      invariant forall i :: 0 <= i < n ==> moves[i].ruleId == changed[i] && moves[i].temporary > candidate
      invariant reserved <= taken && |taken| <= |reserved| + n
      invariant forall p :: p in taken ==> p in reserved || p > candidate
      invariant forall p :: candidate < p <= MAX_PERIOD_SECONDS ==> p in taken
    {
      candidate := NextFree(candidate, taken);
      if candidate < MIN_PERIOD_SECONDS {
        IntervalSize(MIN_PERIOD_SECONDS - 1, MAX_PERIOD_SECONDS);
        SmallerSubset(Interval(MIN_PERIOD_SECONDS - 1, MAX_PERIOD_SECONDS), taken);
        return Err(NoTemporary);
      }
      moves := moves + [Move(changed[n], candidate)];
      taken := taken + {candidate};
      candidate := candidate - 1;
    }
    r := Ok(moves);
  }

  function RowsOfKey(rows: map<nat, Row>, key: nat): map<nat, Row> {
    map id | id in rows && rows[id].key == key :: rows[id]
  }

  predicate Changes(current: map<nat, Row>, d: Desired) {
    d.id != 0 && d.id in current && current[d.id].period != d.period
  }

  predicate Exhausts(current: map<nat, Row>, d: Desired) {
    Changes(current, d) && current[d.id].revision == MAX_UINT64
  }

  function InsertId(id: nat, ids: seq<nat>): (s: seq<nat>)
    ensures multiset(s) == multiset(ids) + multiset{id}
  {
    if ids == [] then [id]
    else if id <= ids[0] then [id] + ids
    else
      assert ids == [ids[0]] + ids[1..];
      [ids[0]] + InsertId(id, ids[1..])
  }

  function SortIds(ids: seq<nat>): (s: seq<nat>)
    ensures multiset(s) == multiset(ids)
  {
    if ids == [] then []
    else
      assert ids == [ids[0]] + ids[1..];
      InsertId(ids[0], SortIds(ids[1..]))
  }

  method ReserveCurrent(current: map<nat, Row>) returns (reserved: set<int>)
    ensures forall id :: id in current && current[id].kind.Periodic? ==> current[id].period in reserved
    ensures |reserved| <= |current|
  {
    var todo := current.Keys;
    reserved := {};
    while todo != {}
      invariant todo <= current.Keys && |reserved| + |todo| <= |current.Keys|
      invariant forall id :: id in current && id !in todo && current[id].kind.Periodic? ==> current[id].period in reserved
    {
      var id :| id in todo;
      if current[id].kind.Periodic? {
        reserved := reserved + {current[id].period};
      }
      todo := todo - {id};
    }
    assert |current.Keys| == |current|;
  }

  // Which rules have to move, and every period that is or will be in use.
  method CollectChanges(current: map<nat, Row>, desired: seq<Desired>, reserved0: set<int>)
    returns (ok: bool, changed: seq<nat>, reserved: set<int>)
    ensures ok <==> forall i :: 0 <= i < |desired| ==> !Exhausts(current, desired[i])
    ensures ok ==> |changed| <= |desired| && |reserved| <= |reserved0| + |desired| && reserved0 <= reserved
    ensures ok ==> forall i :: 0 <= i < |desired| && desired[i].kind.Periodic? ==> desired[i].period in reserved
    ensures ok ==> forall id :: id in changed <==> exists i :: 0 <= i < |desired| && desired[i].id == id && Changes(current, desired[i])
    ensures ok ==> (forall i, j :: 0 <= i < j < |desired| && desired[i].id != 0 ==> desired[i].id != desired[j].id) ==>
      forall i, j :: 0 <= i < j < |changed| ==> changed[i] != changed[j]
  {
    changed, reserved := [], reserved0;
    ghost var at: seq<nat> := [];
    for n := 0 to |desired|
      invariant forall i :: 0 <= i < n ==> !Exhausts(current, desired[i])
      invariant |changed| == |at| <= n && |reserved| <= |reserved0| + n && reserved0 <= reserved
      invariant forall i :: 0 <= i < n && desired[i].kind.Periodic? ==> desired[i].period in reserved
      invariant forall m :: 0 <= m < |at| ==> at[m] < n && changed[m] == desired[at[m]].id && Changes(current, desired[at[m]])
      invariant forall m, l :: 0 <= m < l < |at| ==> at[m] < at[l]
      invariant forall i :: 0 <= i < n && Changes(current, desired[i]) ==> desired[i].id in changed
    {
      var d := desired[n];
      if d.kind.Periodic? {
        reserved := reserved + {d.period};
      }
      if Changes(current, d) {
        if current[d.id].revision == MAX_UINT64 {
          return false, changed, reserved;
        }
        changed := changed + [d.id];
        at := at + [n];
      }
    }
    ok := true;
  }

  predicate MoveNeeded(current: map<nat, Row>, desired: seq<Desired>, id: nat) {
    exists i :: 0 <= i < |desired| && desired[i].id == id && Changes(current, desired[i])
  }

  predicate MoveExists(moves: seq<Move>, id: nat) {
    exists m :: 0 <= m < |moves| && moves[m].ruleId == id
  }

  ghost predicate Planned(current: map<nat, Row>, desired: seq<Desired>, moves: seq<Move>, reserved: set<int>) {
    && DistinctTemporaries(moves, reserved)
    && (forall id :: id in current && current[id].kind.Periodic? ==> current[id].period in reserved)
    && (forall i :: 0 <= i < |desired| && desired[i].kind.Periodic? ==> desired[i].period in reserved)
    && (forall i :: 0 <= i < |desired| && Changes(current, desired[i]) ==> MoveExists(moves, desired[i].id))
    && (forall m :: 0 <= m < |moves| ==> MoveNeeded(current, desired, moves[m].ruleId))
    && (forall m, l :: 0 <= m < l < |moves| ==> moves[m].ruleId != moves[l].ruleId)
  }

  /** A plan exists unless a changed rule has no next revision; with the number of rules a key
      may have, the planner never runs out of periods. */
  method Plan(current: map<nat, Row>, desired: seq<Desired>)
    returns (r: Result<seq<Move>, PlanError>, ghost reserved: set<int>)
    requires forall i, j :: 0 <= i < j < |desired| && desired[i].id != 0 ==> desired[i].id != desired[j].id
    requires |current| + 2 * |desired| <= MAX_PERIOD_SECONDS - MIN_PERIOD_SECONDS + 1
    ensures r.Ok? <==> forall i :: 0 <= i < |desired| ==> !Exhausts(current, desired[i])
    ensures r.Err? ==> r.error.RevisionExhausted?
    ensures r.Ok? ==> Planned(current, desired, r.value, reserved)
  {
    var inUse := ReserveCurrent(current);
    var ok, changed, all := CollectChanges(current, desired, inUse);
    reserved := all;
    if !ok {
      return Err(RevisionExhausted), reserved;
    }
    var sorted := SortIds(changed);
    SortedIds(changed);
    r := AssignTemporaries(sorted, all);
    assert r.Ok?;
    forall i | 0 <= i < |desired| && Changes(current, desired[i])
      ensures MoveExists(r.value, desired[i].id)
    {
      assert desired[i].id in sorted;
      var m :| 0 <= m < |sorted| && sorted[m] == desired[i].id;
      assert r.value[m].ruleId == desired[i].id;
    }
    forall m | 0 <= m < |r.value|
      ensures MoveNeeded(current, desired, r.value[m].ruleId)
    {
      assert sorted[m] in sorted && r.value[m].ruleId == sorted[m];
    }
  }

  lemma SortedIds(ids: seq<nat>)
    ensures |SortIds(ids)| == |ids|
    ensures forall id :: id in SortIds(ids) <==> id in ids
    ensures (forall i, j :: 0 <= i < j < |ids| ==> ids[i] != ids[j]) ==>
      forall i, j :: 0 <= i < j < |ids| ==> SortIds(ids)[i] != SortIds(ids)[j]
  {
    var s := SortIds(ids);
    hide SortIds;
    assert |multiset(s)| == |multiset(ids)|;
    forall id ensures id in s <==> id in ids {
      assert id in s <==> id in multiset(s);
      assert id in ids <==> id in multiset(ids);
    }
    if forall i, j :: 0 <= i < j < |ids| ==> ids[i] != ids[j] {
      StillApart(ids, s);
    }
  }

  // A rearrangement of different identifiers has no repetition.
  lemma StillApart(ids: seq<nat>, s: seq<nat>)
    requires multiset(s) == multiset(ids) && forall i, j :: 0 <= i < j < |ids| ==> ids[i] != ids[j]
    ensures forall i, j :: 0 <= i < j < |s| ==> s[i] != s[j]
  {
    forall i, j | 0 <= i < j < |s| ensures s[i] != s[j] {
      OnlyOnce(ids, s[i]);
      TwiceIn(s, i, j);
    }
  }

  lemma TwiceIn(s: seq<nat>, i: nat, j: nat)
    requires i < j < |s|
    ensures s[i] == s[j] ==> multiset(s)[s[i]] >= 2
  {
    assert s == s[..j] + s[j..];
    assert s[..j][i] == s[i] && s[j..][0] == s[j];
  }

  lemma {:induction false} OnlyOnce(ids: seq<nat>, id: nat)
    requires forall i, j :: 0 <= i < j < |ids| ==> ids[i] != ids[j]
    ensures multiset(ids)[id] <= 1
    decreases |ids|
  {
    if ids != [] {
      var init := ids[..|ids| - 1];
      OnlyOnce(init, id);
      assert ids == init + [ids[|ids| - 1]];
      if ids[|ids| - 1] == id {
        assert id !in init;
      }
    }
  }
}
