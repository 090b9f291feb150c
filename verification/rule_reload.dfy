/**
  Loading the edited rule table into the runtime: after any edit of a sound table its definitions,
  of all keys together, are valid, conflict with nothing that is live, and are installed.
*/
module RuleReload {
  import opened Wrappers
  import opened QuotaModel
  import opened RuleTable
  import opened RulePlanner
  import opened RuleEditing
  import QuotaRuns
  import QuotaRuntime

  function PeriodicIds(rules: seq<Rule>): set<nat> {
    set i | 0 <= i < |rules| && rules[i].kind.Periodic? :: rules[i].id
  }

  function PeriodicRows(rows: map<nat, Row>, key: nat): set<nat> {
    set id | id in rows && rows[id].key == key && rows[id].kind.Periodic?
  }

  // Rows that edits leave behind: valid, under the unique index, and within the limit for each key.
  ghost predicate SoundTable(rows: map<nat, Row>) {
    && ValidRows(rows) && Unique(rows)
    && (forall id :: id in rows ==> id != 0 && rows[id].key != 0)
    && (forall k :: |PeriodicRows(rows, k)| <= MAX_PERIODIC_RULES)
  }

  // The rules of every key as they are read from the table, in any order.
  ghost predicate Loads(defs: Definitions, rows: map<nat, Row>) {
    && (forall k, i {:trigger defs[k][i]} :: k in defs && 0 <= i < |defs[k]| ==>
          defs[k][i].id in rows && rows[defs[k][i].id].key == k && defs[k][i] == RuleOf(defs[k][i].id, rows[defs[k][i].id]))
    && (forall k :: k in defs ==> DistinctRuleIds(defs[k]))
    && (forall k :: k in defs ==> k != 0)
  }

  // ---- counting -------------------------------------------------------------------------------------

  lemma {:induction false} CountIsSize(rules: seq<Rule>)
    requires DistinctRuleIds(rules)
    ensures CountPeriodic(rules) == |PeriodicIds(rules)|
    decreases |rules|
  {
    if rules != [] {
      var n := |rules| - 1;
      CountIsSize(rules[..n]);
      IdsNext(rules, n);
      hide PeriodicIds;
    }
  }

  lemma IdsNext(rules: seq<Rule>, n: nat)
    requires DistinctRuleIds(rules) && n + 1 == |rules|
    ensures rules[n].id !in PeriodicIds(rules[..n])
    ensures PeriodicIds(rules) == PeriodicIds(rules[..n]) + if rules[n].kind.Periodic? then {rules[n].id} else {}
  {
    var head := rules[..n];
    forall id ensures id in PeriodicIds(rules) <==> id in PeriodicIds(head) || (rules[n].kind.Periodic? && id == rules[n].id) {
      if id in PeriodicIds(head) {
        var i :| 0 <= i < n && head[i].kind.Periodic? && head[i].id == id;
        assert rules[i].id == id;
      }
    }
  }

  lemma Within(a: set<nat>, b: set<nat>)
    requires a <= b
    ensures |a| <= |b|
  {
    assert b == a + (b - a);
  }

  // Of two total rules of one key the index admits one.
  lemma {:induction false} OneTotal(rules: seq<Rule>)
    requires forall i, j :: 0 <= i < j < |rules| ==> !(rules[i].kind.Total? && rules[j].kind.Total?)
    ensures CountTotal(rules) <= 1
    ensures (forall i :: 0 <= i < |rules| ==> !rules[i].kind.Total?) ==> CountTotal(rules) == 0
    decreases |rules|
  {
    if rules != [] {
      OneTotal(rules[..|rules| - 1]);
    }
  }

  // ---- what is loaded is valid -----------------------------------------------------------------------

  lemma LoadedSlots(defs: Definitions, rows: map<nat, Row>, k: nat, i: nat, j: nat)
    requires SoundTable(rows) && Loads(defs, rows) && k in defs && i < j < |defs[k]|
    ensures defs[k][i].kind != defs[k][j].kind || defs[k][i].period != defs[k][j].period
    ensures !(defs[k][i].kind.Total? && defs[k][j].kind.Total?)
  {
    var a, b := defs[k][i], defs[k][j];
    assert a.id != b.id && !SameSlot(rows[a.id], rows[b.id]);
    assert ValidPeriod(a.kind, a.period) && ValidPeriod(b.kind, b.period);
  }

  lemma LoadedRulesValid(defs: Definitions, rows: map<nat, Row>, k: nat)
    requires SoundTable(rows) && Loads(defs, rows) && k in defs
    ensures ValidRules(defs[k])
  {
    var rules := defs[k];
    forall i | 0 <= i < |rules| ensures ValidRule(rules[i]) {
      assert ValidPeriod(rules[i].kind, rules[i].period);
    }
    forall i, j | 0 <= i < j < |rules|
      ensures rules[i].kind != rules[j].kind || rules[i].period != rules[j].period
      ensures !(rules[i].kind.Total? && rules[j].kind.Total?)
    {
      LoadedSlots(defs, rows, k, i, j);
    }
    OneTotal(rules);
    CountIsSize(rules);
    assert PeriodicIds(rules) <= PeriodicRows(rows, k);
    Within(PeriodicIds(rules), PeriodicRows(rows, k));
  }

  /** The definitions of a sound table are ones the runtime accepts, for all keys together. */
  lemma LoadedIsValid(defs: Definitions, rows: map<nat, Row>)
    requires SoundTable(rows) && Loads(defs, rows)
    ensures ValidDefinitions(defs)
  {
    hide QuotaModel.ValidRules, SoundTable;
    forall k | k in defs ensures ValidRules(defs[k]) {
      LoadedRulesValid(defs, rows, k);
    }
  }

  // ---- an edit keeps the table sound ----------------------------------------------------------------

  // An edit of the whole table: one key's rules, under conditions that its requests meet.
  ghost predicate Edit(before: map<nat, Row>, after: map<nat, Row>, key: nat, desired: seq<Desired>, ids: seq<nat>, firstNew: nat) {
    && key != 0 && ValidDesired(desired) && Unique(after) && firstNew > 0
    && (forall id :: id in before ==> 0 < id < firstNew)
    && (forall i :: 0 <= i < |desired| ==> Refers(RowsOfKey(before, key), desired[i]))
    && Edited(before, after, key, desired, ids, firstNew)
  }

  lemma EditedPeriodic(before: map<nat, Row>, after: map<nat, Row>, key: nat, desired: seq<Desired>, ids: seq<nat>, firstNew: nat)
    requires SoundTable(before) && Edit(before, after, key, desired, ids, firstNew)
    ensures |PeriodicRows(after, key)| <= MAX_PERIODIC_RULES
    ensures forall i :: 0 <= i < |ids| ==> ids[i] in after && ValidRule(RuleOf(ids[i], after[ids[i]]))
  {
    EditedRowsAreValid(before, after, key, desired, ids, firstNew);
    var rules := DefinitionsOfKey(after, ids);
    CountIsSize(rules);
    forall id | id in PeriodicRows(after, key) ensures id in PeriodicIds(rules) {
      var i :| 0 <= i < |ids| && ids[i] == id;
      assert rules[i].id == id && rules[i].kind.Periodic?;
    }
    Within(PeriodicRows(after, key), PeriodicIds(rules));
    forall i | 0 <= i < |ids| ensures ValidRule(RuleOf(ids[i], after[ids[i]])) {
      assert rules[i] == RuleOf(ids[i], after[ids[i]]);
    }
  }

  lemma EditKeepsSound(before: map<nat, Row>, after: map<nat, Row>, key: nat, desired: seq<Desired>, ids: seq<nat>, firstNew: nat)
    requires SoundTable(before) && Edit(before, after, key, desired, ids, firstNew)
    ensures SoundTable(after)
  {
    EditedPeriodic(before, after, key, desired, ids, firstNew);
    OtherKeys(before, after, key, desired, ids, firstNew);
    hide PeriodicRows, ValidDesired, RuleEditing.Edited, Refers;
    forall id | id in after ensures SoundRow(id, after[id]) {
      EditedRow(before, after, key, desired, ids, firstNew, id);
    }
  }

  predicate SoundRow(id: nat, row: Row) {
    id != 0 && row.key != 0 && row.limit > 0 && row.revision > 0 && ValidPeriod(row.kind, row.period)
  }

  lemma EditedRow(before: map<nat, Row>, after: map<nat, Row>, key: nat, desired: seq<Desired>, ids: seq<nat>, firstNew: nat, id: nat)
    requires SoundTable(before) && Edit(before, after, key, desired, ids, firstNew) && id in after
    requires forall i :: 0 <= i < |ids| ==> ids[i] in after && ValidRule(RuleOf(ids[i], after[ids[i]]))
    ensures SoundRow(id, after[id])
  {
    hide PeriodicRows, ValidDesired, Refers, TargetRow;
    if after[id].key == key {
      var i :| 0 <= i < |ids| && ids[i] == id;
      assert ValidRule(RuleOf(ids[i], after[ids[i]]));
    } else {
      assert id in before && after[id] == before[id];
    }
  }

  lemma OtherKeys(before: map<nat, Row>, after: map<nat, Row>, key: nat, desired: seq<Desired>, ids: seq<nat>, firstNew: nat)
    requires Edit(before, after, key, desired, ids, firstNew)
    ensures forall k :: k != key ==> PeriodicRows(after, k) == PeriodicRows(before, k)
  {
    hide ValidDesired, Refers, TargetRow;
    forall k | k != key ensures PeriodicRows(after, k) == PeriodicRows(before, k) {
    }
  }

  lemma OneTotalRow(rows: map<nat, Row>, a: nat, b: nat)
    requires SoundTable(rows) && a in rows && b in rows && rows[a].key == rows[b].key
    requires !rows[a].kind.Periodic? && !rows[b].kind.Periodic?
    ensures a == b
  {
    assert ValidPeriod(rows[a].kind, rows[a].period) && ValidPeriod(rows[b].kind, rows[b].period);
    assert SameSlot(rows[a], rows[b]);
  }

  // What an edit asks of the table's size is true of every sound table.
  lemma RowsAreFew(rows: map<nat, Row>, key: nat)
    requires SoundTable(rows)
    ensures |RowsOfKey(rows, key)| <= MAX_PERIODIC_RULES + 1
  {
    var mine := RowsOfKey(rows, key).Keys;
    var rest := mine - PeriodicRows(rows, key);
    if a :| a in rest {
      forall b | b in rest ensures b == a {
        OneTotalRow(rows, a, b);
      }
      assert rest == {a};
    }
    assert mine <= rest + PeriodicRows(rows, key);
    Within(mine, rest + PeriodicRows(rows, key));
    assert |RowsOfKey(rows, key)| == |mine|;
  }

  // ---- and the runtime loads it ----------------------------------------------------------------------

  // The live rules of every key come from rows of the table, now or earlier.
  ghost predicate LiveTable(rows: map<nat, Row>, entries: Entries, firstNew: nat) {
    forall k :: k in entries ==> LiveFrom(rows, entries[k], firstNew)
  }

  lemma NormalizedLoads(defs: Definitions, rows: map<nat, Row>)
    requires ValidDefinitions(defs) && Loads(defs, rows)
    ensures Loads(Normalize(defs), rows)
  {
    hide QuotaModel.ValidDefinitions;
    QuotaRuns.NormalizedRules(defs);
    var n: Definitions := Normalize(defs);
    forall k, i {:trigger n[k][i]} | k in n && 0 <= i < |n[k]|
      ensures n[k][i].id in rows && rows[n[k][i].id].key == k && n[k][i] == RuleOf(n[k][i].id, rows[n[k][i].id])
    {
      assert n[k][i] in defs[k];
      var j :| 0 <= j < |defs[k]| && defs[k][j] == n[k][i];
    }
  }

  lemma KeyCompatible(before: map<nat, Row>, after: map<nat, Row>, key: nat, desired: seq<Desired>, ids: seq<nat>,
                      firstNew: nat, entries: Entries, defs: Definitions, k: nat)
    requires Edit(before, after, key, desired, ids, firstNew) && LiveTable(before, entries, firstNew)
    requires Loads(defs, after) && k in defs
    ensures Compatible(defs[k], RulesOf(entries, k))
  {
    var rules := RulesOf(entries, k);
    assert LiveFrom(before, rules, firstNew);
    EditNeverConflicts(before, after, key, desired, ids, firstNew, rules, defs[k]);
  }

  // Until it is replaced, the running table is live from the edited rows too.
  lemma StillLive(before: map<nat, Row>, after: map<nat, Row>, key: nat, desired: seq<Desired>, ids: seq<nat>,
                  firstNew: nat, entries: Entries)
    requires Edit(before, after, key, desired, ids, firstNew) && LiveTable(before, entries, firstNew)
    ensures LiveTable(after, entries, firstNew)
  {
    hide LiveFrom;
    forall k | k in entries ensures LiveFrom(after, entries[k], firstNew) {
      EditNeverConflicts(before, after, key, desired, ids, firstNew, entries[k], []);
    }
  }

  // The table that is installed is live from the rows it was loaded from.
  lemma InstalledIsLive(rows: map<nat, Row>, entries: Entries, defs: Definitions, nextId: nat)
    requires Loads(defs, rows) && forall id :: id in rows ==> id < nextId
    ensures LiveTable(rows, Reconciled(entries, defs), nextId)
  {
    var next: Entries := Reconciled(entries, defs);
    forall k | k in next ensures LiveFrom(rows, next[k], nextId) {
      forall i | 0 <= i < |next[k]| ensures next[k][i].def == defs[k][i] {
      }
    }
  }

  /** After an edit of a sound table, the table is sound, the definitions of all its keys are valid and
      in conflict with no live rule, and the next edit may start from it before they are installed and
      after. */
  lemma EditIsAccepted(before: map<nat, Row>, after: map<nat, Row>, key: nat, desired: seq<Desired>, ids: seq<nat>,
                       firstNew: nat, nextId: nat, entries: Entries, defs: Definitions)
    requires SoundTable(before) && Edit(before, after, key, desired, ids, firstNew)
    requires LiveTable(before, entries, firstNew) && Loads(defs, after)
    requires forall id :: id in after ==> id < nextId
    ensures SoundTable(after) && ValidDefinitions(defs) && !ReconcileConflict(entries, Normalize(defs))
    ensures LiveTable(after, entries, firstNew) && LiveTable(after, Reconciled(entries, Normalize(defs)), nextId)
  {
    hide SoundTable, Edit, Loads, LiveTable, QuotaModel.ValidDefinitions, QuotaModel.Normalize, QuotaModel.Compatible;
    hide QuotaModel.Reconciled;
    EditKeepsSound(before, after, key, desired, ids, firstNew);
    LoadedIsValid(defs, after);
    NormalizedLoads(defs, after);
    forall k | k in Normalize(defs) ensures Compatible(Normalize(defs)[k], RulesOf(entries, k)) {
      KeyCompatible(before, after, key, desired, ids, firstNew, entries, Normalize(defs), k);
    }
    StillLive(before, after, key, desired, ids, firstNew, entries);
    InstalledIsLive(after, entries, Normalize(defs), nextId);
  }

  // Editing the table and reloading the runtime: when the edit goes through, so does the reload.
  method EditAndReload(table: Table, runtime: QuotaRuntime.Runtime, key: nat, desired: seq<Desired>)
    returns (r: Result<seq<nat>, EditError>, reloaded: bool)
    requires table.Valid() && SoundTable(table.rows) && Synced(table.rows, table.states)
    requires key != 0 && ValidDesired(desired)
    requires runtime.Valid() && !runtime.restorePending && LiveTable(table.rows, runtime.Model(), table.nextId)
    modifies table, runtime
    ensures table.Valid() && runtime.Valid()
    ensures r.Err? <==> Refused(RowsOfKey(old(table.rows), key), desired)
    ensures r.Ok? ==> reloaded && SoundTable(table.rows) && Synced(table.rows, table.states)
    ensures r.Ok? ==> !runtime.restorePending && LiveTable(table.rows, runtime.Model(), table.nextId)
    ensures r.Err? ==> !reloaded && runtime.Model() == old(runtime.Model())
  {
    hide SoundTable, LiveTable, QuotaModel.ValidDefinitions, QuotaModel.Normalize, QuotaModel.Reconciled;
    hide QuotaModel.ReconcileConflict, ValidDesired, RuleEditing.Edited, RuleTable.Unique, ValidRows, Synced, Refused;
    hide QuotaRuntime.Runtime.Separated, QuotaRuntime.Runtime.TableView, Loads, QuotaModel.RestoredEntries;
    ghost var before, firstNew, live := table.rows, table.nextId, runtime.Model();
    RowsAreFew(before, key);
    SoundRows(before);
    r := RuleEditing.Reconcile(table, key, desired);
    assert runtime.Model() == live;
    if r.Err? {
      return r, false;
    }
    NotRefused(RowsOfKey(before, key), desired);
    assert Edit(before, table.rows, key, desired, r.value, firstNew);
    EditKeepsSound(before, table.rows, key, desired, r.value, firstNew);
    SoundRows(table.rows);
    var defs := LoadDefinitions(table.rows);
    EditIsAccepted(before, table.rows, key, desired, r.value, firstNew, table.nextId, live, defs);
    reloaded := runtime.Reconcile(defs);
  }

  lemma NotRefused(current: map<nat, Row>, desired: seq<Desired>)
    requires !Refused(current, desired)
    ensures forall i :: 0 <= i < |desired| ==> Refers(current, desired[i])
  {
  }

  lemma SoundRows(rows: map<nat, Row>)
    requires SoundTable(rows)
    ensures ValidRows(rows) && forall id :: id in rows ==> rows[id].key != 0
  {
  }

  // Reads the rules of every key from the table.
  method LoadDefinitions(rows: map<nat, Row>) returns (defs: Definitions)
    requires forall id :: id in rows ==> rows[id].key != 0
    ensures Loads(defs, rows)
    ensures forall id :: id in rows ==> rows[id].key in defs && RuleOf(id, rows[id]) in defs[rows[id].key]
  {
    defs := map[];
    var rest := rows.Keys;
    while rest != {}
      invariant rest <= rows.Keys && Loads(defs, rows)
      invariant forall k, i {:trigger defs[k][i]} :: k in defs && 0 <= i < |defs[k]| ==> defs[k][i].id !in rest
      invariant forall id :: id in rows && id !in rest ==> rows[id].key in defs && RuleOf(id, rows[id]) in defs[rows[id].key]
      decreases rest
    {
      var id :| id in rest;
      rest := rest - {id};
      var k := rows[id].key;
      defs := defs[k := (if k in defs then defs[k] else []) + [RuleOf(id, rows[id])]];
    }
  }
}
