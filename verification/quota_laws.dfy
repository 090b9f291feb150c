/**
  The step functions of the runtime mean what the reference says, and what that gives over runs: an
  admitted request is charged to every rule of its key.
*/
module QuotaLaws {
  import opened Wrappers
  import opened QuotaModel
  import opened QuotaRuns
  import opened QuotaCheckpoint
  import R = QuotaReference

  // ---- reconfigurations --------------------------------------------------------------

  lemma {:induction false} OrderedListed(rules: seq<Rule>, i: nat, j: nat)
    requires Ordered(rules) && i < j < |rules|
    requires forall k :: 0 <= k < |rules| ==> Known(rules[k])
    ensures R.ListedBefore(rules[i], rules[j])
    decreases j
  {
    assert RuleBefore(rules[j - 1], rules[j]);
    if i < j - 1 {
      OrderedListed(rules, i, j - 1);
    }
  }

  lemma CarryMeans(def: Rule, prev: seq<RuleState>)
    requires DistinctIds(prev)
    ensures R.CarriedOver(prev, Carry(def, prev)) && Carry(def, prev).def == def
    ensures Conflicts(def, prev) <==> exists j :: 0 <= j < |prev| && R.ClashAt(def, prev[j].def)
  {
    hide Find;
    forall j | 0 <= j < |prev| && prev[j].def.id == def.id ensures Find(prev, def.id) == Some(prev[j]) {
      FindIsThatRule(prev, j);
    }
    var p := Find(prev, def.id);
    if p.Some? {
      var j :| 0 <= j < |prev| && prev[j] == p.value;
    }
  }

  // Sorting keeps the rules and puts them in order.
  lemma SortMeans(desired: seq<Rule>)
    requires ValidRules(desired)
    ensures |SortRules(desired)| == |desired|
    ensures forall i :: 0 <= i < |desired| ==> SortRules(desired)[i] in desired
    ensures forall d :: d in desired ==> d in SortRules(desired)
    ensures forall i, j :: 0 <= i < j < |desired| ==> R.ListedBefore(SortRules(desired)[i], SortRules(desired)[j])
  {
    var sorted := SortRules(desired);
    assert forall i :: 0 <= i < |desired| ==> Known(desired[i]);
    SortKeeps(desired);
    SortOrdered(desired);
    hide SortRules, R.ListedBefore, Ordered, ValidRules;
    forall i, j | 0 <= i < j < |sorted| ensures R.ListedBefore(sorted[i], sorted[j]) {
      OrderedListed(sorted, i, j);
    }
    forall d | d in desired ensures d in sorted {
      assert d in multiset(sorted);
    }
  }

  lemma SortArranges(desired: seq<Rule>, rules: seq<RuleState>)
    requires ValidRules(desired) && |rules| == |SortRules(desired)|
    requires forall i :: 0 <= i < |rules| ==> rules[i].def == SortRules(desired)[i]
    ensures R.Arranged(desired, rules)
  {
    hide SortRules, R.ListedBefore, ValidRules;
    SortMeans(desired);
    var sorted := SortRules(desired);
    forall d | d in desired ensures exists i :: 0 <= i < |rules| && rules[i].def == d {
      var i :| 0 <= i < |sorted| && sorted[i] == d;
      assert rules[i].def == d;
    }
  }

  lemma InstallMeans(desired: seq<Rule>, prev: seq<RuleState>)
    requires ValidRules(desired) && DistinctIds(prev)
    ensures R.Installs(desired, prev, CarryAll(SortRules(desired), prev))
  {
    hide SortRules, Carry, R.CarriedOver, R.Arranged, ValidRules, DistinctIds;
    var sorted := SortRules(desired);
    var rules := CarryAll(sorted, prev);
    forall i | 0 <= i < |rules| ensures rules[i].def == sorted[i] && R.CarriedOver(prev, rules[i]) {
      CarryMeans(sorted[i], prev);
    }
    SortArranges(desired, rules);
  }

  lemma KeyConflicts(desired: seq<Rule>, prev: seq<RuleState>)
    requires ValidRules(desired) && DistinctIds(prev)
    ensures !Compatible(SortRules(desired), prev) <==>
            exists i, j :: 0 <= i < |desired| && 0 <= j < |prev| && R.ClashAt(desired[i], prev[j].def)
  {
    hide SortRules, ValidRules, DistinctIds, Conflicts, R.ClashAt, R.ListedBefore;
    SortMeans(desired);
    var sorted := SortRules(desired);
    forall d ensures Conflicts(d, prev) <==> exists j :: 0 <= j < |prev| && R.ClashAt(d, prev[j].def) {
      CarryMeans(d, prev);
    }
    if !Compatible(sorted, prev) {
      var m :| 0 <= m < |sorted| && Conflicts(sorted[m], prev);
      var i :| 0 <= i < |desired| && desired[i] == sorted[m];
      var j :| 0 <= j < |prev| && R.ClashAt(sorted[m], prev[j].def);
      assert R.ClashAt(desired[i], prev[j].def);
    }
    if i, j :| 0 <= i < |desired| && 0 <= j < |prev| && R.ClashAt(desired[i], prev[j].def) {
      assert desired[i] in sorted;
      var m :| 0 <= m < |sorted| && sorted[m] == desired[i];
      assert Conflicts(sorted[m], prev);
    }
  }

  lemma ConflictMeans(entries: Entries, defs: Definitions)
    requires ValidDefinitions(defs) && forall k :: k in entries ==> DistinctIds(entries[k])
    ensures ReconcileConflict(entries, Normalize(defs)) <==> R.Clashes(defs, entries)
  {
    hide SortRules, ValidRules, DistinctIds, Compatible, R.ClashAt, Disjoint;
    EmptyDistinct();
    forall k | k in defs
      ensures !Compatible(SortRules(defs[k]), RulesOf(entries, k)) <==>
              exists i, j :: 0 <= i < |defs[k]| && 0 <= j < |RulesOf(entries, k)| && R.ClashAt(defs[k][i], RulesOf(entries, k)[j].def)
    {
      KeyConflicts(defs[k], RulesOf(entries, k));
    }
    if ReconcileConflict(entries, Normalize(defs)) {
      var k :| k in Normalize(defs) && !Compatible(Normalize(defs)[k], RulesOf(entries, k));
      var i, j :| 0 <= i < |defs[k]| && 0 <= j < |RulesOf(entries, k)| && R.ClashAt(defs[k][i], RulesOf(entries, k)[j].def);
      assert k in entries && R.ClashAt(defs[k][i], entries[k][j].def);
    }
    if R.Clashes(defs, entries) {
      var k, i, j :| k in defs && k in entries && 0 <= i < |defs[k]| && 0 <= j < |entries[k]|
                     && R.ClashAt(defs[k][i], entries[k][j].def);
      assert R.ClashAt(defs[k][i], RulesOf(entries, k)[j].def);
      assert k in Normalize(defs) && !Compatible(Normalize(defs)[k], RulesOf(entries, k));
    }
  }

  // A reconfiguration takes effect exactly when nothing clashes, and then installs what is desired.
  lemma ReconcileMeans(entries: Entries, defs: Definitions)
    requires ValidDefinitions(defs) && forall k :: k in entries ==> DistinctIds(entries[k])
    ensures ReconcileConflict(entries, Normalize(defs)) <==> R.Clashes(defs, entries)
    ensures R.ReconfigurationMeans(entries, defs, Reconciled(entries, Normalize(defs)))
  {
    ConflictMeans(entries, defs);
    hide ValidDefinitions, Reconciled, Normalize, R.Installs, R.Clashes, ReconcileConflict, DistinctIds;
    var next := Reconciled(entries, Normalize(defs));
    NormalizedKeys(entries, defs);
    forall k | k in next ensures R.Installs(defs[k], if k in entries then entries[k] else [], next[k]) {
      InstalledAt(entries, defs, k);
    }
  }

  lemma NormalizedKeys(entries: Entries, defs: Definitions)
    ensures forall k :: k in Reconciled(entries, Normalize(defs)) <==> k in defs && defs[k] != []
  {
    hide SortRules, CarryAll;
  }

  lemma InstalledAt(entries: Entries, defs: Definitions, k: nat)
    requires ValidDefinitions(defs) && k in defs && defs[k] != [] && k in Reconciled(entries, Normalize(defs))
    requires k in entries ==> DistinctIds(entries[k])
    ensures R.Installs(defs[k], if k in entries then entries[k] else [], Reconciled(entries, Normalize(defs))[k])
  {
    assert ValidRules(defs[k]);
    hide ValidDefinitions, ValidRules, R.Installs, CarryAll, SortRules, DistinctIds;
    EmptyDistinct();
    InstallMeans(defs[k], RulesOf(entries, k));
  }

  lemma EmptyDistinct()
    ensures DistinctIds([])
  {
  }

  // ---- restores ----------------------------------------------------------------------

  // What was handed over to be restored: readable rows, by rule.
  ghost predicate Handed(rows: map<nat, RestoredState>) {
    forall id :: id in rows ==> rows[id].ruleId == id && ValidRestored(rows[id])
  }

  lemma {:induction false} RestoreMapHands(states: seq<RestoredState>)
    requires RestoreMap(states).Some?
    ensures Handed(RestoreMap(states).value)
    decreases |states|
  {
    if states != [] {
      RestoreMapHands(states[..|states| - 1]);
    }
  }

  lemma ReadBackRule(rows: map<nat, RestoredState>, k: nat, def: Rule)
    requires Handed(rows) && Restorable(rows, k, def)
    ensures RestoredRule(rows, def).def == def && !RestoredRule(rows, def).dirty
    ensures def.id in rows && R.Saves(rows[def.id], k, RestoredRule(rows, def))
  {
    R.RestorableMeans(rows, k, def);
  }

  lemma ReadBackAt(defs: Definitions, rows: map<nat, RestoredState>, k: nat)
    requires ValidDefinitions(defs) && Handed(rows) && k in defs && defs[k] != []
    requires AllRestorable(rows, k, SortRules(defs[k]))
    ensures R.ReadsBack(defs[k], k, rows, RestoredRules(rows, SortRules(defs[k])))
  {
    assert ValidRules(defs[k]);
    hide SortRules, ValidRules, ValidDefinitions, R.Saves, R.Arranged, Restorable, RestoredRule, Handed;
    var sorted := SortRules(defs[k]);
    var rules := RestoredRules(rows, sorted);
    forall i | 0 <= i < |rules|
      ensures rules[i].def == sorted[i] && !rules[i].dirty && sorted[i].id in rows && R.Saves(rows[sorted[i].id], k, rules[i])
    {
      assert Restorable(rows, k, sorted[i]);
      ReadBackRule(rows, k, sorted[i]);
    }
    SortArranges(defs[k], rules);
  }

  lemma KeyMatches(defs: Definitions, rows: map<nat, RestoredState>, k: nat)
    requires ValidDefinitions(defs) && Handed(rows) && k in defs
    ensures AllRestorable(rows, k, SortRules(defs[k])) <==>
            forall i :: 0 <= i < |defs[k]| ==> defs[k][i].id in rows && R.RowOf(rows[defs[k][i].id], k, defs[k][i])
  {
    assert ValidRules(defs[k]);
    SortMeans(defs[k]);
    var sorted := SortRules(defs[k]);
    hide SortRules, ValidRules, ValidDefinitions, R.RowOf, ValidRestored, Restorable, RestoredRule, R.ListedBefore;
    forall d ensures Restorable(rows, k, d) <==> d.id in rows && R.RowOf(rows[d.id], k, d) {
      R.RestorableMeans(rows, k, d);
    }
    if AllRestorable(rows, k, sorted) {
      forall i | 0 <= i < |defs[k]| ensures Restorable(rows, k, defs[k][i]) {
        assert defs[k][i] in sorted;
      }
    }
  }

  lemma OwnedAlike(defs: Definitions, id: nat)
    requires ValidDefinitions(defs)
    ensures Owned(Normalize(defs), id) <==> exists k, i :: k in defs && 0 <= i < |defs[k]| && defs[k][i].id == id
  {
    NormalizedRules(defs);
    if k, i :| k in defs && 0 <= i < |defs[k]| && defs[k][i].id == id {
      SortMeans(defs[k]);
      assert defs[k][i] in Normalize(defs)[k];
    }
    if Owned(Normalize(defs), id) {
      var k, i :| k in Normalize(defs) && 0 <= i < |Normalize(defs)[k]| && Normalize(defs)[k][i].id == id;
      assert Normalize(defs)[k][i] in defs[k];
    }
  }

  // A restore takes effect exactly when rows and rules match, and then reads every rule back.
  lemma RestoreMeans(defs: Definitions, rows: map<nat, RestoredState>)
    requires ValidDefinitions(defs) && Handed(rows)
    ensures RestoredEntries(Normalize(defs), rows).Some? <==> R.RowsMatch(defs, rows)
    ensures RestoredEntries(Normalize(defs), rows).Some? ==>
              R.RestorationMeans(defs, rows, RestoredEntries(Normalize(defs), rows).value)
  {
    hide ValidDefinitions, SortRules, AllRestorable, R.ReadsBack, Handed, Owned, RestoredRules, R.RowsMatch;
    RestoreMatches(defs, rows);
    if RestoredEntries(Normalize(defs), rows).Some? {
      forall k | k in Normalize(defs) ensures R.ReadsBack(defs[k], k, rows, RestoredRules(rows, SortRules(defs[k]))) {
        ReadBackAt(defs, rows, k);
      }
    }
  }

  lemma RestoreMatches(defs: Definitions, rows: map<nat, RestoredState>)
    requires ValidDefinitions(defs) && Handed(rows)
    ensures RestoredEntries(Normalize(defs), rows).Some? <==> R.RowsMatch(defs, rows)
  {
    hide ValidDefinitions, SortRules, AllRestorable, R.RowOf, Handed, Owned, RestoredRules;
    var n := Normalize(defs);
    forall k | k in defs
      ensures AllRestorable(rows, k, SortRules(defs[k])) <==>
              forall i :: 0 <= i < |defs[k]| ==> defs[k][i].id in rows && R.RowOf(rows[defs[k][i].id], k, defs[k][i])
    {
      KeyMatches(defs, rows, k);
    }
    forall id | id in rows
      ensures Owned(n, id) <==> exists k, i :: k in defs && 0 <= i < |defs[k]| && defs[k][i].id == id
    {
      OwnedAlike(defs, id);
    }
    assert forall k :: k in n ==> n[k] == SortRules(defs[k]);
    if R.RowsMatch(defs, rows) {
      forall k | k in n ensures AllRestorable(rows, k, n[k]) {
        assert k in defs;
      }
    }
    if RestoredEntries(n, rows).Some? {
      forall k, i | k in defs && 0 <= i < |defs[k]| ensures defs[k][i].id in rows && R.RowOf(rows[defs[k][i].id], k, defs[k][i]) {
        assert k in n;
      }
    }
  }

  // ---- an admitted request is charged everywhere ----------------------------------------

  // An admission that every rule of the key lets through issues a ticket that names all of them.
  lemma AdmissionNamesAll(w: World, e: Event)
    requires e.Admit? && e.key in w.entries && R.AllLetThrough(w.entries[e.key], e.now)
    ensures R.AllAdmitted(w.entries[e.key], Step(w, e).entries[e.key], e.now)
    ensures exists t :: t in Step(w, e).issued && R.NamesAll(t, e.key, Step(w, e).entries[e.key])
  {
    R.AdmitMeans(e.key, w.entries[e.key], e.now);
    hide AdmitRules, AdmitTicket, R.AllLetThrough, R.AllAdmitted, R.NamesAll;
    assert TicketFor(w, e.key, e.now) in Step(w, e).issued;
  }

  // The ticket's entries for a rule with this ID are exactly the one that names it.
  lemma NamedOnce(t: Ticket, key: nat, rules: seq<RuleState>, i: nat, r: RuleState)
    requires DistinctIds(rules) && i < |rules| && R.NamesAll(t, key, rules)
    requires r.def.id == rules[i].def.id && r.def.revision == rules[i].def.revision
    requires r.def.kind == Periodic ==> r.generation == rules[i].generation
    ensures R.Hits(r, t.rules) == 1
  {
    forall j | 0 <= j < |t.rules| ensures R.IsFor(t.rules[j], r) <==> j == i {
      assert rules[j].def.id == rules[i].def.id ==> j == i;
    }
    R.HitOnce(r, t.rules, i);
  }

  lemma {:induction false} PrefixPermitted(w: World, es: seq<Event>, n: nat)
    requires n <= |es| && PermittedRun(w, es)
    ensures PermittedRun(w, es[..n])
    decreases |es|
  {
    if n < |es| {
      assert es[..|es| - 1][..n] == es[..n];
      PrefixPermitted(w, es[..|es| - 1], n);
    } else {
      assert es[..n] == es;
    }
  }

  /** Completing, at any later point of any run, a request that was admitted raises what every rule of its
      key has used by the cost, up to the largest int64, as long as the rule's revision and window are
      still those of the admission; nothing else about the rule changes but its version. */
  lemma AdmittedIsCharged(w: World, es: seq<Event>, p: nat, q: nat, t: Ticket, cost: int, i: nat, j: nat)
    requires Consistent(w) && PermittedRun(w, es) && p < q < |es| && cost >= 0
    requires es[p].Admit? && es[p].key in Run(w, es[..p]).entries && es[q] == Complete(t, cost)
    requires R.AllLetThrough(Run(w, es[..p]).entries[es[p].key], es[p].now)
    requires es[p].key in Run(w, es[..p + 1]).entries
    requires R.NamesAll(t, es[p].key, Run(w, es[..p + 1]).entries[es[p].key])
    requires i < |Run(w, es[..p + 1]).entries[es[p].key]|
    requires es[p].key in Run(w, es[..q]).entries && j < |Run(w, es[..q]).entries[es[p].key]|
    requires var named, was := Run(w, es[..p + 1]).entries[es[p].key][i], Run(w, es[..q]).entries[es[p].key][j];
             && was.def.id == named.def.id && was.def.revision == named.def.revision
             && (was.def.kind == Periodic ==> was.generation == named.generation)
    ensures es[p].key in Run(w, es[..q + 1]).entries && j < |Run(w, es[..q + 1]).entries[es[p].key]|
    ensures var was, r := Run(w, es[..q]).entries[es[p].key][j], Run(w, es[..q + 1]).entries[es[p].key][j];
            && r.used == (if was.used + cost > MAX_INT64 then MAX_INT64 else was.used + cost)
            && r.def == was.def && r.startedAt == was.startedAt && r.endsAt == was.endsAt && r.generation == was.generation
  {
    hide Run, PermittedRun, R.NamesAll, R.AllLetThrough, Consistent, Step, DistinctIds;
    PrefixPermitted(w, es, p + 1);
    RunConsistent(w, es[..p + 1]);
    PrefixPermitted(w, es, q);
    RunConsistent(w, es[..q]);
    RunNext(w, es, q);
    KeyDistinct(Run(w, es[..p + 1]), es[p].key);
    ChargedNow(Run(w, es[..q]), Run(w, es[..p + 1]).entries[es[p].key], es[p].key, t, cost, i, j);
  }

  lemma RunNext(w: World, es: seq<Event>, n: nat)
    requires n < |es|
    ensures Run(w, es[..n + 1]) == Step(Run(w, es[..n]), es[n])
  {
    assert es[..n + 1][..n] == es[..n];
  }

  lemma KeyDistinct(w: World, key: nat)
    requires Consistent(w) && key in w.entries
    ensures DistinctIds(w.entries[key])
  {
  }

  lemma ChargedNow(v: World, named: seq<RuleState>, key: nat, t: Ticket, cost: int, i: nat, j: nat)
    requires Consistent(v) && DistinctIds(named) && R.NamesAll(t, key, named) && cost >= 0
    requires i < |named| && key in v.entries && j < |v.entries[key]|
    requires v.entries[key][j].def.id == named[i].def.id && v.entries[key][j].def.revision == named[i].def.revision
    requires v.entries[key][j].def.kind == Periodic ==> v.entries[key][j].generation == named[i].generation
    ensures key in Step(v, Complete(t, cost)).entries && j < |Step(v, Complete(t, cost)).entries[key]|
    ensures var was, r := v.entries[key][j], Step(v, Complete(t, cost)).entries[key][j];
            && r.used == (if was.used + cost > MAX_INT64 then MAX_INT64 else was.used + cost)
            && r.def == was.def && r.startedAt == was.startedAt && r.endsAt == was.endsAt && r.generation == was.generation
  {
    var was := v.entries[key][j];
    assert 0 <= was.used <= MAX_INT64;
    hide ChargeAll, Consistent, Remember;
    NamedOnce(t, key, named, i, was);
    R.ChargeMeans(was, t.rules, cost);
    assert Step(v, Complete(t, cost)).entries[key][j] == ChargeAll(was, t.rules, cost) by { NamesKey(t, key, named); }
    hide R.NamesAll, DistinctIds;
  }

  lemma NamesKey(t: Ticket, key: nat, rules: seq<RuleState>)
    requires R.NamesAll(t, key, rules)
    ensures t.key == key
  {
  }
}
