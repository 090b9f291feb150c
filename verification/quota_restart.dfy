/**
  From one start of the program to the next: a runtime restored from the database, any interleaving
  of requests, checkpoints, edits and reloads, and a restart when everything is saved.
*/
module QuotaRestart {
  import opened Wrappers
  import opened QuotaModel
  import opened QuotaRuns
  import opened QuotaCheckpoint
  import opened QuotaValidate

  // The rows and definitions with which the program starts: one row per rule, and every rule finds
  // a state that applies to it.
  ghost predicate Startable(defs: Definitions, rows: map<nat, RestoredState>) {
    && ValidDefinitions(defs)
    && (forall id :: id in rows ==> rows[id].ruleId == id && rows[id].used <= MAX_INT64)
    && RestoredEntries(Normalize(defs), rows).Some?
  }

  ghost function Started(defs: Definitions, rows: map<nat, RestoredState>): System
    requires Startable(defs, rows)
  {
    System(Start(RestoredEntries(Normalize(defs), rows).value), rows, {}, {}, Ids(rows))
  }

  lemma NormalizedSound(defs: Definitions)
    requires ValidDefinitions(defs)
    ensures SoundDefinitions(Normalize(defs))
  {
    NormalizedRules(defs);
    var n := Normalize(defs);
    forall k | k in n
      ensures k != 0 && DistinctRuleIds(n[k]) && forall i :: 0 <= i < |n[k]| ==> ValidRule(n[k][i])
    {
      assert ValidRules(defs[k]);
      forall i | 0 <= i < |n[k]| ensures ValidRule(n[k][i]) {
        assert n[k][i] in defs[k];
      }
    }
  }

  // ---- normalised definitions are valid ------------------------------------------------------------

  lemma {:induction false} InsertCounts(r: Rule, rules: seq<Rule>)
    ensures CountTotal(InsertRule(r, rules)) == CountTotal([r]) + CountTotal(rules)
    ensures CountPeriodic(InsertRule(r, rules)) == CountPeriodic([r]) + CountPeriodic(rules)
    decreases |rules|
  {
    if rules == [] || RuleBefore(r, rules[0]) {
      CountsAdd([r], rules);
      assert [r] + rules == InsertRule(r, rules);
    } else {
      InsertCounts(r, rules[1..]);
      CountsAdd([rules[0]], InsertRule(r, rules[1..]));
      CountsAdd([rules[0]], rules[1..]);
      assert rules == [rules[0]] + rules[1..];
    }
  }

  lemma {:induction false} SortCounts(rules: seq<Rule>)
    ensures CountTotal(SortRules(rules)) == CountTotal(rules)
    ensures CountPeriodic(SortRules(rules)) == CountPeriodic(rules)
    decreases |rules|
  {
    if rules != [] {
      SortCounts(rules[1..]);
      InsertCounts(rules[0], SortRules(rules[1..]));
      CountsAdd([rules[0]], rules[1..]);
      assert rules == [rules[0]] + rules[1..];
    }
  }

  lemma SortedValid(rules: seq<Rule>)
    requires ValidRules(rules)
    ensures ValidRules(SortRules(rules))
  {
    hide QuotaModel.SortRules, QuotaModel.CountTotal, QuotaModel.CountPeriodic;
    SortKeeps(rules);
    SortCounts(rules);
    var s := SortRules(rules);
    forall i, j | 0 <= i < j < |s| && s[i].kind.Periodic? && s[j].kind.Periodic? ensures s[i].period != s[j].period {
      var a :| 0 <= a < |rules| && rules[a] == s[i];
      var b :| 0 <= b < |rules| && rules[b] == s[j];
      assert s[i].id != s[j].id;
    }
  }

  lemma NormalizedValid(defs: Definitions)
    requires ValidDefinitions(defs)
    ensures ValidDefinitions(Normalize(defs))
  {
    hide QuotaModel.SortRules, QuotaModel.ValidRules;
    var n := Normalize(defs);
    forall k | k in n ensures k != 0 && ValidRules(n[k]) {
      SortedValid(defs[k]);
    }
    NormalizedRules(defs);
    forall k, l | k in n && l in n && k != l ensures Disjoint(n[k], n[l]) {
      assert Disjoint(defs[k], defs[l]);
    }
  }

  // ---- what the program starts with -----------------------------------------------------------------

  // Every restored rule is the capture of its row turned back.
  lemma RestoredFrom(defs: Definitions, rows: map<nat, RestoredState>, k: nat, i: nat)
    requires RestoredEntries(defs, rows).Some?
    requires k in defs && i < |defs[k]|
    requires forall id :: id in rows ==> rows[id].ruleId == id
    ensures var r := RestoredEntries(defs, rows).value[k][i];
            r.def == defs[k][i] && r.def.id in rows && rows[r.def.id] == Capture(k, r)
  {
    assert AllRestorable(rows, k, defs[k]) && Restorable(rows, k, defs[k][i]);
  }

  // Every row belongs to a live rule.
  lemma RowIsLive(defs: Definitions, rows: map<nat, RestoredState>, id: nat)
    requires SoundDefinitions(defs) && RestoredEntries(defs, rows).Some? && id in rows
    requires forall r :: r in rows ==> rows[r].ruleId == r
    ensures Live(RestoredEntries(defs, rows).value, IdOf(rows[id]))
    ensures IdOf(rows[id]) in Start(RestoredEntries(defs, rows).value).seen
  {
    var entries: Entries := RestoredEntries(defs, rows).value;
    assert Owned(defs, id);
    var k, i :| k in defs && 0 <= i < |defs[k]| && defs[k][i].id == id;
    RestoredFrom(defs, rows, k, i);
    assert DistinctIds(entries[k]);
    LiveRule(entries, k, i);
    assert Id(k, entries[k][i]) in LiveIds(entries);
  }

  // What was seen at the start has a row.
  lemma SeenHasRow(defs: Definitions, rows: map<nat, RestoredState>, id: Identity)
    requires RestoredEntries(defs, rows).Some? && id in Start(RestoredEntries(defs, rows).value).seen
    requires forall r :: r in rows ==> rows[r].ruleId == r
    ensures id.1 in rows && IdOf(rows[id.1]) == id
  {
    var entries := RestoredEntries(defs, rows).value;
    var i := LiveIndex(entries, id);
    RestoredFrom(defs, rows, id.0, i);
  }

  lemma StartRowsSafe(defs: Definitions, rows: map<nat, RestoredState>)
    requires SoundDefinitions(defs) && RestoredEntries(defs, rows).Some?
    requires forall r :: r in rows ==> rows[r].ruleId == r
    ensures RowsSafe(System(Start(RestoredEntries(defs, rows).value), rows, {}, {}, Ids(rows)))
  {
    hide QuotaModel.RestoredEntries, SoundDefinitions, Start, Live;
    var s := System(Start(RestoredEntries(defs, rows).value), rows, {}, {}, Ids(rows));
    forall id | id in rows ensures IdOf(rows[id]) in s.w.seen && Live(s.w.entries, IdOf(rows[id])) {
      RowIsLive(defs, rows, id);
      StartEntries(RestoredEntries(defs, rows).value);
    }
    forall id | id in s.w.seen ensures id in s.known {
      SeenHasRow(defs, rows, id);
      assert IdOf(rows[id.1]) in Ids(rows);
    }
  }

  lemma StartEntries(entries: Entries)
    ensures Start(entries).entries == entries
  {
  }

  lemma StartRulesSafe(defs: Definitions, rows: map<nat, RestoredState>)
    requires RestoredEntries(defs, rows).Some?
    requires forall r :: r in rows ==> rows[r].ruleId == r
    ensures RulesSafe(System(Start(RestoredEntries(defs, rows).value), rows, {}, {}, Ids(rows)))
  {
    var entries: Entries := RestoredEntries(defs, rows).value;
    var s := System(Start(entries), rows, {}, {}, Ids(rows));
    forall k, i {:trigger s.w.entries[k][i]} | k in s.w.entries && 0 <= i < |s.w.entries[k]|
      ensures RuleSafe(s, k, s.w.entries[k][i])
    {
      RestoredFrom(defs, rows, k, i);
      assert IdOf(rows[entries[k][i].def.id]) in Ids(rows);
    }
  }

  /** A system that the program starts in is safe, healthy and in normal form. */
  lemma StartIsSafe(defs: Definitions, rows: map<nat, RestoredState>)
    requires Startable(defs, rows)
    ensures Sound(Started(defs, rows))
  {
    hide QuotaModel.RestoredEntries, SoundDefinitions, QuotaModel.WellFormedEntries, RowsSafe, RulesSafe, Normal;
    NormalizedValid(defs);
    hide QuotaModel.ValidDefinitions;
    NormalizedSound(defs);
    RestoredWellFormed(Normalize(defs), rows);
    StartHealthy(RestoredEntries(Normalize(defs), rows).value);
    StartRowsSafe(Normalize(defs), rows);
    StartRulesSafe(Normalize(defs), rows);
    RestoredNormal(defs, rows);
  }

  lemma RestoredNormal(defs: Definitions, rows: map<nat, RestoredState>)
    requires ValidDefinitions(defs) && RestoredEntries(Normalize(defs), rows).Some?
    ensures Normal(RestoredEntries(Normalize(defs), rows).value)
    ensures DefinitionsOf(RestoredEntries(Normalize(defs), rows).value) == Normalize(defs)
  {
    NormalizeTwice(defs);
    RestoredDefinitions(Normalize(defs), rows);
  }

  lemma RestoredDefinitions(defs: Definitions, rows: map<nat, RestoredState>)
    requires RestoredEntries(defs, rows).Some?
    ensures DefinitionsOf(RestoredEntries(defs, rows).value) == defs
  {
    var entries: Entries := RestoredEntries(defs, rows).value;
    forall k | k in defs ensures DefsOf(entries[k]) == defs[k] {
    }
  }

  // ---- every move keeps the state healthy ---------------------------------------------------------

  ghost predicate Sound(s: System) {
    Safe(s) && Healthy(s.w) && Normal(s.w.entries) && Valid(s.w.entries)
  }

  // The rules of the table are ones that a reconfiguration accepts.
  predicate Valid(entries: Entries) {
    ValidDefinitions(DefinitionsOf(entries))
  }

  lemma StepValid(w: World, e: Event)
    requires Valid(w.entries)
    ensures Valid(StepEntries(w, e))
  {
    if Effective(w, e) {
      NormalizedValid(e.defs);
      hide QuotaModel.Normalize, QuotaModel.Reconciled, QuotaModel.ValidDefinitions;
      ReconciledDefinitions(w.entries, Normalize(e.defs));
    } else {
      InPlaceDefinitions(w, e);
    }
  }

  predicate Timed(m: Move) {
    m.Operate? && m.e.Admit? ==> m.e.now >= 0
  }

  lemma SoundMove(s: System, m: Move)
    requires Sound(s) && Allowed(s, m) && Timed(m)
    ensures Sound(Next(s, m))
  {
    hide Healthy, Safe, Normal, Valid;
    SafeMove(s, m);
    match m {
      case Operate(e) => SoundStep(s.w, e);
      case AckPersisted(p) => SoundStep(s.w, Ack(p.key, p.ruleId, p.revision, p.version));
      case Reload(defs) =>
        ReloadPermitted(s, defs);
        SoundStep(s.w, Reconfigure(defs));
      case CaptureDirty(_, _) =>
      case Persist(_) =>
      case EditRules(_) =>
    }
  }

  lemma SoundStep(w: World, e: Event)
    requires Healthy(w) && Normal(w.entries) && Valid(w.entries) && Permitted(w, e) && (e.Admit? ==> e.now >= 0)
    ensures Healthy(Step(w, e)) && Normal(Step(w, e).entries) && Valid(Step(w, e).entries)
  {
    hide Healthy, Normal, Permitted, Valid;
    HealthyStep(w, e);
    StepNormal(w, e);
    StepValid(w, e);
    assert Step(w, e).entries == StepEntries(w, e);
  }

  lemma {:induction false} SoundMoves(s: System, ms: seq<Move>)
    requires Sound(s) && AllowedMoves(s, ms) && forall i :: 0 <= i < |ms| ==> Timed(ms[i])
    ensures Sound(Moves(s, ms))
    decreases |ms|
  {
    hide Sound, Allowed;
    if ms != [] {
      SoundMoves(s, ms[..|ms| - 1]);
      SoundMove(Moves(s, ms[..|ms| - 1]), ms[|ms| - 1]);
    }
  }

  /** From any start, after any allowed interleaving that ends with everything saved, the next start
      gives back exactly the running table, and is a start from which the same holds. */
  lemma RestartLosesNothing(defs: Definitions, rows: map<nat, RestoredState>, ms: seq<Move>)
    requires Startable(defs, rows) && AllowedMoves(Started(defs, rows), ms)
    requires (forall i :: 0 <= i < |ms| ==> Timed(ms[i])) && Settled(Moves(Started(defs, rows), ms))
    ensures var t := Moves(Started(defs, rows), ms);
            && RestoredEntries(Normalize(DefinitionsOf(t.w.entries)), t.durable) == Some(t.w.entries)
            && Startable(DefinitionsOf(t.w.entries), t.durable)
  {
    hide Safe, Healthy, Settled, AllowedMoves, QuotaModel.RestoredEntries, QuotaModel.ValidDefinitions;
    StartIsSafe(defs, rows);
    SoundMoves(Started(defs, rows), ms);
    var t := Moves(Started(defs, rows), ms);
    HealthyIsWellFormed(t.w);
    CleanRestart(t);
    SettledRows(t);
  }

  lemma SettledRows(s: System)
    requires Safe(s) && WellFormedEntries(s.w.entries) && Settled(s)
    ensures forall id :: id in s.durable ==> s.durable[id].ruleId == id && s.durable[id].used <= MAX_INT64
  {
    SettledCaptures(s);
    forall id | id in s.durable ensures s.durable[id].used <= MAX_INT64 {
      var k, i :| k in s.w.entries && 0 <= i < |s.w.entries[k]| && s.w.entries[k][i].def.id == id;
      assert WellFormed(s.w.entries[k][i]);
    }
  }

  lemma HealthyIsWellFormed(w: World)
    requires Healthy(w)
    ensures WellFormedEntries(w.entries)
  {
  }

  /** At any point of any such run, a rule that is not dirty equals its row. */
  lemma RunIsLossless(defs: Definitions, rows: map<nat, RestoredState>, ms: seq<Move>, k: nat, i: nat)
    requires Startable(defs, rows) && AllowedMoves(Started(defs, rows), ms)
    requires var t := Moves(Started(defs, rows), ms); k in t.w.entries && i < |t.w.entries[k]|
    ensures var t := Moves(Started(defs, rows), ms);
            var r := t.w.entries[k][i];
            !r.dirty && r.def.id in t.durable && IdOf(t.durable[r.def.id]) == Id(k, r) ==>
              t.durable[r.def.id] == Capture(k, r)
  {
    hide AllowedMoves, Safe, Healthy;
    StartIsSafe(defs, rows);
    CheckpointLossless(Started(defs, rows), ms);
  }
}
