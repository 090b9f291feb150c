/**
  Checkpointing of the cost-limit runtime: reachable states can always be read back, and
  the capture, persist, acknowledge protocol never forgets a change.
*/
module QuotaCheckpoint {
  import opened Wrappers
  import opened QuotaModel
  import opened QuotaRuns

  // ---- every reachable state is one that restore accepts --------------------------

  // A ticket for a live periodic rule names an opened window.
  ghost predicate WindowedTickets(w: World) {
    forall t, j {:trigger t.rules[j]} :: t in w.issued && 0 <= j < |t.rules| ==>
      var p := Find(RulesOf(w.entries, t.key), t.rules[j].ruleId);
      p.Some? && p.value.def.revision == t.rules[j].revision && p.value.def.kind.Periodic?
      ==> t.rules[j].generation >= 1
  }

  ghost predicate Healthy(w: World) {
    Consistent(w) && WellFormedEntries(w.entries) && WindowedTickets(w)
  }

  lemma {:induction false} ChargedWellFormed(r: RuleState, ticket: seq<TicketRule>, cost: int)
    requires WellFormed(r)
    requires r.def.kind.Periodic? ==>
      forall j :: 0 <= j < |ticket| && ticket[j].ruleId == r.def.id && ticket[j].revision == r.def.revision
        ==> ticket[j].generation >= 1
    ensures WellFormed(ChargeAll(r, ticket, cost))
    decreases |ticket|
  {
    if ticket != [] {
      ChargedWellFormed(r, ticket[..|ticket| - 1], cost);
    }
  }

  lemma CarriedWellFormed(def: Rule, prev: seq<RuleState>)
    requires ValidRule(def) && !Conflicts(def, prev)
    requires forall i :: 0 <= i < |prev| ==> WellFormed(prev[i])
    ensures WellFormed(Carry(def, prev))
  {
  }

  lemma ReconfiguredWellFormed(w: World, defs: Definitions)
    requires WellFormedEntries(w.entries)
    requires ValidDefinitions(defs) && !ReconcileConflict(w.entries, Normalize(defs))
    ensures WellFormedEntries(Reconcile(w.entries, defs))
  {
    var next: Entries := Reconcile(w.entries, defs);
    ReconfiguredDistinct(w.entries, defs);
    forall k, i | k in next && 0 <= i < |next[k]| ensures WellFormed(next[k][i]) {
      var d := Reconfigured(w, defs, k, i);
      assert ValidRules(defs[k]);
      CarriedWellFormed(defs[k][d], RulesOf(w.entries, k));
    }
  }

  lemma InPlaceWellFormed(w: World, e: Event, k: nat, i: nat)
    requires Healthy(w) && Permitted(w, e) && !Effective(w, e) && (e.Admit? ==> e.now >= 0)
    requires k in w.entries && i < |w.entries[k]|
    ensures |StepEntries(w, e)[k]| == |w.entries[k]| && WellFormed(StepEntries(w, e)[k][i])
  {
    var r := w.entries[k][i];
    assert WellFormed(r);
    if e.Complete? && e.ticket.key == k && r.def.kind.Periodic? {
      LiveRule(w.entries, k, i);
      forall j | 0 <= j < |e.ticket.rules| && e.ticket.rules[j].ruleId == r.def.id
                 && e.ticket.rules[j].revision == r.def.revision
        ensures e.ticket.rules[j].generation >= 1
      {
        assert e.ticket in w.issued;
      }
      ChargedWellFormed(r, e.ticket.rules, e.cost);
    } else if e.Complete? && e.ticket.key == k {
      ChargedWellFormed(r, e.ticket.rules, e.cost);
    }
  }

  lemma StepWellFormed(w: World, e: Event)
    requires Healthy(w) && Permitted(w, e) && (e.Admit? ==> e.now >= 0)
    ensures WellFormedEntries(StepEntries(w, e))
  {
    if Effective(w, e) {
      ReconfiguredWellFormed(w, e.defs);
    } else {
      StepInPlace(w, e);
      StepDistinct(w, e);
      forall k, i | k in StepEntries(w, e) && 0 <= i < |StepEntries(w, e)[k]|
        ensures WellFormed(StepEntries(w, e)[k][i])
      {
        InPlaceWellFormed(w, e, k, i);
      }
    }
  }

  // The kind of a live rule never changes under the same revision.
  lemma KindKept(w: World, e: Event, id: Identity)
    requires Consistent(w) && Permitted(w, e)
    requires id in w.seen && Live(StepEntries(w, e), id)
    ensures Live(w.entries, id)
    ensures Find(RulesOf(w.entries, id.0), id.1).value.def.kind
         == Find(RulesOf(StepEntries(w, e), id.0), id.1).value.def.kind
  {
    StepGrows(w, e);
    var i := LiveIndex(StepEntries(w, e), id);
    if Effective(w, e) {
      var d := Reconfigured(w, e.defs, id.0, i);
    } else {
      StepInPlace(w, e);
      LiveRule(w.entries, id.0, i);
    }
  }

  lemma OldTicketsWindowed(w: World, e: Event, t: Ticket, j: nat)
    requires Healthy(w) && Permitted(w, e)
    requires t in w.issued && j < |t.rules|
    ensures var p := Find(RulesOf(StepEntries(w, e), t.key), t.rules[j].ruleId);
            p.Some? && p.value.def.revision == t.rules[j].revision && p.value.def.kind.Periodic?
            ==> t.rules[j].generation >= 1
  {
    var id := (t.key, t.rules[j].ruleId, t.rules[j].revision);
    assert TicketSeen(t, w.seen);
    assert id in w.seen;
    if Live(StepEntries(w, e), id) {
      KindKept(w, e, id);
    }
  }

  lemma NewTicketWindowed(w: World, e: Event, j: nat)
    requires Healthy(w) && e.Admit? && e.now >= 0
    requires j < |TicketFor(w, e.key, e.now).rules|
    ensures var t := TicketFor(w, e.key, e.now);
            var p := Find(RulesOf(StepEntries(w, e), t.key), t.rules[j].ruleId);
            p.Some? && p.value.def.kind.Periodic? ==> t.rules[j].generation >= 1
  {
    var next := StepEntries(w, e);
    StepDistinct(w, e);
    LiveRule(next, e.key, j);
    InPlaceWellFormed(w, e, e.key, j);
    assert WellFormed(w.entries[e.key][j]);
    assert TicketFor(w, e.key, e.now).rules[j] == TicketRuleOf(next[e.key][j]);
  }

  lemma HealthyStep(w: World, e: Event)
    requires Healthy(w) && Permitted(w, e) && (e.Admit? ==> e.now >= 0)
    ensures Healthy(Step(w, e))
  {
    StepConsistent(w, e);
    StepWellFormed(w, e);
    var w' := Step(w, e);
    forall t, j {:trigger t.rules[j]} | t in w'.issued && 0 <= j < |t.rules|
      ensures var p := Find(RulesOf(w'.entries, t.key), t.rules[j].ruleId);
              p.Some? && p.value.def.revision == t.rules[j].revision && p.value.def.kind.Periodic?
              ==> t.rules[j].generation >= 1
    {
      if t in w.issued {
        OldTicketsWindowed(w, e, t, j);
      } else {
        NewTicketWindowed(w, e, j);
      }
    }
  }

  predicate NonNegativeTimes(es: seq<Event>) {
    forall n :: 0 <= n < |es| && es[n].Admit? ==> es[n].now >= 0
  }

  /** Every state reached with issued tickets at non-negative times is well formed: windows
      are exactly one period long and unopened windows are empty. */
  lemma {:induction false} ReachableHealthy(w: World, es: seq<Event>)
    requires Healthy(w) && PermittedRun(w, es) && NonNegativeTimes(es)
    ensures Healthy(Run(w, es))
    decreases |es|
  {
    if es != [] {
      ReachableHealthy(w, es[..|es| - 1]);
      HealthyStep(Run(w, es[..|es| - 1]), es[|es| - 1]);
    }
  }

  // The world in which a run starts: any well-formed state, nothing issued yet.
  function Start(entries: Entries): World {
    World(entries, {}, Remember(map[], entries))
  }

  lemma StartHealthy(entries: Entries)
    requires WellFormedEntries(entries)
    ensures Healthy(Start(entries))
  {
    RememberLive(map[], entries);
    var w := Start(entries);
    forall k, i {:trigger w.entries[k][i]} | k in w.entries && 0 <= i < |w.entries[k]|
      ensures 0 <= w.entries[k][i].used <= MAX_INT64
      ensures Id(k, w.entries[k][i]) in w.seen
      ensures w.seen[Id(k, w.entries[k][i])] == w.entries[k][i].generation
    {
      assert WellFormed(entries[k][i]);
    }
  }

  // ---- restore --------------------------------------------------------------------

  function DefsOf(rules: seq<RuleState>): seq<Rule> {
    seq(|rules|, i requires 0 <= i < |rules| => rules[i].def)
  }

  function DefinitionsOf(entries: Entries): Definitions {
    map k | k in entries :: DefsOf(entries[k])
  }

  function Clean(rules: seq<RuleState>): seq<RuleState> {
    seq(|rules|, i requires 0 <= i < |rules| => rules[i].(dirty := false))
  }

  function CleanEntries(entries: Entries): Entries {
    map k | k in entries :: Clean(entries[k])
  }

  // `restored` holds exactly the captured state of every live rule.
  ghost predicate Captures(restored: map<nat, RestoredState>, entries: Entries) {
    && (forall k, i {:trigger entries[k][i]} :: k in entries && 0 <= i < |entries[k]| ==>
          && entries[k][i].def.id in restored
          && restored[entries[k][i].def.id] == Capture(k, entries[k][i]))
    && (forall id :: id in restored ==>
          exists k, i :: k in entries && 0 <= i < |entries[k]| && entries[k][i].def.id == id)
  }

  /** Capturing a well-formed state and restoring it under the same definitions gives the
      state back, with every rule marked as saved. */
  lemma RestoreRoundTrip(entries: Entries, restored: map<nat, RestoredState>)
    requires WellFormedEntries(entries) && Captures(restored, entries)
    ensures RestoredEntries(DefinitionsOf(entries), restored) == Some(CleanEntries(entries))
  {
    CapturesRestorable(entries, restored);
    CapturesOwned(entries, restored);
    CapturesRestored(entries, restored);
    hide QuotaModel.AllRestorable, QuotaModel.AllRestored, QuotaModel.Owned;
  }

  lemma CapturesRestorable(entries: Entries, restored: map<nat, RestoredState>)
    requires WellFormedEntries(entries) && Captures(restored, entries)
    ensures forall k :: k in DefinitionsOf(entries) ==> AllRestorable(restored, k, DefinitionsOf(entries)[k])
  {
    var defs := DefinitionsOf(entries);
    forall k | k in defs ensures AllRestorable(restored, k, defs[k]) {
      forall i | 0 <= i < |defs[k]| ensures Restorable(restored, k, defs[k][i]) {
        assert defs[k][i] == entries[k][i].def;
        assert WellFormed(entries[k][i]);
      }
    }
  }

  lemma CapturesOwned(entries: Entries, restored: map<nat, RestoredState>)
    requires Captures(restored, entries)
    ensures forall id :: id in restored ==> Owned(DefinitionsOf(entries), id)
  {
    var defs := DefinitionsOf(entries);
    forall id | id in restored ensures Owned(defs, id) {
      var k, i :| k in entries && 0 <= i < |entries[k]| && entries[k][i].def.id == id;
      assert defs[k][i].id == id;
    }
  }

  lemma CapturesRestored(entries: Entries, restored: map<nat, RestoredState>)
    requires WellFormedEntries(entries) && Captures(restored, entries)
    ensures AllRestored(DefinitionsOf(entries), restored) == CleanEntries(entries)
  {
    var defs := DefinitionsOf(entries);
    var r: Entries := AllRestored(defs, restored);
    forall k | k in entries ensures r[k] == CleanEntries(entries)[k] {
      assert |r[k]| == |Clean(entries[k])|;
      forall i | 0 <= i < |entries[k]| ensures r[k][i] == Clean(entries[k])[i] {
        assert defs[k][i] == entries[k][i].def;
      }
    }
  }

  // ---- installed tables are in normal form ----------------------------------------

  predicate Ordered(rules: seq<Rule>) {
    forall i :: 0 < i < |rules| ==> RuleBefore(rules[i - 1], rules[i])
  }

  predicate Known(r: Rule) { r.kind.Total? || r.kind.Periodic? }

  lemma {:induction false} InsertOrdered(r: Rule, rules: seq<Rule>)
    requires Ordered(rules) && Known(r)
    requires forall i :: 0 <= i < |rules| ==> Known(rules[i]) && rules[i].id != r.id
    ensures Ordered(InsertRule(r, rules))
    ensures InsertRule(r, rules) != []
    ensures InsertRule(r, rules)[0] == r || (rules != [] && InsertRule(r, rules)[0] == rules[0])
    decreases |rules|
  {
    if rules != [] && !RuleBefore(r, rules[0]) {
      InsertOrdered(r, rules[1..]);
      assert RuleBefore(rules[0], r);
      assert |rules| > 1 ==> RuleBefore(rules[0], rules[1]);
    }
  }

  lemma {:induction false} SortOrdered(rules: seq<Rule>)
    requires DistinctRuleIds(rules) && forall i :: 0 <= i < |rules| ==> Known(rules[i])
    ensures Ordered(SortRules(rules))
    decreases |rules|
  {
    if rules != [] {
      var rest := rules[1..];
      SortOrdered(rest);
      SortKeeps(rest);
      forall i | 0 <= i < |SortRules(rest)|
        ensures Known(SortRules(rest)[i]) && SortRules(rest)[i].id != rules[0].id
      {
        var j :| 0 <= j < |rest| && rest[j] == SortRules(rest)[i];
        assert rules[j + 1] == rest[j];
      }
      InsertOrdered(rules[0], SortRules(rest));
    }
  }

  lemma {:induction false} SortOfOrdered(rules: seq<Rule>)
    requires Ordered(rules)
    ensures SortRules(rules) == rules
    decreases |rules|
  {
    if rules != [] {
      SortOfOrdered(rules[1..]);
      assert |rules| > 1 ==> RuleBefore(rules[0], rules[1]);
      assert rules == [rules[0]] + rules[1..];
    }
  }

  lemma NormalizeTwice(defs: Definitions)
    requires ValidDefinitions(defs)
    ensures Normalize(Normalize(defs)) == Normalize(defs)
  {
    hide QuotaModel.SortRules, QuotaModel.ValidRules;
    var n := Normalize(defs);
    forall k | k in n ensures n[k] != [] && SortRules(n[k]) == n[k] {
      assert ValidRules(defs[k]);
      SortTwice(defs[k]);
    }
  }

  lemma SortTwice(rules: seq<Rule>)
    requires ValidRules(rules)
    ensures SortRules(SortRules(rules)) == SortRules(rules)
    ensures |SortRules(rules)| == |rules|
  {
    SortOrdered(rules);
    SortKeeps(rules);
    SortOfOrdered(SortRules(rules));
  }

  // The table is what its own definitions normalise to.
  ghost predicate Normal(entries: Entries) {
    Normalize(DefinitionsOf(entries)) == DefinitionsOf(entries)
  }

  lemma StepNormal(w: World, e: Event)
    requires Normal(w.entries)
    ensures Normal(StepEntries(w, e))
  {
    if Effective(w, e) {
      NormalizeTwice(e.defs);
      hide QuotaModel.Normalize, QuotaModel.Reconciled;
      ReconciledDefinitions(w.entries, Normalize(e.defs));
    } else {
      InPlaceDefinitions(w, e);
    }
  }

  // A step that leaves the rules in place leaves their definitions as they were.
  lemma InPlaceDefinitions(w: World, e: Event)
    requires !Effective(w, e)
    ensures DefinitionsOf(StepEntries(w, e)) == DefinitionsOf(w.entries)
  {
    StepInPlace(w, e);
    hide QuotaRuns.StepEntries;
    forall k | k in w.entries ensures DefsOf(StepEntries(w, e)[k]) == DefsOf(w.entries[k]) {
      forall i | 0 <= i < |w.entries[k]| ensures StepEntries(w, e)[k][i].def == w.entries[k][i].def {
      }
    }
  }

  lemma ReconciledDefinitions(entries: Entries, defs: Definitions)
    ensures DefinitionsOf(Reconciled(entries, defs)) == defs
  {
    forall k | k in defs ensures DefsOf(CarryAll(defs[k], RulesOf(entries, k))) == defs[k] {
    }
  }

  lemma {:induction false} RunNormal(w: World, es: seq<Event>)
    requires Normal(w.entries)
    ensures Normal(Run(w, es).entries)
    decreases |es|
  {
    if es != [] {
      RunNormal(w, es[..|es| - 1]);
      StepNormal(Run(w, es[..|es| - 1]), es[|es| - 1]);
    }
  }

  // A list with the captured state of every live rule, each rule once.
  ghost predicate CaptureList(states: seq<RestoredState>, entries: Entries) {
    && (forall i, j :: 0 <= i < j < |states| ==> states[i].ruleId != states[j].ruleId)
    && (forall n :: 0 <= n < |states| ==>
          exists k, i :: k in entries && 0 <= i < |entries[k]| && states[n] == Capture(k, entries[k][i]))
    && (forall k, i {:trigger entries[k][i]} :: k in entries && 0 <= i < |entries[k]| ==>
          Capture(k, entries[k][i]) in states)
  }

  lemma CaptureListRestores(states: seq<RestoredState>, entries: Entries)
    requires WellFormedEntries(entries) && CaptureList(states, entries)
    ensures RestoreMap(states).Some? && Captures(RestoreMap(states).value, entries)
  {
    forall n | 0 <= n < |states| ensures ValidRestored(states[n]) {
      var k, i :| k in entries && 0 <= i < |entries[k]| && states[n] == Capture(k, entries[k][i]);
      assert WellFormed(entries[k][i]);
    }
    RestoreMapContents(states);
    var m := RestoreMap(states).value;
    forall k, i {:trigger entries[k][i]} | k in entries && 0 <= i < |entries[k]|
      ensures entries[k][i].def.id in m && m[entries[k][i].def.id] == Capture(k, entries[k][i])
    {
      assert Capture(k, entries[k][i]) in states;
      var n :| 0 <= n < |states| && states[n] == Capture(k, entries[k][i]);
    }
    forall id | id in m
      ensures exists k, i :: k in entries && 0 <= i < |entries[k]| && entries[k][i].def.id == id
    {
      var n :| 0 <= n < |states| && states[n].ruleId == id;
      var k, i :| k in entries && 0 <= i < |entries[k]| && states[n] == Capture(k, entries[k][i]);
    }
  }

  /** Capture, restore and reconfigure with the same rules: after any run from an installed
      table, the restarted runtime is the old one with everything marked as saved. */
  lemma RestartReproduces(entries: Entries, es: seq<Event>, states: seq<RestoredState>)
    requires WellFormedEntries(entries) && Normal(entries)
    requires PermittedRun(Start(entries), es) && NonNegativeTimes(es)
    requires CaptureList(states, Run(Start(entries), es).entries)
    ensures var last := Run(Start(entries), es).entries;
            && RestoreMap(states).Some?
            && RestoredEntries(Normalize(DefinitionsOf(last)), RestoreMap(states).value) == Some(CleanEntries(last))
  {
    var last := Run(Start(entries), es).entries;
    StartHealthy(entries);
    ReachableHealthy(Start(entries), es);
    RunNormal(Start(entries), es);
    CaptureListRestores(states, last);
    RestoreRoundTrip(last, RestoreMap(states).value);
  }

  // Every rule is valid by itself and IDs are distinct for each key.
  predicate SoundDefinitions(defs: Definitions) {
    forall k :: k in defs ==>
      k != 0 && DistinctRuleIds(defs[k]) && forall i :: 0 <= i < |defs[k]| ==> ValidRule(defs[k][i])
  }

  // Restored entries are well formed, so a run may start from them.
  lemma RestoredWellFormed(defs: Definitions, restored: map<nat, RestoredState>)
    requires SoundDefinitions(defs)
    requires RestoredEntries(defs, restored).Some?
    requires forall id :: id in restored ==> restored[id].used <= MAX_INT64
    ensures WellFormedEntries(RestoredEntries(defs, restored).value)
  {
    var r: Entries := RestoredEntries(defs, restored).value;
    forall k, i | k in r && 0 <= i < |r[k]| ensures WellFormed(r[k][i]) {
      assert AllRestorable(restored, k, defs[k]) && Restorable(restored, k, defs[k][i]);
      assert ValidRule(defs[k][i]);
    }
    forall k | k in r ensures k != 0 && DistinctIds(r[k]) {
      assert k in defs;
    }
  }

  /** The list that restore is given is accepted exactly when every state is valid and no
      rule appears twice, and then it is looked up by rule. */
  lemma {:induction false} RestoreMapContents(states: seq<RestoredState>)
    ensures RestoreMap(states).Some? <==>
      && (forall i :: 0 <= i < |states| ==> ValidRestored(states[i]))
      && (forall i, j :: 0 <= i < j < |states| ==> states[i].ruleId != states[j].ruleId)
    ensures RestoreMap(states).Some? ==>
      && (forall i :: 0 <= i < |states| ==>
            states[i].ruleId in RestoreMap(states).value
            && RestoreMap(states).value[states[i].ruleId] == states[i])
      && (forall id :: id in RestoreMap(states).value ==>
            exists i :: 0 <= i < |states| && states[i].ruleId == id)
    decreases |states|
  {
    if states != [] {
      var init, s := states[..|states| - 1], states[|states| - 1];
      RestoreMapContents(init);
      if RestoreMap(init).Some? && ValidRestored(s) {
        if s.ruleId in RestoreMap(init).value {
          var i :| 0 <= i < |init| && init[i].ruleId == s.ruleId;
          assert states[i].ruleId == states[|states| - 1].ruleId;
        }
      }
      assert forall i :: 0 <= i < |init| ==> init[i] == states[i];
    }
  }

  // ---- the checkpoint protocol ----------------------------------------------------

  // Durable rows by rule ID; snapshots that were captured; snapshots whose write succeeded.
  datatype System = System(
    w: World, durable: map<nat, RestoredState>,
    captured: set<RestoredState>, persisted: set<RestoredState>, known: set<Identity>)

  datatype Move =
    | Operate(e: Event)
    | CaptureDirty(key: nat, index: nat)
    | Persist(snapshot: RestoredState)
    | AckPersisted(snapshot: RestoredState)
    | EditRules(rules: map<nat, (nat, nat)>)
    | Reload(defs: Definitions)

  function IdOf(s: RestoredState): Identity { (s.key, s.ruleId, s.revision) }

  function ZeroRow(id: Identity): RestoredState {
    RestoredState(id.0, id.1, id.2, 0, None, None, 0, 1)
  }

  // The guarded update: same rule and revision, older version.
  function PersistSnapshot(durable: map<nat, RestoredState>, s: RestoredState): map<nat, RestoredState> {
    if s.ruleId in durable && durable[s.ruleId].revision == s.revision && durable[s.ruleId].version < s.version
    then durable[s.ruleId := s.(key := durable[s.ruleId].key)]
    else durable
  }

  // A committed edit keeps the row of an unchanged revision and resets every other row.
  function Edited(durable: map<nat, RestoredState>, rules: map<nat, (nat, nat)>): map<nat, RestoredState> {
    map id | id in rules ::
      if id in durable && durable[id].key == rules[id].0 && durable[id].revision == rules[id].1
      then durable[id] else ZeroRow((rules[id].0, id, rules[id].1))
  }

  function Ids(durable: map<nat, RestoredState>): set<Identity> {
    set id | id in durable :: IdOf(durable[id])
  }

  function Next(s: System, m: Move): System {
    match m
    case Operate(e) => s.(w := Step(s.w, e))
    case CaptureDirty(k, i) =>
      if k in s.w.entries && i < |s.w.entries[k]| && s.w.entries[k][i].dirty
      then s.(captured := s.captured + {Capture(k, s.w.entries[k][i])}) else s
    case Persist(p) => s.(durable := PersistSnapshot(s.durable, p), persisted := s.persisted + {p})
    case AckPersisted(p) => s.(w := Step(s.w, Ack(p.key, p.ruleId, p.revision, p.version)))
    case EditRules(rules) =>
      s.(durable := Edited(s.durable, rules), known := s.known + Ids(Edited(s.durable, rules)))
    case Reload(defs) => s.(w := Step(s.w, Reconfigure(defs)))
  }

  // Reloading uses exactly the rules of the database.
  ghost predicate MatchesRows(defs: Definitions, durable: map<nat, RestoredState>) {
    && (forall k, i {:trigger defs[k][i]} :: k in defs && 0 <= i < |defs[k]| ==>
          && defs[k][i].id in durable
          && IdOf(durable[defs[k][i].id]) == (k, defs[k][i].id, defs[k][i].revision))
    && (forall id :: id in durable ==>
          exists k, i :: k in defs && 0 <= i < |defs[k]| && defs[k][i].id == id)
  }

  ghost predicate Allowed(s: System, m: Move) {
    match m
    case Operate(e) => (e.Admit? || e.Complete?) && Permitted(s.w, e) && BelowMax(s.w)
    case Persist(p) => p in s.captured
    case AckPersisted(p) => p in s.persisted
    case EditRules(rules) =>
      forall id :: id in rules ==>
        || (id in s.durable && IdOf(s.durable[id]) == (rules[id].0, id, rules[id].1))
        || (forall q :: q in s.known ==> !(q.1 == id && q.2 == rules[id].1))
    case Reload(defs) => Effective(s.w, Reconfigure(defs)) && MatchesRows(defs, s.durable)
    case _ => true
  }

  ghost predicate BelowMax(w: World) {
    forall k, i {:trigger w.entries[k][i]} :: k in w.entries && 0 <= i < |w.entries[k]| ==>
      w.entries[k][i].version < MAX_UINT64
  }

  // A snapshot is never ahead of the live rule, and at the same version it is the rule.
  predicate Behind(s: RestoredState, k: nat, r: RuleState) {
    s.version <= r.version && (s.version == r.version ==> s == Capture(k, r))
  }

  ghost predicate RuleSafe(s: System, k: nat, r: RuleState) {
    && Id(k, r) in s.known
    && (forall c :: c in s.captured && IdOf(c) == Id(k, r) ==> Behind(c, k, r))
    && (r.def.id in s.durable && IdOf(s.durable[r.def.id]) == Id(k, r) ==>
          && Behind(s.durable[r.def.id], k, r)
          && (!r.dirty ==> s.durable[r.def.id] == Capture(k, r)))
  }

  // Rows belong to known identities; a row that was never live is the zero row; what was
  // captured was live; what was persisted is not newer than its row.
  ghost predicate RowsSafe(s: System) {
    && (forall id :: id in s.durable ==> s.durable[id].ruleId == id)
    && Ids(s.durable) <= s.known
    && (forall p, q :: p in s.known && q in s.known && p.1 == q.1 && p.2 == q.2 ==> p == q)
    && (forall id :: id in s.w.seen ==> id in s.known)
    && (forall id :: id in s.durable && IdOf(s.durable[id]) in s.w.seen ==> Live(s.w.entries, IdOf(s.durable[id])))
    && (forall id :: id in s.durable && IdOf(s.durable[id]) !in s.w.seen ==>
          s.durable[id] == ZeroRow(IdOf(s.durable[id])))
    && (forall c :: c in s.captured ==> IdOf(c) in s.w.seen)
    && (forall p :: p in s.persisted ==> p in s.captured)
    && (forall p :: p in s.persisted && p.ruleId in s.durable && IdOf(s.durable[p.ruleId]) == IdOf(p) ==>
          p.version <= s.durable[p.ruleId].version)
  }

  ghost predicate RulesSafe(s: System) {
    forall k, i {:trigger s.w.entries[k][i]} :: k in s.w.entries && 0 <= i < |s.w.entries[k]| ==>
      RuleSafe(s, k, s.w.entries[k][i])
  }

  ghost predicate Safe(s: System) {
    Consistent(s.w) && RowsSafe(s) && RulesSafe(s)
  }

  lemma {:induction false} ChargedVersion(r: RuleState, ticket: seq<TicketRule>, cost: int)
    requires r.version < MAX_UINT64
    ensures var r' := ChargeAll(r, ticket, cost); r' == r || (r.version < r'.version && r'.dirty)
    decreases |ticket|
  {
    if ticket != [] {
      ChargedVersion(r, ticket[..|ticket| - 1], cost);
    }
  }

  lemma OperatedRule(w: World, e: Event, k: nat, i: nat)
    requires e.Admit? || e.Complete?
    requires k in w.entries && i < |w.entries[k]| && w.entries[k][i].version < MAX_UINT64
    ensures |StepEntries(w, e)[k]| == |w.entries[k]|
    ensures var r, r' := w.entries[k][i], StepEntries(w, e)[k][i];
            && Id(k, r') == Id(k, r)
            && (r' == r || (r.version < r'.version && r'.dirty))
  {
    if e.Complete? {
      ChargedVersion(w.entries[k][i], e.ticket.rules, e.cost);
    }
  }

  // In-place steps do not make an identity seen that was not.
  lemma InPlaceSeen(w: World, e: Event)
    requires Consistent(w) && Permitted(w, e) && !Effective(w, e)
    ensures forall id :: id in Step(w, e).seen <==> id in w.seen
    ensures forall id :: Live(w.entries, id) <==> Live(StepEntries(w, e), id)
  {
    StepInPlace(w, e);
    StepDistinct(w, e);
    StepConsistent(w, e);
    forall id | Live(w.entries, id) ensures Live(StepEntries(w, e), id) {
      var i := LiveIndex(w.entries, id);
      LiveRule(StepEntries(w, e), id.0, i);
    }
    forall id | Live(StepEntries(w, e), id) ensures Live(w.entries, id) && id in w.seen {
      var i := LiveIndex(StepEntries(w, e), id);
      LiveRule(w.entries, id.0, i);
      assert Id(id.0, w.entries[id.0][i]) in w.seen;
    }
  }

  lemma RowsInPlace(s: System, e: Event)
    requires Safe(s) && Permitted(s.w, e) && !Effective(s.w, e)
    ensures Consistent(Step(s.w, e)) && RowsSafe(s.(w := Step(s.w, e)))
  {
    StepConsistent(s.w, e);
    InPlaceSeen(s.w, e);
    RowsFollow(s, Step(s.w, e));
  }

  lemma RowsFollow(s: System, w': World)
    requires RowsSafe(s)
    requires forall id :: id in w'.seen <==> id in s.w.seen
    requires forall id :: Live(s.w.entries, id) ==> Live(w'.entries, id)
    ensures RowsSafe(s.(w := w'))
  {
  }

  lemma OperatedSafe(s: System, w': World, k: nat, r: RuleState, r': RuleState)
    requires RuleSafe(s, k, r) && Id(k, r') == Id(k, r)
    requires r' == r || (r.version < r'.version && r'.dirty)
    ensures RuleSafe(s.(w := w'), k, r')
  {
  }

  lemma SafeOperate(s: System, e: Event)
    requires Safe(s) && Allowed(s, Operate(e))
    ensures Safe(Next(s, Operate(e)))
  {
    hide RuleSafe, RowsSafe, QuotaRuns.StepEntries;
    var s' := Next(s, Operate(e));
    RowsInPlace(s, e);
    StepInPlace(s.w, e);
    forall k, i {:trigger s'.w.entries[k][i]} | k in s'.w.entries && 0 <= i < |s'.w.entries[k]|
      ensures RuleSafe(s', k, s'.w.entries[k][i])
    {
      OperatedRule(s.w, e, k, i);
      OperatedSafe(s, s'.w, k, s.w.entries[k][i], s'.w.entries[k][i]);
    }
  }

  lemma SafeCapture(s: System, k: nat, i: nat)
    requires Safe(s)
    ensures Safe(Next(s, CaptureDirty(k, i)))
  {
    var s' := Next(s, CaptureDirty(k, i));
    if s' != s {
      var c := Capture(k, s.w.entries[k][i]);
      assert IdOf(c) == Id(k, s.w.entries[k][i]);
      forall l, j {:trigger s.w.entries[l][j]} | l in s.w.entries && 0 <= j < |s.w.entries[l]|
        ensures RuleSafe(s', l, s.w.entries[l][j])
      {
        assert RuleSafe(s, l, s.w.entries[l][j]);
        if IdOf(c) == Id(l, s.w.entries[l][j]) {
          assert l == k && j == i;
        }
      }
    }
  }

  // A write that takes effect replaces the row of its own identity.
  lemma PersistedRow(s: System, p: RestoredState)
    requires RowsSafe(s) && p in s.captured
    ensures var durable := PersistSnapshot(s.durable, p);
            || durable == s.durable
            || (&& p.ruleId in s.durable && IdOf(s.durable[p.ruleId]) == IdOf(p)
                && s.durable[p.ruleId].version < p.version
                && durable == s.durable[p.ruleId := p])
  {
    var durable := PersistSnapshot(s.durable, p);
    if durable != s.durable {
      assert IdOf(s.durable[p.ruleId]) in Ids(s.durable);
    }
  }

  // A snapshot that changes nothing was no newer than its row.
  lemma RowsUnwritten(s: System, p: RestoredState)
    requires RowsSafe(s) && p in s.captured && PersistSnapshot(s.durable, p) == s.durable
    ensures RowsSafe(s.(persisted := s.persisted + {p}))
  {
    hide Live, Ids;
  }

  lemma RowsWritten(s: System, p: RestoredState, durable: map<nat, RestoredState>)
    requires RowsSafe(s) && p in s.captured
    requires p.ruleId in s.durable && IdOf(s.durable[p.ruleId]) == IdOf(p) && s.durable[p.ruleId].version < p.version
    requires durable == s.durable[p.ruleId := p]
    ensures RowsSafe(s.(durable := durable, persisted := s.persisted + {p}))
  {
    hide Live, Ids;
    assert durable.Keys == s.durable.Keys;
    SameIds(s.durable, durable);
  }

  lemma PersistedRows(s: System, p: RestoredState)
    requires RowsSafe(s) && p in s.captured
    ensures RowsSafe(Next(s, Persist(p)))
  {
    PersistedRow(s, p);
    hide PersistSnapshot, RowsSafe;
    if PersistSnapshot(s.durable, p) == s.durable {
      RowsUnwritten(s, p);
    } else {
      RowsWritten(s, p, PersistSnapshot(s.durable, p));
    }
  }

  lemma SameIds(a: map<nat, RestoredState>, b: map<nat, RestoredState>)
    requires a.Keys == b.Keys && forall id :: id in a ==> IdOf(a[id]) == IdOf(b[id])
    ensures Ids(a) == Ids(b)
  {
  }

  lemma PersistedRule(s: System, p: RestoredState, k: nat, r: RuleState)
    requires RowsSafe(s) && p in s.captured && RuleSafe(s, k, r)
    ensures RuleSafe(Next(s, Persist(p)), k, r)
  {
    PersistedRow(s, p);
  }

  lemma SafePersist(s: System, p: RestoredState)
    requires Safe(s) && p in s.captured
    ensures Safe(Next(s, Persist(p)))
  {
    PersistedRows(s, p);
    forall k, i {:trigger s.w.entries[k][i]} | k in s.w.entries && 0 <= i < |s.w.entries[k]|
      ensures RuleSafe(Next(s, Persist(p)), k, s.w.entries[k][i])
    {
      PersistedRule(s, p, k, s.w.entries[k][i]);
    }
  }

  lemma AckedRule(s: System, p: RestoredState, k: nat, r: RuleState)
    requires p in s.persisted && p in s.captured
    requires RuleSafe(s, k, r) && p.key == k
    requires p.ruleId in s.durable && IdOf(s.durable[p.ruleId]) == IdOf(p) ==>
      p.version <= s.durable[p.ruleId].version
    ensures RuleSafe(s, k, AckRule(r, p.ruleId, p.revision, p.version))
  {
    var r' := AckRule(r, p.ruleId, p.revision, p.version);
    assert Capture(k, r') == Capture(k, r) && Id(k, r') == Id(k, r);
  }

  lemma AckedRules(s: System, p: RestoredState)
    requires RowsSafe(s) && RulesSafe(s) && p in s.persisted
    ensures RulesSafe(Next(s, AckPersisted(p)))
  {
    var s' := Next(s, AckPersisted(p));
    forall k, i {:trigger s'.w.entries[k][i]} | k in s'.w.entries && 0 <= i < |s'.w.entries[k]|
      ensures RuleSafe(s', k, s'.w.entries[k][i])
    {
      var r := s.w.entries[k][i];
      assert RuleSafe(s, k, r);
      if k == p.key {
        AckedRule(s, p, k, r);
      }
      SameRows(s, s', k, s'.w.entries[k][i]);
    }
  }

  lemma SafeAck(s: System, p: RestoredState)
    requires Safe(s) && p in s.persisted
    ensures Safe(Next(s, AckPersisted(p)))
  {
    RowsInPlace(s, Ack(p.key, p.ruleId, p.revision, p.version));
    AckedRules(s, p);
  }

  lemma SameRows(s: System, s': System, k: nat, r: RuleState)
    requires RuleSafe(s, k, r)
    requires s'.known == s.known && s'.captured == s.captured && s'.durable == s.durable
    ensures RuleSafe(s', k, r)
  {
  }

  // Each row of an edit is the old row or the zero row of a new identity.
  lemma EditedRow(s: System, rules: map<nat, (nat, nat)>, id: nat)
    requires Safe(s) && Allowed(s, EditRules(rules)) && id in rules
    ensures var row := Edited(s.durable, rules)[id];
            && IdOf(row) == (rules[id].0, id, rules[id].1)
            && (|| (id in s.durable && row == s.durable[id])
                || (row == ZeroRow(IdOf(row)) && IdOf(row) !in s.known))
  {
  }

  lemma SafeEdit(s: System, rules: map<nat, (nat, nat)>)
    requires Safe(s) && Allowed(s, EditRules(rules))
    ensures Safe(Next(s, EditRules(rules)))
  {
    var s' := Next(s, EditRules(rules));
    EditKnown(s, rules);
    forall id | id in s'.durable
      ensures s'.durable[id].ruleId == id
      ensures || (id in s.durable && s'.durable[id] == s.durable[id])
              || (s'.durable[id] == ZeroRow(IdOf(s'.durable[id])) && IdOf(s'.durable[id]) !in s.known)
    {
      EditedRow(s, rules, id);
    }
    forall k, i {:trigger s.w.entries[k][i]} | k in s.w.entries && 0 <= i < |s.w.entries[k]|
      ensures RuleSafe(s', k, s.w.entries[k][i])
    {
      assert RuleSafe(s, k, s.w.entries[k][i]);
    }
  }

  lemma EditKnown(s: System, rules: map<nat, (nat, nat)>)
    requires Safe(s) && Allowed(s, EditRules(rules))
    ensures var known := Next(s, EditRules(rules)).known;
            forall p, q :: p in known && q in known && p.1 == q.1 && p.2 == q.2 ==> p == q
  {
    var s' := Next(s, EditRules(rules));
    forall p | p in s'.known
      ensures p in s.known || (p.1 in rules && p == (rules[p.1].0, p.1, rules[p.1].1)
                               && forall q :: q in s.known ==> !(q.1 == p.1 && q.2 == p.2))
    {
      if p !in s.known {
        var id :| id in s'.durable && IdOf(s'.durable[id]) == p;
        assert p == (rules[id].0, id, rules[id].1);
        if id in s.durable {
          assert IdOf(s.durable[id]) in Ids(s.durable);
        }
      }
    }
  }

  // `next` holds exactly the rules of `defs`.
  ghost predicate Holds(next: Entries, defs: Definitions) {
    && (forall k :: k in next ==> DistinctIds(next[k]))
    && (forall k, r :: k in next && r in next[k] ==> k in defs && r.def in defs[k])
    && (forall k, def :: k in defs && def in defs[k] ==>
          k in next && exists i :: 0 <= i < |next[k]| && next[k][i].def == def)
  }

  lemma HoldsOf(next: Entries, sorted: Definitions, defs: Definitions)
    requires next.Keys == sorted.Keys
    requires forall k :: k in sorted ==> |next[k]| == |sorted[k]| && DistinctIds(next[k])
    requires forall k, i {:trigger next[k][i]} :: k in sorted && 0 <= i < |sorted[k]| ==>
      next[k][i].def == sorted[k][i]
    requires forall k, def :: k in sorted && def in sorted[k] ==> k in defs && def in defs[k]
    requires forall k, def :: k in defs && def in defs[k] ==> k in sorted && def in sorted[k]
    ensures Holds(next, defs)
  {
    forall k, r | k in next && r in next[k] ensures k in defs && r.def in defs[k] {
      var i :| 0 <= i < |next[k]| && next[k][i] == r;
      assert next[k][i].def == sorted[k][i];
      assert r.def in sorted[k];
    }
    forall k, def | k in defs && def in defs[k]
      ensures k in next && exists i :: 0 <= i < |next[k]| && next[k][i].def == def
    {
      var i :| 0 <= i < |sorted[k]| && sorted[k][i] == def;
      assert next[k][i].def == def;
    }
  }

  lemma NormalizeKeeps(defs: Definitions)
    ensures forall k, def :: k in defs && def in defs[k] ==>
      k in Normalize(defs) && def in Normalize(defs)[k]
  {
    forall k, def | k in defs && def in defs[k]
      ensures k in Normalize(defs) && def in Normalize(defs)[k]
    {
      var d :| 0 <= d < |defs[k]| && defs[k][d] == def;
      var i := SortedIndex(defs[k], d);
      assert Normalize(defs)[k] == SortRules(defs[k]);
      assert Normalize(defs)[k][i] == defs[k][d];
    }
  }

  lemma ReconciledHolds(w: World, defs: Definitions)
    requires Effective(w, Reconfigure(defs))
    ensures Holds(Reconcile(w.entries, defs), defs)
  {
    ReconfiguredDistinct(w.entries, defs);
    NormalizeKeeps(defs);
    NormalizeAddsNothing(defs);
    ReconciledShape(w.entries, Normalize(defs));
    hide QuotaModel.Normalize, QuotaModel.Reconciled, Holds, QuotaModel.ValidDefinitions;
    HoldsOf(Reconcile(w.entries, defs), Normalize(defs), defs);
  }

  lemma NormalizeAddsNothing(defs: Definitions)
    requires ValidDefinitions(defs)
    ensures forall k, def :: k in Normalize(defs) && def in Normalize(defs)[k] ==> k in defs && def in defs[k]
  {
    NormalizedRules(defs);
    forall k, def | k in Normalize(defs) && def in Normalize(defs)[k] ensures k in defs && def in defs[k] {
      var i :| 0 <= i < |Normalize(defs)[k]| && Normalize(defs)[k][i] == def;
    }
  }

  lemma ReconciledShape(entries: Entries, defs: Definitions)
    ensures Reconciled(entries, defs).Keys == defs.Keys
    ensures forall k :: k in defs ==> |Reconciled(entries, defs)[k]| == |defs[k]|
    ensures forall k, i {:trigger Reconciled(entries, defs)[k][i]} :: k in defs && 0 <= i < |defs[k]| ==>
      Reconciled(entries, defs)[k][i].def == defs[k][i]
  {
  }

  // After a reload, an identity is live exactly when the database holds it.
  lemma LiveFromRows(next: Entries, durable: map<nat, RestoredState>, defs: Definitions, id: Identity)
    requires Holds(next, defs) && MatchesRows(defs, durable)
    requires Live(next, id)
    ensures id.1 in durable && IdOf(durable[id.1]) == id
  {
    var i := LiveIndex(next, id);
    assert next[id.0][i] in next[id.0];
    var d :| 0 <= d < |defs[id.0]| && defs[id.0][d] == next[id.0][i].def;
  }

  lemma RowsLive(next: Entries, durable: map<nat, RestoredState>, defs: Definitions, id: nat)
    requires Holds(next, defs) && MatchesRows(defs, durable)
    requires id in durable
    ensures Live(next, IdOf(durable[id]))
  {
    var k, d :| k in defs && 0 <= d < |defs[k]| && defs[k][d].id == id;
    assert defs[k][d] in defs[k];
    var i :| 0 <= i < |next[k]| && next[k][i].def == defs[k][d];
    LiveRule(next, k, i);
  }

  lemma ReloadPermitted(s: System, defs: Definitions)
    requires Safe(s) && Allowed(s, Reload(defs))
    ensures Permitted(s.w, Reconfigure(defs))
  {
  }

  lemma SortedIndex(rules: seq<Rule>, d: nat) returns (i: nat)
    requires d < |rules|
    ensures i < |SortRules(rules)| && SortRules(rules)[i] == rules[d]
  {
    assert rules[d] in multiset(rules);
    assert rules[d] in multiset(SortRules(rules));
    i :| 0 <= i < |SortRules(rules)| && SortRules(rules)[i] == rules[d];
  }

  lemma CarriedRule(s: System, def: Rule, k: nat)
    requires Safe(s) && def.id in s.durable && IdOf(s.durable[def.id]) == (k, def.id, def.revision)
    ensures RuleSafe(s, k, Carry(def, RulesOf(s.w.entries, k)))
  {
    var r := Carry(def, RulesOf(s.w.entries, k));
    var row := s.durable[def.id];
    assert IdOf(row) in Ids(s.durable);
    if Live(s.w.entries, Id(k, r)) {
      var j := LiveIndex(s.w.entries, Id(k, r));
      assert RuleSafe(s, k, s.w.entries[k][j]);
    } else {
      assert r == Fresh(def);
      assert row == ZeroRow(Id(k, r));
    }
  }

  lemma ReloadedRule(s: System, s': System, defs: Definitions, k: nat, i: nat)
    requires Safe(s) && Allowed(s, Reload(defs))
    requires s'.known == s.known && s'.captured == s.captured && s'.durable == s.durable
    requires var next := Reconcile(s.w.entries, defs); k in next && i < |next[k]|
    ensures RuleSafe(s', k, Reconcile(s.w.entries, defs)[k][i])
  {
    var d := Reconfigured(s.w, defs, k, i);
    CarriedRule(s, defs[k][d], k);
    SameRows(s, s', k, Reconcile(s.w.entries, defs)[k][i]);
  }

  lemma NewlySeen(seen: map<Identity, nat>, entries: Entries, id: Identity)
    requires id in Remember(seen, entries) && id !in seen
    ensures Live(entries, id)
  {
  }

  lemma SeenAfterReload(s: System, w': World, defs: Definitions)
    requires RowsSafe(s) && MatchesRows(defs, s.durable) && Holds(w'.entries, defs)
    requires w'.seen == Remember(s.w.seen, w'.entries)
    requires forall k, i {:trigger w'.entries[k][i]} :: k in w'.entries && 0 <= i < |w'.entries[k]| ==>
      Id(k, w'.entries[k][i]) in w'.seen
    ensures forall id :: id in w'.seen ==> id in s.known
    ensures forall id :: id in s.durable ==>
      IdOf(s.durable[id]) in w'.seen && Live(w'.entries, IdOf(s.durable[id]))
  {
    forall id | id in w'.seen && id !in s.w.seen ensures id in s.known {
      NewlySeen(s.w.seen, w'.entries, id);
      LiveFromRows(w'.entries, s.durable, defs, id);
      assert IdOf(s.durable[id.1]) in Ids(s.durable);
    }
    forall id | id in s.durable
      ensures IdOf(s.durable[id]) in w'.seen && Live(w'.entries, IdOf(s.durable[id]))
    {
      RowsLive(w'.entries, s.durable, defs, id);
      var j := LiveIndex(w'.entries, IdOf(s.durable[id]));
      assert Id(s.durable[id].key, w'.entries[s.durable[id].key][j]) in w'.seen;
    }
  }

  lemma RowsReload(s: System, w': World)
    requires RowsSafe(s)
    requires forall id :: id in s.w.seen ==> id in w'.seen
    requires forall id :: id in w'.seen ==> id in s.known
    requires forall id :: id in s.durable ==>
      IdOf(s.durable[id]) in w'.seen && Live(w'.entries, IdOf(s.durable[id]))
    ensures RowsSafe(s.(w := w'))
  {
  }

  lemma SafeReload(s: System, defs: Definitions)
    requires Safe(s) && Allowed(s, Reload(defs))
    ensures Safe(Next(s, Reload(defs)))
  {
    var s' := Next(s, Reload(defs));
    ReloadPermitted(s, defs);
    StepConsistent(s.w, Reconfigure(defs));
    ReconciledHolds(s.w, defs);
    SeenAfterReload(s, s'.w, defs);
    RowsReload(s, s'.w);
    forall k, i {:trigger s'.w.entries[k][i]} | k in s'.w.entries && 0 <= i < |s'.w.entries[k]|
      ensures RuleSafe(s', k, s'.w.entries[k][i])
    {
      ReloadedRule(s, s', defs, k, i);
    }
  }

  function Moves(s: System, ms: seq<Move>): System
    decreases |ms|
  {
    if ms == [] then s else Next(Moves(s, ms[..|ms| - 1]), ms[|ms| - 1])
  }

  ghost predicate AllowedMoves(s: System, ms: seq<Move>)
    decreases |ms|
  {
    ms != [] ==> AllowedMoves(s, ms[..|ms| - 1]) && Allowed(Moves(s, ms[..|ms| - 1]), ms[|ms| - 1])
  }

  lemma SafeMove(s: System, m: Move)
    requires Safe(s) && Allowed(s, m)
    ensures Safe(Next(s, m))
  {
    match m {
      case Operate(e) => SafeOperate(s, e);
      case CaptureDirty(k, i) => SafeCapture(s, k, i);
      case Persist(p) => SafePersist(s, p);
      case AckPersisted(p) => SafeAck(s, p);
      case EditRules(rules) => SafeEdit(s, rules);
      case Reload(defs) => SafeReload(s, defs);
    }
  }

  /** In every interleaving of requests, captures, writes, acknowledgements, rule edits and
      reloads, a rule that is not dirty equals its durable row. */
  lemma {:induction false} CheckpointLossless(s: System, ms: seq<Move>)
    requires Safe(s) && AllowedMoves(s, ms)
    ensures Safe(Moves(s, ms))
    ensures var t := Moves(s, ms);
            forall k, i {:trigger t.w.entries[k][i]} :: k in t.w.entries && 0 <= i < |t.w.entries[k]|
              && !t.w.entries[k][i].dirty
              && t.w.entries[k][i].def.id in t.durable
              && IdOf(t.durable[t.w.entries[k][i].def.id]) == Id(k, t.w.entries[k][i])
              ==> t.durable[t.w.entries[k][i].def.id] == Capture(k, t.w.entries[k][i])
    decreases |ms|
  {
    if ms != [] {
      CheckpointLossless(s, ms[..|ms| - 1]);
      SafeMove(Moves(s, ms[..|ms| - 1]), ms[|ms| - 1]);
    }
    var t := Moves(s, ms);
    forall k, i {:trigger t.w.entries[k][i]} | k in t.w.entries && 0 <= i < |t.w.entries[k]|
      ensures RuleSafe(t, k, t.w.entries[k][i])
    {
    }
  }

  // Nothing is dirty and the database holds exactly the live rules.
  ghost predicate Settled(s: System) {
    && (forall k, i {:trigger s.w.entries[k][i]} :: k in s.w.entries && 0 <= i < |s.w.entries[k]| ==>
          && !s.w.entries[k][i].dirty
          && s.w.entries[k][i].def.id in s.durable
          && IdOf(s.durable[s.w.entries[k][i].def.id]) == Id(k, s.w.entries[k][i]))
    && (forall id :: id in s.durable ==> Live(s.w.entries, IdOf(s.durable[id])))
  }

  lemma SettledCaptures(s: System)
    requires RulesSafe(s) && Settled(s) && (forall id :: id in s.durable ==> s.durable[id].ruleId == id)
    ensures Captures(s.durable, s.w.entries)
  {
    var entries: Entries := s.w.entries;
    forall k, i {:trigger entries[k][i]} | k in entries && 0 <= i < |entries[k]|
      ensures s.durable[entries[k][i].def.id] == Capture(k, entries[k][i])
    {
      assert RuleSafe(s, k, entries[k][i]);
    }
    forall id | id in s.durable
      ensures exists k, i :: k in entries && 0 <= i < |entries[k]| && entries[k][i].def.id == id
    {
      var i := LiveIndex(entries, IdOf(s.durable[id]));
    }
  }

  lemma CleanAlready(entries: Entries)
    requires forall k, i {:trigger entries[k][i]} :: k in entries && 0 <= i < |entries[k]| ==> !entries[k][i].dirty
    ensures CleanEntries(entries) == entries
  {
    forall k | k in entries ensures Clean(entries[k]) == entries[k] {
      forall i | 0 <= i < |entries[k]| ensures Clean(entries[k])[i] == entries[k][i] {
        assert !entries[k][i].dirty;
      }
    }
  }

  /** A restart when nothing is dirty and the rules are loaded loses nothing. */
  lemma CleanRestart(s: System)
    requires Safe(s) && WellFormedEntries(s.w.entries) && Settled(s)
    ensures RestoredEntries(DefinitionsOf(s.w.entries), s.durable) == Some(s.w.entries)
  {
    hide QuotaModel.RestoredEntries, QuotaModel.WellFormedEntries, QuotaRuns.Consistent;
    SettledCaptures(s);
    RestoreRoundTrip(s.w.entries, s.durable);
    CleanAlready(s.w.entries);
  }
}
