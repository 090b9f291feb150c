/**
  Values and step functions of the access-key cost-limit runtime.

  An access key owns a list of rules. A total rule counts for ever; a periodic rule
  counts inside a window that an admission opens, numbered by a generation. Times are
  integer milliseconds, money is int64 nano-USD, counters are uint64 that stop at their
  maximum.
*/
module QuotaModel {
  import opened Wrappers

  const MAX_INT64: int := 0x7FFF_FFFF_FFFF_FFFF
  const MAX_UINT64: nat := 0xFFFF_FFFF_FFFF_FFFF
  const MIN_PERIOD_SECONDS: int := 60
  const MAX_PERIOD_SECONDS: int := 31_536_000
  const MAX_PERIODIC_RULES: nat := 10

  datatype Kind = Total | Periodic | Other(name: string)

  datatype Rule = Rule(id: nat, revision: nat, kind: Kind, limit: int, period: int)

  datatype RuleState = RuleState(
    def: Rule, used: int, startedAt: Option<int>, endsAt: Option<int>,
    generation: nat, version: nat, dirty: bool)

  datatype RestoredState = RestoredState(
    key: nat, ruleId: nat, revision: nat, used: int,
    startedAt: Option<int>, endsAt: Option<int>, generation: nat, version: nat)

  datatype TicketRule = TicketRule(ruleId: nat, revision: nat, generation: nat)

  datatype Ticket = Ticket(key: nat, rules: seq<TicketRule>)

  type Definitions = map<nat, seq<Rule>>

  type Entries = map<nat, seq<RuleState>>

  // ---- one rule -------------------------------------------------------------------

  function Advance(counter: nat): nat {
    if counter < MAX_UINT64 then counter + 1 else counter
  }

  function Touch(r: RuleState): RuleState {
    r.(version := Advance(r.version), dirty := true)
  }

  function Fresh(def: Rule): RuleState {
    RuleState(def, 0, None, None, 0, 1, false)
  }

  predicate Inactive(r: RuleState, now: int) {
    r.startedAt.None? || r.endsAt.None? || now >= r.endsAt.value
  }

  predicate Exhausted(r: RuleState, now: int) {
    !(r.def.kind.Periodic? && Inactive(r, now)) && r.used >= r.def.limit
  }

  function OpenWindow(r: RuleState, now: int): RuleState {
    if r.def.kind.Periodic? && Inactive(r, now) then
      Touch(r.(startedAt := Some(now), endsAt := Some(now + r.def.period * 1000),
               used := 0, generation := Advance(r.generation)))
    else
      r
  }

  // A negative estimate saturates the counter.
  function SaturatingAdd(used: int, cost: int): int {
    if cost < 0 then MAX_INT64
    else if cost == 0 then used
    else if used > MAX_INT64 - cost then MAX_INT64
    else used + cost
  }

  predicate Matches(r: RuleState, t: TicketRule) {
    && r.def.id == t.ruleId
    && r.def.revision == t.revision
    && (r.def.kind.Periodic? ==> r.generation == t.generation)
  }

  function Charge(r: RuleState, cost: int): RuleState {
    var used := SaturatingAdd(r.used, cost);
    if used == r.used then r else Touch(r.(used := used))
  }

  // The ticket's rules are charged in ticket order.
  function ChargeAll(r: RuleState, ticket: seq<TicketRule>, cost: int): (r': RuleState)
    ensures r'.def == r.def && r'.generation == r.generation
    ensures r'.startedAt == r.startedAt && r'.endsAt == r.endsAt
    decreases |ticket|
  {
    if ticket == [] then r
    else
      var before := ChargeAll(r, ticket[..|ticket| - 1], cost);
      if Matches(before, ticket[|ticket| - 1]) then Charge(before, cost) else before
  }

  function AckRule(r: RuleState, ruleId: nat, revision: nat, version: nat): RuleState {
    if r.def.id == ruleId && r.def.revision == revision && r.version == version
    then r.(dirty := false) else r
  }

  // ---- one access key -------------------------------------------------------------

  predicate Blocked(rules: seq<RuleState>, now: int) {
    exists i :: 0 <= i < |rules| && Exhausted(rules[i], now)
  }

  function TicketRuleOf(r: RuleState): TicketRule {
    TicketRule(r.def.id, r.def.revision, r.generation)
  }

  function OpenAll(rules: seq<RuleState>, now: int): seq<RuleState> {
    seq(|rules|, i requires 0 <= i < |rules| => OpenWindow(rules[i], now))
  }

  function TicketRules(rules: seq<RuleState>): seq<TicketRule> {
    seq(|rules|, i requires 0 <= i < |rules| => TicketRuleOf(rules[i]))
  }

  function AdmitRules(rules: seq<RuleState>, now: int): seq<RuleState> {
    if Blocked(rules, now) then rules else OpenAll(rules, now)
  }

  function AdmitTicket(key: nat, rules: seq<RuleState>, now: int): Ticket {
    if Blocked(rules, now) then Ticket(key, []) else Ticket(key, TicketRules(OpenAll(rules, now)))
  }

  function CompleteRules(rules: seq<RuleState>, ticket: seq<TicketRule>, cost: int): seq<RuleState> {
    seq(|rules|, i requires 0 <= i < |rules| => ChargeAll(rules[i], ticket, cost))
  }

  function AckRules(rules: seq<RuleState>, ruleId: nat, revision: nat, version: nat): seq<RuleState> {
    seq(|rules|, i requires 0 <= i < |rules| => AckRule(rules[i], ruleId, revision, version))
  }

  // ---- the whole runtime ----------------------------------------------------------

  function AdmitEntries(entries: Entries, key: nat, now: int): Entries {
    if key in entries then entries[key := AdmitRules(entries[key], now)] else entries
  }

  function CompleteEntries(entries: Entries, ticket: Ticket, cost: int): Entries {
    if ticket.key in entries
    then entries[ticket.key := CompleteRules(entries[ticket.key], ticket.rules, cost)] else entries
  }

  function AckEntries(entries: Entries, key: nat, ruleId: nat, revision: nat, version: nat): Entries {
    if key in entries then entries[key := AckRules(entries[key], ruleId, revision, version)] else entries
  }

  predicate DistinctIds(rules: seq<RuleState>) {
    forall i, j :: 0 <= i < j < |rules| ==> rules[i].def.id != rules[j].def.id
  }

  function Find(rules: seq<RuleState>, id: nat): (r: Option<RuleState>)
    ensures r.Some? ==> r.value in rules && r.value.def.id == id
    ensures r.None? ==> forall i :: 0 <= i < |rules| ==> rules[i].def.id != id
  {
    if rules == [] then None
    else if rules[0].def.id == id then Some(rules[0])
    else Find(rules[1..], id)
  }

  lemma FindIsThatRule(rules: seq<RuleState>, i: nat)
    requires DistinctIds(rules)
    requires i < |rules|
    ensures Find(rules, rules[i].def.id) == Some(rules[i])
  {
  }

  // ---- reconfiguration ------------------------------------------------------------

  predicate ValidRule(r: Rule) {
    && r.id != 0 && r.revision != 0 && r.limit > 0
    && match r.kind
       case Total => r.period == 0
       case Periodic => MIN_PERIOD_SECONDS <= r.period <= MAX_PERIOD_SECONDS
       case Other(_) => false
  }

  function CountTotal(rules: seq<Rule>): nat {
    if rules == [] then 0
    else CountTotal(rules[..|rules| - 1]) + (if rules[|rules| - 1].kind.Total? then 1 else 0)
  }

  function CountPeriodic(rules: seq<Rule>): nat {
    if rules == [] then 0
    else CountPeriodic(rules[..|rules| - 1]) + (if rules[|rules| - 1].kind.Periodic? then 1 else 0)
  }

  predicate DistinctPeriods(rules: seq<Rule>) {
    forall i, j :: 0 <= i < j < |rules| && rules[i].kind.Periodic? && rules[j].kind.Periodic?
      ==> rules[i].period != rules[j].period
  }

  predicate DistinctRuleIds(rules: seq<Rule>) {
    forall i, j :: 0 <= i < j < |rules| ==> rules[i].id != rules[j].id
  }

  predicate ValidRules(rules: seq<Rule>) {
    && (forall i :: 0 <= i < |rules| ==> ValidRule(rules[i]))
    && DistinctRuleIds(rules)
    && DistinctPeriods(rules)
    && CountTotal(rules) <= 1
    && CountPeriodic(rules) <= MAX_PERIODIC_RULES
  }

  predicate Disjoint(a: seq<Rule>, b: seq<Rule>) {
    forall i, j :: 0 <= i < |a| && 0 <= j < |b| ==> a[i].id != b[j].id
  }

  predicate ValidDefinitions(defs: Definitions) {
    && (forall k :: k in defs ==> k != 0 && ValidRules(defs[k]))
    && (forall k, l :: k in defs && l in defs && k != l ==> Disjoint(defs[k], defs[l]))
  }

  // Total first, then by period, then by ID.
  predicate RuleBefore(a: Rule, b: Rule) {
    if a.kind != b.kind then a.kind.Total?
    else if a.period != b.period then a.period < b.period
    else a.id < b.id
  }

  function InsertRule(r: Rule, rules: seq<Rule>): (s: seq<Rule>)
    ensures multiset(s) == multiset(rules) + multiset{r}
  {
    if rules == [] then [r]
    else if RuleBefore(r, rules[0]) then
      assert [r] + rules == [r] + rules[..];
      [r] + rules
    else
      assert rules == [rules[0]] + rules[1..];
      [rules[0]] + InsertRule(r, rules[1..])
  }

  function SortRules(rules: seq<Rule>): (s: seq<Rule>)
    ensures multiset(s) == multiset(rules)
  {
    if rules == [] then []
    else
      assert rules == [rules[0]] + rules[1..];
      InsertRule(rules[0], SortRules(rules[1..]))
  }

  // Keys without rules are dropped; the rest are sorted.
  function Normalize(defs: Definitions): Definitions {
    map k | k in defs && defs[k] != [] :: SortRules(defs[k])
  }

  // The live state of (ID, revision) is carried over under the new definition.
  function Carry(def: Rule, prev: seq<RuleState>): RuleState {
    var p := Find(prev, def.id);
    if p.Some? && p.value.def.revision == def.revision then p.value.(def := def) else Fresh(def)
  }

  predicate Conflicts(def: Rule, prev: seq<RuleState>) {
    var p := Find(prev, def.id);
    && p.Some?
    && p.value.def.revision == def.revision
    && (p.value.def.kind != def.kind || p.value.def.period != def.period)
  }

  function RulesOf(entries: Entries, key: nat): seq<RuleState> {
    if key in entries then entries[key] else []
  }

  function CarryAll(defs: seq<Rule>, prev: seq<RuleState>): seq<RuleState> {
    seq(|defs|, i requires 0 <= i < |defs| => Carry(defs[i], prev))
  }

  predicate Compatible(defs: seq<Rule>, prev: seq<RuleState>) {
    forall i :: 0 <= i < |defs| ==> !Conflicts(defs[i], prev)
  }

  predicate ReconcileConflict(entries: Entries, defs: Definitions) {
    exists k :: k in defs && !Compatible(defs[k], RulesOf(entries, k))
  }

  // `defs` is already normalised.
  function Reconciled(entries: Entries, defs: Definitions): Entries {
    map k | k in defs :: CarryAll(defs[k], RulesOf(entries, k))
  }

  function Reconcile(entries: Entries, defs: Definitions): Entries {
    if !ValidDefinitions(defs) || ReconcileConflict(entries, Normalize(defs)) then entries
    else Reconciled(entries, Normalize(defs))
  }

  // ---- restore --------------------------------------------------------------------

  predicate ValidRestored(s: RestoredState) {
    && s.key != 0 && s.ruleId != 0 && s.revision != 0 && s.used >= 0 && s.version != 0
    && (s.startedAt.None? <==> s.endsAt.None?)
    && (s.startedAt.Some? ==> 0 <= s.startedAt.value < s.endsAt.value)
  }

  // What a window of this rule may look like when it is read back.
  predicate Applicable(def: Rule, s: RestoredState)
    requires ValidRestored(s)
  {
    if def.kind.Total? then s.startedAt.None? && s.generation == 0
    else if s.startedAt.None? then s.used == 0 && s.generation == 0
    else s.generation != 0 && s.endsAt.value - s.startedAt.value == def.period * 1000
  }

  function Applied(def: Rule, s: RestoredState): RuleState {
    RuleState(def, s.used, s.startedAt, s.endsAt, s.generation, s.version, false)
  }

  function Capture(key: nat, r: RuleState): RestoredState {
    RestoredState(key, r.def.id, r.def.revision, r.used, r.startedAt, r.endsAt, r.generation, r.version)
  }

  // The states handed to restore, by rule; none if one is invalid or a rule appears twice.
  function RestoreMap(states: seq<RestoredState>): Option<map<nat, RestoredState>> {
    if states == [] then Some(map[])
    else
      var before := RestoreMap(states[..|states| - 1]);
      var s := states[|states| - 1];
      if before.None? || !ValidRestored(s) || s.ruleId in before.value then None
      else Some(before.value[s.ruleId := s])
  }

  predicate Restorable(restored: map<nat, RestoredState>, k: nat, def: Rule) {
    && def.id in restored
    && restored[def.id].key == k
    && restored[def.id].revision == def.revision
    && ValidRestored(restored[def.id])
    && Applicable(def, restored[def.id])
  }

  predicate Owned(defs: Definitions, id: nat) {
    exists k, i :: k in defs && 0 <= i < |defs[k]| && defs[k][i].id == id
  }

  predicate AllRestorable(restored: map<nat, RestoredState>, k: nat, defs: seq<Rule>) {
    forall i :: 0 <= i < |defs| ==> Restorable(restored, k, defs[i])
  }

  function RestoredRule(restored: map<nat, RestoredState>, def: Rule): RuleState {
    if def.id in restored then Applied(def, restored[def.id]) else Fresh(def)
  }

  function RestoredRules(restored: map<nat, RestoredState>, defs: seq<Rule>): seq<RuleState> {
    seq(|defs|, i requires 0 <= i < |defs| => RestoredRule(restored, defs[i]))
  }

  function AllRestored(defs: Definitions, restored: map<nat, RestoredState>): Entries {
    map k | k in defs :: RestoredRules(restored, defs[k])
  }

  // The first reconfiguration after a restore: every rule has its state, no state is left over.
  function RestoredEntries(defs: Definitions, restored: map<nat, RestoredState>): Option<Entries> {
    if (forall k :: k in defs ==> AllRestorable(restored, k, defs[k]))
       && (forall id :: id in restored ==> Owned(defs, id))
    then Some(AllRestored(defs, restored))
    else None
  }

  // ---- well-formed live state -----------------------------------------------------

  predicate WellFormed(r: RuleState) {
    && ValidRule(r.def)
    && 0 <= r.used <= MAX_INT64
    && 1 <= r.version
    && if r.def.kind.Total? then r.startedAt.None? && r.endsAt.None? && r.generation == 0
       else if r.startedAt.None? then r.endsAt.None? && r.used == 0 && r.generation == 0
       else
         && r.endsAt.Some? && 1 <= r.generation && 0 <= r.startedAt.value
         && r.endsAt.value == r.startedAt.value + r.def.period * 1000
  }

  predicate WellFormedEntries(entries: Entries) {
    && (forall k :: k in entries ==> k != 0 && DistinctIds(entries[k]))
    && (forall k, i :: k in entries && 0 <= i < |entries[k]| ==> WellFormed(entries[k][i]))
  }
}
