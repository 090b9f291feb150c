/**
  Runs of the cost-limit runtime: any sequence of admissions, completions, checkpoint
  acknowledgements and reconfigurations, in which completions carry tickets that were
  issued and a retired (key, rule, revision) is never brought back.
*/
module QuotaRuns {
  import opened Wrappers
  import opened QuotaModel

  type Identity = (nat, nat, nat)

  datatype Event =
    | Admit(key: nat, now: int)
    | Complete(ticket: Ticket, cost: int)
    | Ack(key: nat, ruleId: nat, revision: nat, version: nat)
    | Reconfigure(defs: Definitions)

  // `seen` records every identity that was ever live with its highest generation.
  datatype World = World(entries: Entries, issued: set<Ticket>, seen: map<Identity, nat>)

  function Id(key: nat, r: RuleState): Identity { (key, r.def.id, r.def.revision) }

  predicate Live(entries: Entries, id: Identity) {
    var p := Find(RulesOf(entries, id.0), id.1);
    p.Some? && p.value.def.revision == id.2
  }

  function GenerationOf(entries: Entries, id: Identity): nat
    requires Live(entries, id)
  {
    Find(RulesOf(entries, id.0), id.1).value.generation
  }

  function LiveIds(entries: Entries): (s: set<Identity>)
    ensures forall k, i :: k in entries && 0 <= i < |entries[k]| ==> Id(k, entries[k][i]) in s
  {
    set k, i | k in entries && 0 <= i < |entries[k]| :: Id(k, entries[k][i])
  }

  function Remember(seen: map<Identity, nat>, entries: Entries): map<Identity, nat> {
    seen + map id | id in LiveIds(entries) && Live(entries, id) :: GenerationOf(entries, id)
  }

  function TicketFor(w: World, key: nat, now: int): Ticket {
    if key in w.entries then AdmitTicket(key, w.entries[key], now) else Ticket(key, [])
  }

  function StepEntries(w: World, e: Event): Entries {
    match e
    case Admit(key, now) => AdmitEntries(w.entries, key, now)
    case Complete(t, cost) => CompleteEntries(w.entries, t, cost)
    case Ack(key, ruleId, revision, version) => AckEntries(w.entries, key, ruleId, revision, version)
    case Reconfigure(defs) => Reconcile(w.entries, defs)
  }

  function Step(w: World, e: Event): World {
    var entries := StepEntries(w, e);
    World(entries,
          if e.Admit? then w.issued + {TicketFor(w, e.key, e.now)} else w.issued,
          Remember(w.seen, entries))
  }

  function Run(w: World, es: seq<Event>): World
    decreases |es|
  {
    if es == [] then w else Step(Run(w, es[..|es| - 1]), es[|es| - 1])
  }

  lemma SplitLast(es: seq<Event>)
    requires es != []
    ensures es == es[..|es| - 1] + [es[|es| - 1]]
  {
  }

  predicate Permitted(w: World, e: Event) {
    match e
    case Complete(t, _) => t in w.issued
    case Reconfigure(defs) =>
      forall k, i {:trigger defs[k][i]} :: k in defs && 0 <= i < |defs[k]| ==>
        ((k, defs[k][i].id, defs[k][i].revision) in w.seen
         ==> Live(w.entries, (k, defs[k][i].id, defs[k][i].revision)))
    case _ => true
  }

  predicate PermittedRun(w: World, es: seq<Event>)
    decreases |es|
  {
    es != [] ==>
      && PermittedRun(w, es[..|es| - 1])
      && Permitted(Run(w, es[..|es| - 1]), es[|es| - 1])
  }

  // Tickets name only identities and generations that were seen.
  ghost predicate TicketSeen(t: Ticket, seen: map<Identity, nat>) {
    forall j {:trigger t.rules[j]} :: 0 <= j < |t.rules| ==>
      && (t.key, t.rules[j].ruleId, t.rules[j].revision) in seen
      && t.rules[j].generation <= seen[(t.key, t.rules[j].ruleId, t.rules[j].revision)]
  }

  ghost predicate Consistent(w: World) {
    && (forall k :: k in w.entries ==> DistinctIds(w.entries[k]))
    && (forall k, i {:trigger w.entries[k][i]} :: k in w.entries && 0 <= i < |w.entries[k]| ==>
          && 0 <= w.entries[k][i].used <= MAX_INT64
          && Id(k, w.entries[k][i]) in w.seen
          && w.seen[Id(k, w.entries[k][i])] == w.entries[k][i].generation)
    && (forall t :: t in w.issued ==> TicketSeen(t, w.seen))
  }

  lemma LiveRule(entries: Entries, k: nat, i: nat)
    requires k in entries && i < |entries[k]| && DistinctIds(entries[k])
    ensures Live(entries, Id(k, entries[k][i]))
    ensures Find(RulesOf(entries, k), entries[k][i].def.id) == Some(entries[k][i])
  {
    FindIsThatRule(entries[k], i);
  }

  lemma LiveIndex(entries: Entries, id: Identity) returns (i: nat)
    requires Live(entries, id)
    ensures id.0 in entries && i < |entries[id.0]| && Id(id.0, entries[id.0][i]) == id
    ensures Find(RulesOf(entries, id.0), id.1) == Some(entries[id.0][i])
  {
    var p := Find(RulesOf(entries, id.0), id.1).value;
    i :| 0 <= i < |entries[id.0]| && entries[id.0][i] == p;
  }

  // ---- consistency is kept by every step ------------------------------------------

  lemma RememberLive(seen: map<Identity, nat>, entries: Entries)
    requires forall k :: k in entries ==> DistinctIds(entries[k])
    ensures forall k, i {:trigger entries[k][i]} :: k in entries && 0 <= i < |entries[k]| ==>
      && Id(k, entries[k][i]) in Remember(seen, entries)
      && Remember(seen, entries)[Id(k, entries[k][i])] == entries[k][i].generation
  {
    forall k, i {:trigger entries[k][i]} | k in entries && 0 <= i < |entries[k]|
      ensures Id(k, entries[k][i]) in Remember(seen, entries)
      ensures Remember(seen, entries)[Id(k, entries[k][i])] == entries[k][i].generation
    {
      LiveRule(entries, k, i);
    }
  }

  // What one step may do to an identity that stays live.
  ghost predicate Grows(w: World, entries: Entries) {
    forall id: Identity :: Live(entries, id) && id in w.seen ==>
      Live(w.entries, id) && GenerationOf(w.entries, id) <= GenerationOf(entries, id)
  }

  lemma SortKeeps(rules: seq<Rule>)
    requires DistinctRuleIds(rules)
    ensures DistinctRuleIds(SortRules(rules))
    ensures forall i :: 0 <= i < |SortRules(rules)| ==> SortRules(rules)[i] in rules
    ensures |SortRules(rules)| == |rules|
  {
    var s := SortRules(rules);
    assert |multiset(s)| == |multiset(rules)|;
    forall i | 0 <= i < |s| ensures s[i] in rules {
      assert s[i] in multiset(s);
    }
    if !DistinctRuleIds(s) {
      var i, j :| 0 <= i < j < |s| && s[i].id == s[j].id;
      SameIdSameRule(rules, s[i], s[j]);
      TwoIndicesMeanTwice(s, i, j);
      TwiceMeansTwoIndices(rules, s[i]);
    }
  }

  lemma TwoIndicesMeanTwice(s: seq<Rule>, i: nat, j: nat)
    requires i < j < |s| && s[i] == s[j]
    ensures multiset(s)[s[i]] >= 2
  {
    assert s == s[..j] + s[j..];
    assert s[i] in s[..j] && s[i] in s[j..] by {
      assert s[..j][i] == s[i] && s[j..][0] == s[j];
    }
  }

  lemma SameIdSameRule(rules: seq<Rule>, a: Rule, b: Rule)
    requires DistinctRuleIds(rules) && a in rules && b in rules && a.id == b.id
    ensures a == b
  {
  }

  lemma {:induction false} TwiceMeansTwoIndices(rules: seq<Rule>, r: Rule)
    requires multiset(rules)[r] >= 2
    ensures exists i, j :: 0 <= i < j < |rules| && rules[i] == r && rules[j] == r
  {
    var init, last := rules[..|rules| - 1], rules[|rules| - 1];
    assert rules == init + [last];
    if multiset(init)[r] >= 2 {
      TwiceMeansTwoIndices(init, r);
      var i, j :| 0 <= i < j < |init| && init[i] == r && init[j] == r;
      assert rules[i] == r && rules[j] == r;
    } else {
      assert last == r && r in multiset(init);
      var i :| 0 <= i < |init| && init[i] == r;
      assert rules[i] == r && rules[|rules| - 1] == r;
    }
  }

  lemma NormalizedRules(defs: Definitions)
    requires ValidDefinitions(defs)
    ensures forall k :: k in Normalize(defs) ==> k in defs && DistinctRuleIds(Normalize(defs)[k])
    ensures forall k, i {:trigger Normalize(defs)[k][i]} ::
      k in Normalize(defs) && 0 <= i < |Normalize(defs)[k]| ==> Normalize(defs)[k][i] in defs[k]
  {
    forall k | k in Normalize(defs)
      ensures k in defs && DistinctRuleIds(Normalize(defs)[k])
      ensures forall i :: 0 <= i < |Normalize(defs)[k]| ==> Normalize(defs)[k][i] in defs[k]
    {
      SortKeeps(defs[k]);
    }
  }

  // After a reconfiguration that took effect, each rule comes from one desired definition.
  lemma Reconfigured(w: World, defs: Definitions, key: nat, i: nat) returns (d: nat)
    requires ValidDefinitions(defs) && !ReconcileConflict(w.entries, Normalize(defs))
    requires key in Reconcile(w.entries, defs) && i < |Reconcile(w.entries, defs)[key]|
    ensures key in defs && d < |defs[key]|
    ensures Reconcile(w.entries, defs)[key][i] == Carry(defs[key][d], RulesOf(w.entries, key))
    ensures !Conflicts(defs[key][d], RulesOf(w.entries, key))
  {
    NormalizedRules(defs);
    var def := Normalize(defs)[key][i];
    assert Compatible(Normalize(defs)[key], RulesOf(w.entries, key));
    d :| 0 <= d < |defs[key]| && defs[key][d] == def;
  }

  predicate Effective(w: World, e: Event) {
    e.Reconfigure? && ValidDefinitions(e.defs) && !ReconcileConflict(w.entries, Normalize(e.defs))
  }

  lemma ReconfiguredDistinct(entries: Entries, defs: Definitions)
    requires ValidDefinitions(defs)
    ensures forall k :: k in Reconciled(entries, Normalize(defs)) ==>
      DistinctIds(Reconciled(entries, Normalize(defs))[k])
  {
    NormalizedRules(defs);
    forall k | k in Normalize(defs) ensures DistinctIds(CarryAll(Normalize(defs)[k], RulesOf(entries, k))) {
      CarriedDistinct(Normalize(defs)[k], RulesOf(entries, k));
    }
  }

  lemma CarriedDistinct(defs: seq<Rule>, prev: seq<RuleState>)
    requires DistinctRuleIds(defs)
    ensures DistinctIds(CarryAll(defs, prev))
  {
    var s := CarryAll(defs, prev);
    forall i | 0 <= i < |s| ensures s[i].def == defs[i] {
    }
  }

  ghost predicate Bounded(entries: Entries) {
    forall k, i {:trigger entries[k][i]} :: k in entries && 0 <= i < |entries[k]| ==>
      0 <= entries[k][i].used <= MAX_INT64
  }

  lemma ReconfiguredBounded(w: World, defs: Definitions)
    requires Bounded(w.entries)
    requires ValidDefinitions(defs) && !ReconcileConflict(w.entries, Normalize(defs))
    ensures Bounded(Reconcile(w.entries, defs))
  {
    var next: Entries := Reconcile(w.entries, defs);
    forall k, i {:trigger next[k][i]} | k in next && 0 <= i < |next[k]|
      ensures 0 <= next[k][i].used <= MAX_INT64
    {
      var d := Reconfigured(w, defs, k, i);
      CarriedBounded(defs[k][d], RulesOf(w.entries, k));
    }
  }

  lemma CarriedBounded(def: Rule, prev: seq<RuleState>)
    requires forall i :: 0 <= i < |prev| ==> 0 <= prev[i].used <= MAX_INT64
    ensures 0 <= Carry(def, prev).used <= MAX_INT64
  {
  }

  // A step other than an effective reconfiguration keeps every rule in its place.
  lemma StepInPlace(w: World, e: Event)
    requires !Effective(w, e)
    ensures StepEntries(w, e).Keys == w.entries.Keys
    ensures forall k :: k in w.entries ==> |StepEntries(w, e)[k]| == |w.entries[k]|
    ensures forall k, i {:trigger w.entries[k][i]} {:trigger StepEntries(w, e)[k][i]} ::
      k in w.entries && 0 <= i < |w.entries[k]| ==>
        && StepEntries(w, e)[k][i].def == w.entries[k][i].def
        && w.entries[k][i].generation <= StepEntries(w, e)[k][i].generation
  {
  }

  lemma StepDistinct(w: World, e: Event)
    requires Consistent(w) && Permitted(w, e)
    ensures forall k :: k in StepEntries(w, e) ==> DistinctIds(StepEntries(w, e)[k])
    ensures Bounded(StepEntries(w, e))
  {
    if Effective(w, e) {
      ReconfiguredDistinct(w.entries, e.defs);
      ReconfiguredBounded(w, e.defs);
    } else {
      StepInPlace(w, e);
      if e.Complete? && e.ticket.key in w.entries {
        forall i | 0 <= i < |w.entries[e.ticket.key]|
          ensures 0 <= ChargeAll(w.entries[e.ticket.key][i], e.ticket.rules, e.cost).used <= MAX_INT64
        {
          ChargedUsed(w.entries[e.ticket.key][i], e.ticket.rules, e.cost);
        }
      }
    }
  }

  lemma ReconfiguredGrows(w: World, e: Event, id: Identity)
    requires Permitted(w, e) && Effective(w, e) && Live(StepEntries(w, e), id) && id in w.seen
    ensures Live(w.entries, id) && GenerationOf(w.entries, id) <= GenerationOf(StepEntries(w, e), id)
  {
    hide QuotaModel.ValidDefinitions, QuotaModel.Normalize, QuotaModel.ReconcileConflict, QuotaModel.Reconciled;
    var i := LiveIndex(StepEntries(w, e), id);
    var d := Reconfigured(w, e.defs, id.0, i);
    assert (id.0, e.defs[id.0][d].id, e.defs[id.0][d].revision) == id;
  }

  lemma InPlaceGrows(w: World, e: Event, id: Identity)
    requires Consistent(w) && !Effective(w, e) && Live(StepEntries(w, e), id)
    ensures Live(w.entries, id) && GenerationOf(w.entries, id) <= GenerationOf(StepEntries(w, e), id)
  {
    var i := LiveIndex(StepEntries(w, e), id);
    StepInPlace(w, e);
    hide StepEntries, Effective, Live;
    LiveRule(w.entries, id.0, i);
  }

  lemma StepGrows(w: World, e: Event)
    requires Consistent(w) && Permitted(w, e)
    ensures Grows(w, StepEntries(w, e))
  {
    hide StepEntries, Effective, Live, Consistent, Permitted;
    forall id: Identity | Live(StepEntries(w, e), id) && id in w.seen
      ensures Live(w.entries, id) && GenerationOf(w.entries, id) <= GenerationOf(StepEntries(w, e), id)
    {
      if Effective(w, e) {
        ReconfiguredGrows(w, e, id);
      } else {
        InPlaceGrows(w, e, id);
      }
    }
  }

  lemma SeenGrows(w: World, entries: Entries)
    requires Consistent(w) && Grows(w, entries)
    ensures forall id :: id in w.seen ==>
      id in Remember(w.seen, entries) && w.seen[id] <= Remember(w.seen, entries)[id]
  {
    var seen := Remember(w.seen, entries);
    forall id | id in w.seen ensures id in seen && w.seen[id] <= seen[id] {
      if id in LiveIds(entries) && Live(entries, id) {
        var i := LiveIndex(w.entries, id);
        assert w.seen[id] == w.entries[id.0][i].generation;
      }
    }
  }

  lemma IssuedSeen(w: World, key: nat, now: int)
    requires Consistent(w)
    ensures TicketSeen(TicketFor(w, key, now), Step(w, Admit(key, now)).seen)
  {
    var e := Admit(key, now);
    var t := TicketFor(w, key, now);
    var entries := StepEntries(w, e);
    StepDistinct(w, e);
    RememberLive(w.seen, entries);
    forall j {:trigger t.rules[j]} | 0 <= j < |t.rules|
      ensures (t.key, t.rules[j].ruleId, t.rules[j].revision) in Remember(w.seen, entries)
      ensures t.rules[j].generation
           <= Remember(w.seen, entries)[(t.key, t.rules[j].ruleId, t.rules[j].revision)]
    {
      assert t.rules[j] == TicketRuleOf(entries[key][j]);
      assert Id(key, entries[key][j]) in Remember(w.seen, entries);
    }
  }

  lemma StillSeen(t: Ticket, seen: map<Identity, nat>, later: map<Identity, nat>)
    requires TicketSeen(t, seen)
    requires forall id :: id in seen ==> id in later && seen[id] <= later[id]
    ensures TicketSeen(t, later)
  {
  }

  lemma StepConsistent(w: World, e: Event)
    requires Consistent(w) && Permitted(w, e)
    ensures Consistent(Step(w, e))
    ensures forall id :: id in w.seen ==> id in Step(w, e).seen && w.seen[id] <= Step(w, e).seen[id]
  {
    var w' := Step(w, e);
    StepDistinct(w, e);
    StepGrows(w, e);
    SeenGrows(w, w'.entries);
    RememberLive(w.seen, w'.entries);
    forall t | t in w'.issued ensures TicketSeen(t, w'.seen) {
      if t in w.issued {
        StillSeen(t, w.seen, w'.seen);
      } else {
        IssuedSeen(w, e.key, e.now);
      }
    }
  }

  lemma {:induction false} RunConsistent(w: World, es: seq<Event>)
    requires Consistent(w) && PermittedRun(w, es)
    ensures Consistent(Run(w, es))
    ensures forall id :: id in w.seen ==> id in Run(w, es).seen && w.seen[id] <= Run(w, es).seen[id]
    decreases |es|
  {
    if es != [] {
      RunConsistent(w, es[..|es| - 1]);
      StepConsistent(Run(w, es[..|es| - 1]), es[|es| - 1]);
    }
  }

  // ---- saturating sums ------------------------------------------------------------

  function Saturated(base: int, costs: seq<int>): int
    decreases |costs|
  {
    if costs == [] then base
    else SaturatingAdd(Saturated(base, costs[..|costs| - 1]), costs[|costs| - 1])
  }

  function Sum(costs: seq<int>): int
    decreases |costs|
  {
    if costs == [] then 0 else Sum(costs[..|costs| - 1]) + costs[|costs| - 1]
  }

  predicate AnyNegative(costs: seq<int>) {
    exists i :: 0 <= i < |costs| && costs[i] < 0
  }

  // The counter is the capped sum, whatever the order, unless an estimate was negative.
  lemma {:induction false} SaturatedClosedForm(base: int, costs: seq<int>)
    requires 0 <= base <= MAX_INT64
    ensures Saturated(base, costs) ==
            if AnyNegative(costs) || base + Sum(costs) > MAX_INT64 then MAX_INT64
            else base + Sum(costs)
    ensures !AnyNegative(costs) ==> Sum(costs) >= 0
    decreases |costs|
  {
    if costs != [] {
      var init, last := costs[..|costs| - 1], costs[|costs| - 1];
      SaturatedClosedForm(base, init);
      if AnyNegative(init) {
        var i :| 0 <= i < |init| && init[i] < 0;
        assert costs[i] < 0;
      } else if last < 0 {
        assert costs[|costs| - 1] < 0;
      } else {
        assert !AnyNegative(costs);
      }
    }
  }

  lemma {:induction false} SaturatedConcat(base: int, a: seq<int>, b: seq<int>)
    ensures Saturated(base, a + b) == Saturated(Saturated(base, a), b)
    decreases |b|
  {
    if b == [] {
      assert a + b == a;
    } else {
      SaturatedConcat(base, a, b[..|b| - 1]);
      assert (a + b)[..|a + b| - 1] == a + b[..|b| - 1];
    }
  }

  // ---- what a run charges to one window of one rule -------------------------------

  datatype Account = Account(id: Identity, periodic: bool, generation: nat)

  function AccountOf(key: nat, r: RuleState): Account {
    Account(Id(key, r), r.def.kind.Periodic?, r.generation)
  }

  predicate Addresses(a: Account, key: nat, t: TicketRule) {
    a.id == (key, t.ruleId, t.revision) && (a.periodic ==> t.generation == a.generation)
  }

  function TicketCosts(a: Account, key: nat, ticket: seq<TicketRule>, cost: int): seq<int>
    decreases |ticket|
  {
    if ticket == [] then []
    else
      TicketCosts(a, key, ticket[..|ticket| - 1], cost)
      + (if Addresses(a, key, ticket[|ticket| - 1]) then [cost] else [])
  }

  // The costs of exactly the completions whose ticket names this account.
  function Costs(a: Account, es: seq<Event>): seq<int>
    decreases |es|
  {
    if es == [] then [] else Costs(a, es[..|es| - 1]) + EventCosts(a, es[|es| - 1])
  }

  function EventCosts(a: Account, e: Event): seq<int> {
    if e.Complete? then TicketCosts(a, e.ticket.key, e.ticket.rules, e.cost) else []
  }

  lemma CostsOf(a: Account, init: seq<Event>, e: Event)
    ensures Costs(a, init + [e]) == Costs(a, init) + EventCosts(a, e)
  {
    assert (init + [e])[..|init + [e]| - 1] == init;
  }

  // What the account held before the run: its live or restored use, or nothing.
  function Baseline(entries: Entries, a: Account): int {
    var p := Find(RulesOf(entries, a.id.0), a.id.1);
    if p.Some? && p.value.def.revision == a.id.2 && (a.periodic ==> p.value.generation == a.generation)
    then p.value.used else 0
  }

  lemma {:induction false} ChargedUsed(r: RuleState, ticket: seq<TicketRule>, cost: int)
    requires 0 <= r.used <= MAX_INT64
    ensures r.used <= ChargeAll(r, ticket, cost).used <= MAX_INT64
    decreases |ticket|
  {
    if ticket != [] {
      ChargedUsed(r, ticket[..|ticket| - 1], cost);
    }
  }

  lemma {:induction false} ChargedBy(key: nat, r: RuleState, ticket: seq<TicketRule>, cost: int)
    ensures ChargeAll(r, ticket, cost).used
         == Saturated(r.used, TicketCosts(AccountOf(key, r), key, ticket, cost))
    decreases |ticket|
  {
    if ticket != [] {
      var init, last := ticket[..|ticket| - 1], ticket[|ticket| - 1];
      var before := TicketCosts(AccountOf(key, r), key, init, cost);
      ChargedBy(key, r, init, cost);
      if Addresses(AccountOf(key, r), key, last) {
        var all := before + [cost];
        assert all[..|all| - 1] == before;
        assert TicketCosts(AccountOf(key, r), key, ticket, cost) == all;
      } else {
        assert before + [] == before;
        assert TicketCosts(AccountOf(key, r), key, ticket, cost) == before;
      }
    }
  }

  lemma {:induction false} OtherTicketCosts(a: Account, key: nat, ticket: seq<TicketRule>, cost: int)
    requires forall j :: 0 <= j < |ticket| ==> !Addresses(a, key, ticket[j])
    ensures TicketCosts(a, key, ticket, cost) == []
    decreases |ticket|
  {
    if ticket != [] {
      OtherTicketCosts(a, key, ticket[..|ticket| - 1], cost);
    }
  }

  // No completion so far can have named an identity or generation that was not yet seen.
  lemma {:induction false} NothingChargedBefore(w: World, es: seq<Event>, a: Account)
    requires Consistent(w) && PermittedRun(w, es)
    requires a.id !in Run(w, es).seen || (a.periodic && Run(w, es).seen[a.id] < a.generation)
    ensures Costs(a, es) == []
    decreases |es|
  {
    if es != [] {
      var init, e := es[..|es| - 1], es[|es| - 1];
      var v := Run(w, init);
      RunConsistent(w, init);
      StepConsistent(v, e);
      NothingChargedBefore(w, init, a);
      if e.Complete? {
        forall j | 0 <= j < |e.ticket.rules|
          ensures !Addresses(a, e.ticket.key, e.ticket.rules[j])
        {
          assert e.ticket in v.issued;
        }
        OtherTicketCosts(a, e.ticket.key, e.ticket.rules, e.cost);
      }
    }
  }

  // ---- the accounting law ---------------------------------------------------------

  ghost predicate Balanced(w: World, es: seq<Event>, key: nat, r: RuleState) {
    r.generation < MAX_UINT64 ==>
      r.used == Saturated(Baseline(w.entries, AccountOf(key, r)), Costs(AccountOf(key, r), es))
  }

  ghost predicate Accounted(w: World, es: seq<Event>, key: nat, i: nat)
    requires key in Run(w, es).entries && i < |Run(w, es).entries[key]|
  {
    Balanced(w, es, key, Run(w, es).entries[key][i])
  }

  lemma NothingBefore(w: World, init: seq<Event>, key: nat, r: RuleState)
    requires Consistent(w) && PermittedRun(w, init)
    requires Id(key, r) !in Run(w, init).seen ||
             (r.def.kind.Periodic? && Run(w, init).seen[Id(key, r)] < r.generation)
    ensures Baseline(w.entries, AccountOf(key, r)) == 0
    ensures Costs(AccountOf(key, r), init) == []
  {
    NothingChargedBefore(w, init, AccountOf(key, r));
    RunConsistent(w, init);
    var a := AccountOf(key, r);
    if Live(w.entries, a.id) {
      var j := LiveIndex(w.entries, a.id);
      assert Id(key, w.entries[key][j]) in w.seen;
    }
  }

  lemma AccountedCarry(w: World, init: seq<Event>, v: World, def: Rule, key: nat)
    requires Consistent(w) && PermittedRun(w, init) && v == Run(w, init)
    requires (key, def.id, def.revision) in v.seen ==> Live(v.entries, (key, def.id, def.revision))
    requires !Conflicts(def, RulesOf(v.entries, key))
    requires key in v.entries ==> forall j :: 0 <= j < |v.entries[key]| ==> Accounted(w, init, key, j)
    ensures Balanced(w, init, key, Carry(def, RulesOf(v.entries, key)))
  {
    var r := Carry(def, RulesOf(v.entries, key));
    if Live(v.entries, Id(key, r)) {
      var j := LiveIndex(v.entries, Id(key, r));
      assert Accounted(w, init, key, j);
    } else {
      NothingBefore(w, init, key, r);
    }
  }

  lemma AccountedReconfigure(w: World, init: seq<Event>, v: World, e: Event, key: nat, i: nat)
    requires Consistent(w) && PermittedRun(w, init) && v == Run(w, init)
    requires Permitted(v, e) && Effective(v, e)
    requires key in StepEntries(v, e) && i < |StepEntries(v, e)[key]|
    requires key in v.entries ==> forall j :: 0 <= j < |v.entries[key]| ==> Accounted(w, init, key, j)
    ensures Balanced(w, init, key, StepEntries(v, e)[key][i])
  {
    var d := Reconfigured(v, e.defs, key, i);
    AccountedCarry(w, init, v, e.defs[key][d], key);
  }

  lemma AccountedAdmit(w: World, init: seq<Event>, v: World, e: Event, key: nat, i: nat)
    requires Consistent(w) && PermittedRun(w, init) && v == Run(w, init) && e.Admit?
    requires key in v.entries && i < |v.entries[key]| && Accounted(w, init, key, i)
    ensures |StepEntries(v, e)[key]| == |v.entries[key]|
    ensures Balanced(w, init, key, StepEntries(v, e)[key][i])
  {
    var r, r' := v.entries[key][i], StepEntries(v, e)[key][i];
    if r' != r && r'.generation < MAX_UINT64 {
      RunConsistent(w, init);
      assert Id(key, r) in v.seen && v.seen[Id(key, r)] == r.generation;
      NothingBefore(w, init, key, r');
    }
  }

  lemma AccountedComplete(w: World, init: seq<Event>, v: World, e: Event, key: nat, i: nat)
    requires v == Run(w, init) && e.Complete?
    requires key in v.entries && i < |v.entries[key]| && Accounted(w, init, key, i)
    ensures |StepEntries(v, e)[key]| == |v.entries[key]|
    ensures Balanced(w, init + [e], key, StepEntries(v, e)[key][i])
  {
    var r := v.entries[key][i];
    var a := AccountOf(key, r);
    CostsOf(a, init, e);
    assert AccountOf(key, StepEntries(v, e)[key][i]) == a;
    SaturatedConcat(Baseline(w.entries, a), Costs(a, init), EventCosts(a, e));
    if e.ticket.key == key {
      ChargedBy(key, r, e.ticket.rules, e.cost);
    } else {
      OtherTicketCosts(a, e.ticket.key, e.ticket.rules, e.cost);
    }
  }

  lemma FreeEvent(w: World, init: seq<Event>, e: Event, key: nat, r: RuleState)
    requires !e.Complete? && Balanced(w, init, key, r)
    ensures Balanced(w, init + [e], key, r)
  {
    CostsOf(AccountOf(key, r), init, e);
    assert Costs(AccountOf(key, r), init) + [] == Costs(AccountOf(key, r), init);
  }

  lemma AccountedStep(w: World, init: seq<Event>, v: World, e: Event, key: nat, i: nat)
    requires Consistent(w) && PermittedRun(w, init) && v == Run(w, init) && Permitted(v, e)
    requires key in StepEntries(v, e) && i < |StepEntries(v, e)[key]|
    requires key in v.entries ==> forall j :: 0 <= j < |v.entries[key]| ==> Accounted(w, init, key, j)
    ensures Balanced(w, init + [e], key, StepEntries(v, e)[key][i])
  {
    if Effective(v, e) {
      AccountedReconfigure(w, init, v, e, key, i);
      FreeEvent(w, init, e, key, StepEntries(v, e)[key][i]);
    } else {
      StepInPlace(v, e);
      assert Accounted(w, init, key, i);
      if e.Complete? {
        AccountedComplete(w, init, v, e, key, i);
      } else {
        if e.Admit? {
          AccountedAdmit(w, init, v, e, key, i);
        } else {
          UsedKept(v, e, key, i);
        }
        FreeEvent(w, init, e, key, StepEntries(v, e)[key][i]);
      }
    }
  }

  lemma UsedKept(v: World, e: Event, key: nat, i: nat)
    requires e.Ack? || (e.Reconfigure? && !Effective(v, e))
    requires key in v.entries && i < |v.entries[key]|
    ensures key in StepEntries(v, e) && |StepEntries(v, e)[key]| == |v.entries[key]|
    ensures StepEntries(v, e)[key][i].used == v.entries[key][i].used
    ensures AccountOf(key, StepEntries(v, e)[key][i]) == AccountOf(key, v.entries[key][i])
  {
  }

  lemma {:induction false} AccountedRun(w: World, es: seq<Event>, key: nat, i: nat)
    requires Consistent(w) && PermittedRun(w, es)
    requires key in Run(w, es).entries && i < |Run(w, es).entries[key]|
    ensures Accounted(w, es, key, i)
    decreases |es|
  {
    if es == [] {
      RunConsistent(w, es);
      LiveRule(w.entries, key, i);
    } else {
      var init, e := es[..|es| - 1], es[|es| - 1];
      SplitLast(es);
      forall j | key in Run(w, init).entries && 0 <= j < |Run(w, init).entries[key]|
        ensures Accounted(w, init, key, j)
      {
        AccountedRun(w, init, key, j);
      }
      AccountedStep(w, init, Run(w, init), e, key, i);
    }
  }

  /** In every run, what a rule has used is its baseline plus the capped sum of exactly the
      completions whose ticket names its revision and window; a negative estimate caps it. */
  lemma AccountingLaw(w: World, es: seq<Event>, key: nat, i: nat)
    requires Consistent(w) && PermittedRun(w, es)
    requires key in Run(w, es).entries && i < |Run(w, es).entries[key]|
    requires Run(w, es).entries[key][i].generation < MAX_UINT64
    ensures var r := Run(w, es).entries[key][i];
            var a := AccountOf(key, r);
            var base, costs := Baseline(w.entries, a), Costs(a, es);
            r.used == if AnyNegative(costs) || base + Sum(costs) > MAX_INT64 then MAX_INT64
                      else base + Sum(costs)
  {
    var a := AccountOf(key, Run(w, es).entries[key][i]);
    AccountedRun(w, es, key, i);
    if Live(w.entries, a.id) {
      var j := LiveIndex(w.entries, a.id);
      assert 0 <= w.entries[key][j].used <= MAX_INT64;
    }
    SaturatedClosedForm(Baseline(w.entries, a), Costs(a, es));
  }

  // ---- nothing is admitted into an exhausted window -------------------------------

  predicate LimitKept(es: seq<Event>, id: Identity, limit: int) {
    forall n, k, i {:trigger es[n].defs[k][i]} ::
      0 <= n < |es| && es[n].Reconfigure? && k in es[n].defs && 0 <= i < |es[n].defs[k]|
      && (k, es[n].defs[k][i].id, es[n].defs[k][i].revision) == id
      ==> es[n].defs[k][i].limit == limit
  }

  predicate Names(t: Ticket, a: Account) {
    exists j :: 0 <= j < |t.rules| && Addresses(a, t.key, t.rules[j])
  }

  // The account is live, still in the given window, and spent.
  predicate Spent(entries: Entries, a: Account, limit: int) {
    var p := Find(RulesOf(entries, a.id.0), a.id.1);
    && p.Some? && AccountOf(a.id.0, p.value) == a
    && p.value.def.limit == limit && p.value.used >= limit
  }

  predicate InWindow(entries: Entries, a: Account) {
    Live(entries, a.id) && (a.periodic ==> GenerationOf(entries, a.id) == a.generation)
  }

  lemma SpentInPlace(w: World, e: Event, a: Account, limit: int, n: nat)
    requires Consistent(w) && !Effective(w, e)
    requires a.id.0 in w.entries && n < |w.entries[a.id.0]|
    requires var r := w.entries[a.id.0][n];
             AccountOf(a.id.0, r) == a && r.def.limit == limit && r.used >= limit
    requires a.generation < MAX_UINT64
    ensures |StepEntries(w, e)[a.id.0]| == |w.entries[a.id.0]|
    ensures var r' := StepEntries(w, e)[a.id.0][n];
            (a.periodic ==> r'.generation == a.generation) ==>
              && r'.def.limit == limit && r'.used >= limit
              && (e.Admit? ==> !Names(TicketFor(w, e.key, e.now), a))
  {
    var r := w.entries[a.id.0][n];
    if e.Admit? && e.key == a.id.0 {
      if Exhausted(r, e.now) {
        assert Blocked(w.entries[a.id.0], e.now);
        assert TicketFor(w, e.key, e.now).rules == [];
      }
    } else if e.Admit? {
      assert TicketFor(w, e.key, e.now).key == e.key;
    } else if e.Complete? && e.ticket.key == a.id.0 {
      ChargedUsed(r, e.ticket.rules, e.cost);
    }
  }

  lemma SpentReconfigured(w: World, e: Event, a: Account, limit: int)
    requires Spent(w.entries, a, limit) && Effective(w, e)
    requires LimitKept([e], a.id, limit)
    requires Live(StepEntries(w, e), a.id)
    ensures Spent(StepEntries(w, e), a, limit)
  {
    var n := LiveIndex(StepEntries(w, e), a.id);
    var d := Reconfigured(w, e.defs, a.id.0, n);
    assert [e][0].defs[a.id.0][d] == e.defs[a.id.0][d];
  }

  lemma SpentKept(w: World, e: Event, a: Account, limit: int)
    requires forall k :: k in w.entries ==> DistinctIds(w.entries[k])
    requires Consistent(w) && !Effective(w, e)
    requires Spent(w.entries, a, limit) && a.generation < MAX_UINT64
    requires InWindow(StepEntries(w, e), a)
    ensures Spent(StepEntries(w, e), a, limit)
    ensures e.Admit? ==> !Names(TicketFor(w, e.key, e.now), a)
  {
    var n := LiveIndex(StepEntries(w, e), a.id);
    StepInPlace(w, e);
    LiveRule(w.entries, a.id.0, n);
    SpentInPlace(w, e, a, limit, n);
  }

  lemma SpentStep(w: World, e: Event, a: Account, limit: int)
    requires Consistent(w)
    requires Spent(w.entries, a, limit) && a.generation < MAX_UINT64
    requires LimitKept([e], a.id, limit)
    requires InWindow(StepEntries(w, e), a)
    ensures Spent(StepEntries(w, e), a, limit)
    ensures e.Admit? ==> !Names(TicketFor(w, e.key, e.now), a)
  {
    if Effective(w, e) {
      SpentReconfigured(w, e, a, limit);
    } else {
      SpentKept(w, e, a, limit);
    }
  }

  lemma StillLive(w: World, e: Event, id: Identity)
    requires Consistent(w) && Permitted(w, e)
    requires id in w.seen && Live(StepEntries(w, e), id)
    ensures Live(w.entries, id)
    ensures w.seen[id] == GenerationOf(w.entries, id)
    ensures id in Step(w, e).seen && Step(w, e).seen[id] == GenerationOf(StepEntries(w, e), id)
  {
    StepGrows(w, e);
    StepConsistent(w, e);
    var i := LiveIndex(w.entries, id);
    assert Id(id.0, w.entries[id.0][i]) in w.seen;
    var j := LiveIndex(Step(w, e).entries, id);
    assert Id(id.0, Step(w, e).entries[id.0][j]) in Step(w, e).seen;
  }

  // The premises of the law below hold for every prefix of the run as well.
  lemma SpentPrefix(w: World, init: seq<Event>, e: Event, a: Account, limit: int)
    requires Consistent(w) && PermittedRun(w, init) && Permitted(Run(w, init), e)
    requires Spent(w.entries, a, limit)
    requires InWindow(StepEntries(Run(w, init), e), a)
    ensures Consistent(Run(w, init))
    ensures InWindow(Run(w, init).entries, a)
  {
    var v := Run(w, init);
    RunConsistent(w, init);
    var i := LiveIndex(w.entries, a.id);
    assert Id(a.id.0, w.entries[a.id.0][i]) in w.seen;
    StillLive(v, e, a.id);
    StepConsistent(v, e);
  }

  lemma LimitKeptParts(init: seq<Event>, e: Event, id: Identity, limit: int)
    requires LimitKept(init + [e], id, limit)
    ensures LimitKept(init, id, limit) && LimitKept([e], id, limit)
  {
    var es := init + [e];
    forall n, k, i {:trigger init[n].defs[k][i]} |
      0 <= n < |init| && init[n].Reconfigure? && k in init[n].defs && 0 <= i < |init[n].defs[k]|
      && (k, init[n].defs[k][i].id, init[n].defs[k][i].revision) == id
      ensures init[n].defs[k][i].limit == limit
    {
      assert es[n].defs[k][i] == init[n].defs[k][i];
    }
    assert es[|init|] == e;
  }

  // No admission of the run issues a ticket for the account.
  ghost predicate NeverNamed(w: World, es: seq<Event>, a: Account) {
    forall n :: 0 <= n < |es| && es[n].Admit? ==>
      !Names(TicketFor(Run(w, es[..n]), es[n].key, es[n].now), a)
  }

  lemma NeverNamedStep(w: World, init: seq<Event>, e: Event, a: Account)
    requires NeverNamed(w, init, a)
    requires e.Admit? ==> !Names(TicketFor(Run(w, init), e.key, e.now), a)
    ensures NeverNamed(w, init + [e], a)
  {
    var es := init + [e];
    forall n | 0 <= n < |es| && es[n].Admit?
      ensures !Names(TicketFor(Run(w, es[..n]), es[n].key, es[n].now), a)
    {
      assert es[..n] == init[..n];
      assert init[..|init|] == init;
    }
  }

  /** Once a window of a rule is spent and its limit stays, no later admission hands out a
      ticket for that window, whatever the clock says: only earlier tickets can add to it. */
  lemma {:induction false} NoAdmissionIntoSpentWindow(w: World, es: seq<Event>, a: Account, limit: int)
    requires Consistent(w) && PermittedRun(w, es)
    requires Spent(w.entries, a, limit) && a.generation < MAX_UINT64
    requires LimitKept(es, a.id, limit)
    requires InWindow(Run(w, es).entries, a)
    ensures Spent(Run(w, es).entries, a, limit)
    ensures NeverNamed(w, es, a)
    decreases |es|
  {
    if es != [] {
      var init, e := es[..|es| - 1], es[|es| - 1];
      SplitLast(es);
      LimitKeptParts(init, e, a.id, limit);
      assert InWindow(StepEntries(Run(w, init), e), a);
      SpentPrefix(w, init, e, a, limit);
      NoAdmissionIntoSpentWindow(w, init, a, limit);
      SpentStep(Run(w, init), e, a, limit);
      NeverNamedStep(w, init, e, a);
    }
  }
}
