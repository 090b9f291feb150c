/**
  The runtime itself: rule objects updated in place, an entry per access key that reaches
  them by position and by ID, and the table of entries. Every method is tied to the step
  function of the same name.
*/
module QuotaRuntime {
  import opened Wrappers
  import opened QuotaModel
  import opened QuotaDecisions
  import QuotaValidate
  import QuotaRuns
  import opened QuotaSnapshots
  import QuotaCheckpoint
  import QuotaLaws
  import R = QuotaReference

  datatype Fault = NoFault | NegativeEstimate | Overflow

  predicate Overflows(r: RuleState, t: TicketRule, cost: int) {
    Matches(r, t) && cost > 0 && r.used > MAX_INT64 - cost
  }

  predicate AnyMatches(rules: seq<RuleState>, t: TicketRule) {
    exists i :: 0 <= i < |rules| && Matches(rules[i], t)
  }

  predicate AnyOverflows(rules: seq<RuleState>, t: TicketRule, cost: int) {
    exists i :: 0 <= i < |rules| && Overflows(rules[i], t, cost)
  }

  function CompletionFault(rules: seq<RuleState>, names: seq<TicketRule>, cost: int): Fault
    decreases |names|
  {
    if names == [] then NoFault
    else
      var init, t := names[..|names| - 1], names[|names| - 1];
      var before := CompletionFault(rules, init, cost);
      var charged := CompleteRules(rules, init, cost);
      if AnyMatches(charged, t) && cost < 0 then NegativeEstimate
      else if AnyOverflows(charged, t, cost) && before.NoFault? then Overflow
      else before
  }

  // What the ticket adds to the rule in exact arithmetic.
  function HitCost(r: RuleState, names: seq<TicketRule>, cost: int): int
    decreases |names|
  {
    if names == [] then 0
    else HitCost(r, names[..|names| - 1], cost) + (if Matches(r, names[|names| - 1]) then cost else 0)
  }

  predicate Exact(r: RuleState, names: seq<TicketRule>, cost: int) {
    ChargeAll(r, names, cost).used == r.used + HitCost(r, names, cost)
  }

  lemma {:induction false} ExactStep(r: RuleState, names: seq<TicketRule>, cost: int)
    requires 0 <= r.used <= MAX_INT64
    ensures 0 <= ChargeAll(r, names, cost).used <= MAX_INT64
    ensures cost >= 0 ==> HitCost(r, names, cost) >= 0
    ensures cost <= 0 ==> HitCost(r, names, cost) <= 0
    ensures !Exact(r, names, cost) && cost > 0 ==> ChargeAll(r, names, cost).used == MAX_INT64 < r.used + HitCost(r, names, cost)
    ensures !Exact(r, names, cost) && cost < 0 ==> ChargeAll(r, names, cost).used == MAX_INT64 && HitCost(r, names, cost) < 0
    ensures names != [] ==>
      var init, t := names[..|names| - 1], names[|names| - 1];
      var before := ChargeAll(r, init, cost);
      Exact(r, names, cost) <==>
        Exact(r, init, cost) && !(Matches(before, t) && cost < 0) && !Overflows(before, t, cost)
    decreases |names|
  {
    if names != [] {
      ExactStep(r, names[..|names| - 1], cost);
    }
  }

  /** A completion reports a fault exactly when some counter is not the exact sum. */
  lemma {:induction false} FaultMeansInexact(rules: seq<RuleState>, names: seq<TicketRule>, cost: int)
    requires forall i :: 0 <= i < |rules| ==> 0 <= rules[i].used <= MAX_INT64
    ensures CompletionFault(rules, names, cost).NoFault? <==>
      forall i :: 0 <= i < |rules| ==> Exact(rules[i], names, cost)
    decreases |names|
  {
    if names != [] {
      var init, t := names[..|names| - 1], names[|names| - 1];
      FaultMeansInexact(rules, init, cost);
      var charged := CompleteRules(rules, init, cost);
      forall i | 0 <= i < |rules|
        ensures Exact(rules[i], names, cost) <==>
          Exact(rules[i], init, cost) && !(Matches(charged[i], t) && cost < 0) && !Overflows(charged[i], t, cost)
      {
        ExactStep(rules[i], names, cost);
      }
    }
  }

  // The fault in fields: a negative estimate that was charged, or a sum beyond the largest int64.
  ghost predicate FaultMeans(rules: seq<RuleState>, names: seq<TicketRule>, cost: int, fault: Fault) {
    && (fault.NegativeEstimate? <==> cost < 0 && AnyHit(rules, names))
    && (fault.Overflow? <==> cost > 0 && AnyBeyond(rules, names, cost))
  }

  ghost predicate AnyHit(rules: seq<RuleState>, names: seq<TicketRule>) {
    exists i :: 0 <= i < |rules| && R.Hits(rules[i], names) > 0
  }

  ghost predicate AnyBeyond(rules: seq<RuleState>, names: seq<TicketRule>, cost: int) {
    exists i :: 0 <= i < |rules| && rules[i].used + R.Hits(rules[i], names) * cost > MAX_INT64
  }

  lemma HitNext(rules: seq<RuleState>, names: seq<TicketRule>, cost: int)
    requires names != []
    ensures var init, t := names[..|names| - 1], names[|names| - 1];
            AnyHit(rules, names) <==> AnyHit(rules, init) || AnyMatches(CompleteRules(rules, init, cost), t)
  {
    var init, t := names[..|names| - 1], names[|names| - 1];
    var charged := CompleteRules(rules, init, cost);
    forall i | 0 <= i < |rules|
      ensures R.Hits(rules[i], names) > 0 <==> R.Hits(rules[i], init) > 0 || Matches(charged[i], t)
    {
    }
  }

  lemma BeyondAt(r: RuleState, names: seq<TicketRule>, cost: int)
    requires names != [] && cost > 0 && 0 <= r.used <= MAX_INT64
    ensures var init, t := names[..|names| - 1], names[|names| - 1];
            r.used + R.Hits(r, names) * cost > MAX_INT64 <==>
            r.used + R.Hits(r, init) * cost > MAX_INT64 || Overflows(ChargeAll(r, init, cost), t, cost)
  {
    var init, t := names[..|names| - 1], names[|names| - 1];
    R.ChargeMeans(r, init, cost);
    R.OneMore(R.Hits(r, init), cost);
  }

  lemma BeyondNext(rules: seq<RuleState>, names: seq<TicketRule>, cost: int)
    requires names != [] && cost > 0 && forall i :: 0 <= i < |rules| ==> 0 <= rules[i].used <= MAX_INT64
    ensures var init, t := names[..|names| - 1], names[|names| - 1];
            AnyBeyond(rules, names, cost) <==>
            AnyBeyond(rules, init, cost) || AnyOverflows(CompleteRules(rules, init, cost), t, cost)
  {
    hide R.Hits, ChargeAll, Overflows;
    var init, t := names[..|names| - 1], names[|names| - 1];
    forall i | 0 <= i < |rules|
      ensures rules[i].used + R.Hits(rules[i], names) * cost > MAX_INT64 <==>
              rules[i].used + R.Hits(rules[i], init) * cost > MAX_INT64
              || Overflows(CompleteRules(rules, init, cost)[i], t, cost)
    {
      BeyondAt(rules[i], names, cost);
    }
  }

  lemma {:induction false} CompletionFaultMeans(rules: seq<RuleState>, names: seq<TicketRule>, cost: int)
    requires forall i :: 0 <= i < |rules| ==> 0 <= rules[i].used <= MAX_INT64
    ensures FaultMeans(rules, names, cost, CompletionFault(rules, names, cost))
    decreases |names|
  {
    if names == [] {
      NoneHit(rules, cost);
    } else {
      var init, t := names[..|names| - 1], names[|names| - 1];
      CompletionFaultMeans(rules, init, cost);
      HitNext(rules, names, cost);
      if cost > 0 {
        BeyondNext(rules, names, cost);
      } else {
        assert !AnyOverflows(CompleteRules(rules, init, cost), t, cost);
      }
    }
  }

  lemma NoneHit(rules: seq<RuleState>, cost: int)
    requires forall i :: 0 <= i < |rules| ==> 0 <= rules[i].used <= MAX_INT64
    ensures !AnyHit(rules, []) && !AnyBeyond(rules, [], cost)
  {
  }

  // A completion in fields.
  ghost predicate CompletionMeans(was: seq<RuleState>, rules: seq<RuleState>, names: seq<TicketRule>, cost: int, fault: Fault) {
    && |rules| == |was| && FaultMeans(was, names, cost, fault)
    && forall i :: 0 <= i < |was| ==> R.ChargedTo(was[i], rules[i], R.Hits(was[i], names), cost)
  }

  lemma CompleteMeans(rules: seq<RuleState>, names: seq<TicketRule>, cost: int)
    requires forall i :: 0 <= i < |rules| ==> 0 <= rules[i].used <= MAX_INT64
    ensures CompletionMeans(rules, CompleteRules(rules, names, cost), names, cost, CompletionFault(rules, names, cost))
  {
    hide FaultMeans, CompletionFault, R.ChargedTo, ChargeAll, R.Hits;
    CompletionFaultMeans(rules, names, cost);
    forall i | 0 <= i < |rules|
      ensures R.ChargedTo(rules[i], CompleteRules(rules, names, cost)[i], R.Hits(rules[i], names), cost)
    {
      R.ChargeMeans(rules[i], names, cost);
    }
  }

  predicate InRange(rules: seq<RuleState>) {
    forall i :: 0 <= i < |rules| ==> 0 <= rules[i].used <= MAX_INT64
  }

  lemma DecisionStep(rules: seq<RuleState>, n: nat, now: int)
    requires n < |rules|
    ensures Blocked(rules[..n + 1], now) <==> Blocked(rules[..n], now) || Exhausted(rules[n], now)
    ensures Unrecoverable(rules[..n + 1], now) <==>
      Unrecoverable(rules[..n], now) || (Exhausted(rules[n], now) && rules[n].def.kind.Total?)
    ensures BlockingViews(rules[..n + 1], now)
         == BlockingViews(rules[..n], now) + (if Exhausted(rules[n], now) then [ViewOf(rules[n], now)] else [])
    ensures var r, before := rules[n], LatestEnd(rules[..n], now);
            LatestEnd(rules[..n + 1], now)
            == if Exhausted(r, now) && !r.def.kind.Total? && r.endsAt.Some? && r.endsAt.value > before
               then r.endsAt.value else before
  {
    var all := rules[..n + 1];
    assert all[..n] == rules[..n] && all[n] == rules[n];
    assert forall i :: 0 <= i < n ==> all[i] == rules[..n][i];
  }

  // How one rule is judged.
  lemma JudgeRule(r: RuleState, now: int)
    ensures r.def.kind.Periodic? && (r.startedAt.None? || r.endsAt.None? || now >= r.endsAt.value) ==> !Exhausted(r, now)
    ensures !(r.def.kind.Periodic? && (r.startedAt.None? || r.endsAt.None? || now >= r.endsAt.value)) ==>
              && (Exhausted(r, now) <==> r.used >= r.def.limit)
              && (Exhausted(r, now) ==> ViewOf(r, now) == RuleView(r.def, r.used, 0, Spent, r.startedAt, r.endsAt, r.generation))
  {
  }

  class RuntimeRule {
    const definition: Rule
    var used: int
    var startedAt: Option<int>
    var endsAt: Option<int>
    var generation: nat
    var version: nat
    var dirty: bool

    ghost function View(): RuleState
      reads this
    {
      RuleState(definition, used, startedAt, endsAt, generation, version, dirty)
    }

    constructor (def: Rule)
      ensures View() == Fresh(def)
    {
      definition := def;
      used, startedAt, endsAt := 0, None, None;
      generation, version, dirty := 0, 1, false;
    }

    method Snapshot(key: nat) returns (s: RestoredState)
      ensures s == Capture(key, View()) && R.Saves(s, key, View())
    {
      s := RestoredState(key, definition.id, definition.revision, used, startedAt, endsAt, generation, version);
    }

    method AdvanceVersion()
      modifies this
      ensures View() == Touch(old(View()))
    {
      if version < MAX_UINT64 {
        version := version + 1;
      }
      dirty := true;
    }

    method CloneState(source: RuntimeRule)
      modifies this
      ensures View() == old(source.View()).(def := definition)
    {
      used, startedAt, endsAt := source.used, source.startedAt, source.endsAt;
      generation, version, dirty := source.generation, source.version, source.dirty;
    }

    method ApplyRestored(s: RestoredState) returns (ok: bool)
      requires ValidRestored(s)
      modifies this
      ensures ok == Applicable(definition, s)
      ensures ok ==> View() == Applied(definition, s).(dirty := old(dirty))
      ensures !ok ==> View() == old(View())
    {
      if definition.kind.Total? {
        if s.startedAt.Some? || s.endsAt.Some? || s.generation != 0 {
          return false;
        }
      } else if s.startedAt.None? {
        if s.used != 0 || s.generation != 0 {
          return false;
        }
      } else if s.generation == 0 || s.endsAt.value - s.startedAt.value != definition.period * 1000 {
        return false;
      }
      used, startedAt, endsAt := s.used, s.startedAt, s.endsAt;
      generation, version := s.generation, s.version;
      ok := true;
    }

    method ChargeCost(cost: int)
      modifies this
      ensures View() == Charge(old(View()), cost)
    {
      var total := used;
      if cost < 0 {
        total := MAX_INT64;
      } else if cost == 0 {
        return;
      } else if total > MAX_INT64 - cost {
        total := MAX_INT64;
      } else {
        total := total + cost;
      }
      if total == used {
        return;
      }
      used := total;
      AdvanceVersion();
    }

    method OpenIfInactive(now: int) returns (started: bool)
      modifies this
      ensures View() == OpenWindow(old(View()), now)
      ensures started == (definition.kind.Periodic? && Inactive(old(View()), now))
    {
      started := definition.kind.Periodic? && (startedAt.None? || endsAt.None? || now >= endsAt.value);
      if started {
        startedAt := Some(now);
        endsAt := Some(now + definition.period * 1000);
        used := 0;
        if generation < MAX_UINT64 {
          generation := generation + 1;
        }
        AdvanceVersion();
      }
    }
  }

  class AccessKeyEntry {
    const rules: seq<RuntimeRule>
    const byID: map<nat, RuntimeRule>
    ghost const cells: set<RuntimeRule>

    ghost function View(): seq<RuleState>
      requires Valid()
      reads cells
    {
      seq(|rules|, i requires 0 <= i < |rules| reads cells => rules[i].View())
    }

    // The list and the index hold the same rules, each once.
    ghost predicate Valid() {
      && (forall i :: 0 <= i < |rules| ==> rules[i] in cells)
      && (forall i, j :: 0 <= i < j < |rules| ==>
            rules[i] != rules[j] && rules[i].definition.id != rules[j].definition.id)
      && (forall i :: 0 <= i < |rules| ==>
            rules[i].definition.id in byID && byID[rules[i].definition.id] == rules[i])
      && (forall id :: id in byID ==>
            byID[id].definition.id == id && exists i :: 0 <= i < |rules| && rules[i] == byID[id])
    }

    constructor (defs: seq<Rule>)
      requires DistinctRuleIds(defs)
      ensures Valid() && fresh(cells)
      ensures |rules| == |defs|
      ensures forall i :: 0 <= i < |defs| ==> rules[i].View() == Fresh(defs[i])
    {
      var list: seq<RuntimeRule>, index: map<nat, RuntimeRule> := [], map[];
      ghost var owned: set<RuntimeRule> := {};
      for n := 0 to |defs|
        invariant |list| == n && fresh(owned)
        invariant forall i :: 0 <= i < n ==> list[i] in owned
        invariant forall i :: 0 <= i < n ==> list[i].View() == Fresh(defs[i])
        invariant forall i, j :: 0 <= i < j < n ==> list[i] != list[j]
        invariant forall i :: 0 <= i < n ==> defs[i].id in index && index[defs[i].id] == list[i]
        invariant forall id :: id in index ==> exists i :: 0 <= i < n && defs[i].id == id && index[id] == list[i]
      {
        var rule := new RuntimeRule(defs[n]);
        list := list + [rule];
        index := index[defs[n].id := rule];
        owned := owned + {rule};
      }
      rules, byID, cells := list, index, owned;
    }

    lemma ViewIs(all: seq<RuleState>)
      requires Valid() && all == View()
      ensures |all| == |rules| && forall i :: 0 <= i < |rules| ==> all[i] == rules[i].View()
    {
    }

    // The snapshots of the changed rules, as many as there is room for.
    method TakeDirty(key: nat, room: int) returns (list: seq<RestoredState>)
      requires Valid() && room != 0
      ensures list == Cut(DirtyOf(key, View()), room)
    {
      hide DirtyOf, Valid, View, Cut, QuotaModel.Capture;
      list := [];
      ghost var all := View();
      ViewIs(all);
      DirtyNone(key, all);
      for n := 0 to |rules|
        invariant list == DirtyOf(key, all[..n])
        invariant room > 0 ==> |list| < room
      {
        DirtyNext(key, all, n);
        if rules[n].dirty {
          var s := rules[n].Snapshot(key);
          list := list + [s];
          if room > 0 && |list| >= room {
            FullAfter(key, all, n + 1, room);
            return;
          }
        }
      }
      assert all[..|rules|] == all;
      NotFull(list, room);
    }

    // The decision, and what it means in fields.
    method Decision(now: int) returns (d: Decision)
      requires Valid()
      ensures d == Decide(View(), now) && R.DecisionMeans(View(), now, d)
    {
      hide R.DecisionMeans, Decide;
      R.DecideMeans(View(), now);
      d := Judge(now);
    }

    // Goes through the rules and collects what is in the way.
    method Judge(now: int) returns (d: Decision)
      requires Valid()
      ensures d == Decide(View(), now)
    {
      var allowed, recoverable, next := true, true, 0;
      var blocking := [];
      ghost var all := View();
      assert !Blocked(all[..0], now) && !Unrecoverable(all[..0], now);
      assert LatestEnd(all[..0], now) == 0 && BlockingViews(all[..0], now) == [];
      hide Valid, View, Blocked, Unrecoverable, LatestEnd, BlockingViews, Exhausted, ViewOf;
      ViewIs(all);
      for n := 0 to |rules|
        invariant allowed == !Blocked(all[..n], now)
        invariant recoverable == !Unrecoverable(all[..n], now)
        invariant recoverable ==> next == LatestEnd(all[..n], now)
        invariant blocking == BlockingViews(all[..n], now)
      {
        var rule := rules[n];
        DecisionStep(all, n, now);
        JudgeRule(all[n], now);
        if rule.definition.kind.Periodic?
           && (rule.startedAt.None? || rule.endsAt.None? || now >= rule.endsAt.value) {
          continue;
        }
        if rule.used >= rule.definition.limit {
          allowed := false;
          blocking := blocking + [RuleView(rule.definition, rule.used, 0, Spent,
                                           rule.startedAt, rule.endsAt, rule.generation)];
          if rule.definition.kind.Total? {
            recoverable := false;
          } else if recoverable && rule.endsAt.Some? && rule.endsAt.value > next {
            next := rule.endsAt.value;
          }
        }
      }
      assert all[..|rules|] == all;
      d := QuotaDecisions.Decision(
        allowed, recoverable,
        if !allowed && recoverable && next > 0 then Some(next) else None, blocking);
    }

    method OpenWindows(now: int)
      requires Valid()
      modifies cells
      ensures View() == OpenAll(old(View()), now)
    {
      ghost var before := View();
      for n := 0 to |rules|
        invariant forall i :: 0 <= i < n ==> rules[i].View() == OpenWindow(before[i], now)
        invariant forall i :: n <= i < |rules| ==> rules[i].View() == before[i]
      {
        var started := rules[n].OpenIfInactive(now);
      }
    }

    method Names() returns (names: seq<TicketRule>)
      requires Valid()
      ensures names == TicketRules(View())
    {
      names := [];
      for n := 0 to |rules|
        invariant names == TicketRules(View())[..n]
      {
        names := names + [TicketRule(rules[n].definition.id, rules[n].definition.revision, rules[n].generation)];
      }
    }

    method Admit(key: nat, now: int) returns (ticket: Ticket, d: Decision)
      requires Valid()
      modifies cells
      ensures View() == AdmitRules(old(View()), now)
      ensures ticket == AdmitTicket(key, old(View()), now)
      ensures d.allowed == !Blocked(old(View()), now)
      ensures !d.allowed ==> d == Decide(old(View()), now)
      ensures d.allowed <==> R.AllLetThrough(old(View()), now)
      ensures !d.allowed ==> R.DecisionMeans(old(View()), now, d)
      ensures R.AdmissionMeans(key, old(View()), View(), ticket, now)
    {
      R.AdmitMeans(key, View(), now);
      R.BlockedIsInTheWay(View(), now);
      hide R.AdmissionMeans, R.AllLetThrough, R.DecisionMeans;
      d := Decision(now);
      if !d.allowed {
        return Ticket(key, []), d;
      }
      OpenWindows(now);
      var names := Names();
      ticket := Ticket(key, names);
      d := QuotaDecisions.Decision(true, true, None, []);
    }

    method CompleteOne(t: TicketRule, cost: int) returns (overflow: bool, charged: bool)
      requires Valid()
      modifies cells
      ensures forall i :: 0 <= i < |rules| ==>
        rules[i].View() == if Matches(old(rules[i].View()), t) then Charge(old(rules[i].View()), cost)
                           else old(rules[i].View())
      ensures charged == AnyMatches(old(View()), t)
      ensures overflow == AnyOverflows(old(View()), t, cost)
    {
      if t.ruleId !in byID {
        return false, false;
      }
      var rule := byID[t.ruleId];
      if rule.definition.revision != t.revision
         || (rule.definition.kind.Periodic? && rule.generation != t.generation) {
        return false, false;
      }
      overflow, charged := cost > 0 && rule.used > MAX_INT64 - cost, true;
      ghost var n :| 0 <= n < |rules| && rules[n] == rule;
      assert Matches(View()[n], t) && Overflows(View()[n], t, cost) == overflow;
      rule.ChargeCost(cost);
    }

    method Complete(names: seq<TicketRule>, cost: int) returns (fault: Fault)
      requires Valid()
      modifies cells
      ensures View() == CompleteRules(old(View()), names, cost)
      ensures fault == CompletionFault(old(View()), names, cost)
      ensures InRange(old(View())) ==> CompletionMeans(old(View()), View(), names, cost, fault)
    {
      ghost var before := View();
      if InRange(before) {
        CompleteMeans(before, names, cost);
      }
      hide CompletionMeans;
      fault := NoFault;
      for n := 0 to |names|
        invariant forall i :: 0 <= i < |rules| ==> rules[i].View() == ChargeAll(before[i], names[..n], cost)
        invariant fault == CompletionFault(before, names[..n], cost)
      {
        assert names[..n + 1][..n] == names[..n];
        assert View() == CompleteRules(before, names[..n], cost);
        var overflow, charged := CompleteOne(names[n], cost);
        if charged && cost < 0 {
          fault := NegativeEstimate;
        } else if overflow && fault.NoFault? {
          fault := Overflow;
        }
      }
      assert names[..|names|] == names;
    }

    method Ack(ruleId: nat, revision: nat, version: nat)
      requires Valid()
      modifies cells
      ensures View() == AckRules(old(View()), ruleId, revision, version)
      ensures forall i :: 0 <= i < |rules| ==> R.AckedTo(old(View())[i], View()[i], ruleId, revision, version)
    {
      if ruleId in byID {
        var rule := byID[ruleId];
        if rule.definition.revision == revision && rule.version == version {
          rule.dirty := false;
        }
      }
    }
  }

  lemma FindByID(entry: AccessKeyEntry, id: nat)
    requires entry.Valid()
    ensures Find(entry.View(), id) == if id in entry.byID then Some(entry.byID[id].View()) else None
  {
    hide Find;
    var all := entry.View();
    assert DistinctIds(all);
    assert forall i :: 0 <= i < |all| ==> all[i].def.id in entry.byID;
    if id in entry.byID {
      var i :| 0 <= i < |entry.rules| && entry.rules[i] == entry.byID[id];
      assert all[i] == entry.byID[id].View() && all[i].def.id == id;
      FindIsThatRule(all, i);
    }
  }

  method CarryRule(rule: RuntimeRule, current: AccessKeyEntry, ghost prev: seq<RuleState>) returns (ok: bool)
    requires current.Valid() && rule.View() == Fresh(rule.definition)
    requires rule !in current.cells && current.View() == prev
    modifies rule
    ensures current.View() == prev
    ensures ok == !Conflicts(rule.definition, prev)
    ensures ok ==> rule.View() == Carry(rule.definition, prev)
  {
    FindByID(current, rule.definition.id);
    if rule.definition.id !in current.byID {
      return true;
    }
    var previous := current.byID[rule.definition.id];
    if previous.definition.revision != rule.definition.revision {
      return true;
    }
    if previous.definition.kind != rule.definition.kind || previous.definition.period != rule.definition.period {
      return false;
    }
    rule.CloneState(previous);
    ok := true;
  }

  // A new entry for the definitions that takes over the state of rules it still has.
  method CarryEntry(defs: seq<Rule>, current: AccessKeyEntry, ghost prev: seq<RuleState>)
    returns (ok: bool, entry: AccessKeyEntry)
    requires DistinctRuleIds(defs) && current.Valid() && current.View() == prev
    ensures fresh(entry) && fresh(entry.cells) && entry.Valid()
    ensures ok == Compatible(defs, prev)
    ensures ok ==> entry.View() == CarryAll(defs, prev)
  {
    hide QuotaModel.Carry, QuotaModel.Conflicts;
    entry := new AccessKeyEntry(defs);
    for n := 0 to |defs|
      invariant current.View() == prev
      invariant forall i :: 0 <= i < n ==> !Conflicts(defs[i], prev)
      invariant forall i :: 0 <= i < n ==> entry.rules[i].View() == Carry(defs[i], prev)
      invariant forall i :: n <= i < |defs| ==> entry.rules[i].View() == Fresh(defs[i])
    {
      assert entry.rules[n].definition == defs[n];
      var carried := CarryRule(entry.rules[n], current, prev);
      if !carried {
        return false, entry;
      }
      assert !Conflicts(defs[n], prev) && entry.rules[n].View() == Carry(defs[n], prev);
    }
    ok := true;
  }

  // A new entry whose rules take their restored state.
  method RestoreEntry(key: nat, defs: seq<Rule>, restored: map<nat, RestoredState>)
    returns (ok: bool, entry: AccessKeyEntry)
    requires DistinctRuleIds(defs)
    requires forall id :: id in restored ==> ValidRestored(restored[id])
    ensures fresh(entry) && fresh(entry.cells) && entry.Valid()
    ensures ok <==> AllRestorable(restored, key, defs)
    ensures ok ==> entry.View() == RestoredRules(restored, defs)
  {
    entry := new AccessKeyEntry(defs);
    for n := 0 to |entry.rules|
      invariant forall i :: 0 <= i < n ==>
        Restorable(restored, key, defs[i]) && entry.rules[i].View() == RestoredRule(restored, defs[i])
      invariant forall i :: n <= i < |defs| ==> entry.rules[i].View() == Fresh(defs[i])
    {
      var rule := entry.rules[n];
      if rule.definition.id !in restored {
        assert !Restorable(restored, key, defs[n]);
        return false, entry;
      }
      var state := restored[rule.definition.id];
      if state.key != key || state.revision != rule.definition.revision {
        assert !Restorable(restored, key, defs[n]);
        return false, entry;
      }
      var applied := rule.ApplyRestored(state);
      if !applied {
        assert !Restorable(restored, key, defs[n]);
        return false, entry;
      }
    }
    ok := true;
  }

  class Runtime {
    var entries: map<nat, AccessKeyEntry>
    var restored: map<nat, RestoredState>
    var restorePending: bool

    ghost var cells: set<RuntimeRule>

    // Entries do not share rules, and all rules are among `owned`.
    static ghost predicate Separated(table: map<nat, AccessKeyEntry>, owned: set<RuntimeRule>) {
      && (forall k :: k in table ==> k != 0 && table[k].Valid() && table[k].cells <= owned)
      && (forall k, l :: k in table && l in table && k != l ==> table[k].cells !! table[l].cells)
    }

    static ghost function TableView(table: map<nat, AccessKeyEntry>, owned: set<RuntimeRule>): Entries
      requires Separated(table, owned)
      reads owned
    {
      map k | k in table :: table[k].View()
    }

    ghost predicate Valid()
      reads this
    {
      Separated(entries, cells) && (restorePending ==> QuotaLaws.Handed(restored))
    }

    ghost function Model(): Entries
      requires Valid()
      reads this, cells
    {
      TableView(entries, cells)
    }

    twostate lemma OthersKept(key: nat)
      requires old(Valid()) && key in entries && unchanged(this)
      requires forall r: RuntimeRule :: r in cells && r !in entries[key].cells ==> unchanged(r)
      ensures Valid() && Model() == old(Model())[key := entries[key].View()]
    {
      forall k | k in entries && k != key ensures entries[k].View() == old(entries[k].View()) {
      }
    }

    constructor ()
      ensures Valid() && Model() == map[] && !restorePending
    {
      entries, restored, restorePending, cells := map[], map[], false, {};
    }

    method Check(key: nat, now: int) returns (d: Decision)
      requires Valid()
      ensures d == if key in Model() && key != 0 then Decide(Model()[key], now)
                   else QuotaDecisions.Decision(true, true, None, [])
      ensures key in Model() ==> R.DecisionMeans(Model()[key], now, d)
      ensures d.allowed <==> (key in Model() ==>
                forall i :: 0 <= i < |Model()[key]| ==>
                  var r := Model()[key][i];
                  || r.used < r.def.limit
                  || (r.def.kind == Periodic && (r.startedAt == None || r.endsAt == None || now >= r.endsAt.value)))
    {
      if key == 0 || key !in entries {
        return QuotaDecisions.Decision(true, true, None, []);
      }
      d := entries[key].Decision(now);
    }

    method Admit(key: nat, now: int) returns (ticket: Ticket, d: Decision)
      requires Valid()
      modifies cells
      ensures Valid() && Model() == AdmitEntries(old(Model()), key, now)
      ensures ticket == if key in old(Model()) then AdmitTicket(key, old(Model())[key], now) else Ticket(key, [])
      ensures d.allowed == !(key in old(Model()) && Blocked(old(Model())[key], now))
      ensures d.allowed <==> (key in old(Model()) ==>
                forall i :: 0 <= i < |old(Model())[key]| ==>
                  var r := old(Model())[key][i];
                  || r.used < r.def.limit
                  || (r.def.kind == Periodic && (r.startedAt == None || r.endsAt == None || now >= r.endsAt.value)))
      ensures !d.allowed ==> R.DecisionMeans(old(Model())[key], now, d)
      ensures key in old(Model()) ==> key in Model() && R.AdmissionMeans(key, old(Model())[key], Model()[key], ticket, now)
      ensures key in old(Model()) && d.allowed ==>
                && |ticket.rules| == |Model()[key]|
                && forall i :: 0 <= i < |Model()[key]| ==>
                     && ticket.rules[i].ruleId == Model()[key][i].def.id
                     && ticket.rules[i].revision == Model()[key][i].def.revision
                     && ticket.rules[i].generation == Model()[key][i].generation
      ensures forall k :: k in old(Model()) && k != key ==> k in Model() && Model()[k] == old(Model())[k]
    {
      if key == 0 || key !in entries {
        return Ticket(key, []), QuotaDecisions.Decision(true, true, None, []);
      }
      ticket, d := entries[key].Admit(key, now);
      OthersKept(key);
    }

    method Complete(ticket: Ticket, cost: int) returns (fault: Fault)
      requires Valid()
      modifies cells
      ensures Valid() && Model() == CompleteEntries(old(Model()), ticket, cost)
      ensures fault == if ticket.key in old(Model())
                       then CompletionFault(old(Model())[ticket.key], ticket.rules, cost) else NoFault
      ensures ticket.key in old(Model()) && InRange(old(Model())[ticket.key]) ==>
                && ticket.key in Model()
                && CompletionMeans(old(Model())[ticket.key], Model()[ticket.key], ticket.rules, cost, fault)
      ensures forall k :: k in old(Model()) && k != ticket.key ==> k in Model() && Model()[k] == old(Model())[k]
    {
      if ticket.key == 0 || |ticket.rules| == 0 || ticket.key !in entries {
        assert ticket.rules == [] ==> ticket.key in Model() ==>
          CompleteRules(Model()[ticket.key], [], cost) == Model()[ticket.key];
        if ticket.key in Model() && InRange(Model()[ticket.key]) {
          CompleteMeans(Model()[ticket.key], ticket.rules, cost);
        }
        return NoFault;
      }
      fault := entries[ticket.key].Complete(ticket.rules, cost);
      OthersKept(ticket.key);
    }

    method Ack(key: nat, ruleId: nat, revision: nat, version: nat)
      requires Valid()
      modifies cells
      ensures Valid() && Model() == AckEntries(old(Model()), key, ruleId, revision, version)
      ensures key in old(Model()) ==>
                && key in Model() && |Model()[key]| == |old(Model())[key]|
                && forall i :: 0 <= i < |Model()[key]| ==>
                     R.AckedTo(old(Model())[key][i], Model()[key][i], ruleId, revision, version)
      ensures forall k :: k in old(Model()) && k != key ==> k in Model() && Model()[k] == old(Model())[k]
    {
      if key != 0 && key in entries {
        entries[key].Ack(ruleId, revision, version);
        OthersKept(key);
      }
    }
  
    // One entry of the next table.
    method NextEntry(key: nat, defs: seq<Rule>, ghost model: Entries) returns (ok: bool, entry: AccessKeyEntry)
      requires Valid() && DistinctRuleIds(defs) && model == Model()
      ensures fresh(entry) && fresh(entry.cells) && entry.Valid()
      ensures ok == Compatible(defs, RulesOf(model, key))
      ensures ok ==> entry.View() == CarryAll(defs, RulesOf(model, key))
      ensures Model() == model
    {
      if key in entries {
        ok, entry := CarryEntry(defs, entries[key], model[key]);
      } else {
        entry := new AccessKeyEntry(defs);
        ok := true;
      }
    }

    static lemma SeparatedAdd(table: map<nat, AccessKeyEntry>, owned: set<RuntimeRule>, key: nat, entry: AccessKeyEntry)
      requires Separated(table, owned) && key !in table && key != 0
      requires entry.Valid() && entry.cells !! owned
      ensures Separated(table[key := entry], owned + entry.cells)
    {
    }

    static lemma TableIsReconciled(
      next: map<nat, AccessKeyEntry>, owned: set<RuntimeRule>, model: Entries, defs: Definitions)
      requires Separated(next, owned) && next.Keys == defs.Keys
      requires forall k :: k in next ==> next[k].View() == CarryAll(defs[k], RulesOf(model, k))
      requires forall k :: k in next ==> Compatible(defs[k], RulesOf(model, k))
      ensures !ReconcileConflict(model, defs)
      ensures TableView(next, owned) == Reconciled(model, defs)
    {
    }

    method NextTable(defs: Definitions, ghost model: Entries)
      returns (ok: bool, next: map<nat, AccessKeyEntry>, ghost owned: set<RuntimeRule>)
      requires Valid() && model == Model()
      requires forall k :: k in defs ==> k != 0 && DistinctRuleIds(defs[k])
      ensures ok == !ReconcileConflict(model, defs)
      ensures ok ==> Separated(next, owned) && TableView(next, owned) == Reconciled(model, defs)
      ensures Model() == model
    {
      hide QuotaModel.Reconciled, QuotaModel.CarryAll, QuotaModel.Compatible, QuotaModel.DistinctRuleIds;
      var todo := defs.Keys;
      next, owned := map[], {};
      while todo != {}
        invariant Model() == model && todo <= defs.Keys && next.Keys == defs.Keys - todo
        invariant Separated(next, owned) && fresh(owned)
        invariant forall k :: k in next ==> next[k].View() == CarryAll(defs[k], RulesOf(model, k))
        invariant forall k :: k in next ==> Compatible(defs[k], RulesOf(model, k))
      {
        var k :| k in todo;
        var built, entry := NextEntry(k, defs[k], model);
        if !built {
          return false, next, owned;
        }
        SeparatedAdd(next, owned, k, entry);
        next, owned := next[k := entry], owned + entry.cells;
        todo := todo - {k};
      }
      TableIsReconciled(next, owned, model, defs);
      ok := true;
    }

    static lemma NormalizedDistinct(defs: Definitions)
      requires ValidDefinitions(defs)
      ensures forall k :: k in Normalize(defs) ==> k != 0 && DistinctRuleIds(Normalize(defs)[k])
    {
      QuotaRuns.NormalizedRules(defs);
      assert forall k :: k in Normalize(defs) ==> k in defs;
    }

    static lemma OwnedMeans(defs: Definitions, id: nat)
      ensures Owned(defs, id) <==> id in QuotaValidate.OwnedBy(defs, defs.Keys)
    {
      if Owned(defs, id) {
        var k, i :| k in defs && 0 <= i < |defs[k]| && defs[k][i].id == id;
        QuotaValidate.TakenMeans(defs[k]);
        assert id in QuotaValidate.TakenIds(defs[k]);
      }
      if id in QuotaValidate.OwnedBy(defs, defs.Keys) {
        var k :| k in defs && id in QuotaValidate.TakenIds(defs[k]);
        QuotaValidate.TakenMeans(defs[k]);
        var i :| 0 <= i < |defs[k]| && defs[k][i].id == id;
      }
    }

    static lemma NothingOwned(defs: Definitions)
      ensures QuotaValidate.OwnedBy(defs, {}) == {}
    {
    }

    static lemma TableIsRestored(
      next: map<nat, AccessKeyEntry>, owned: set<RuntimeRule>, states: map<nat, RestoredState>, defs: Definitions)
      requires Separated(next, owned) && next.Keys == defs.Keys
      requires forall k :: k in next ==> next[k].View() == RestoredRules(states, defs[k])
      ensures TableView(next, owned) == AllRestored(defs, states)
    {
      hide QuotaModel.RestoredRules;
    }

    // The table after a restore: every rule takes its state; the states left over remain.
    method RestoredTable(defs: Definitions, states: map<nat, RestoredState>)
      returns (ok: bool, next: map<nat, AccessKeyEntry>, ghost owned: set<RuntimeRule>, remaining: set<nat>)
      requires forall k :: k in defs ==> k != 0 && DistinctRuleIds(defs[k])
      requires forall id :: id in states ==> ValidRestored(states[id])
      ensures ok <==> forall k :: k in defs ==> AllRestorable(states, k, defs[k])
      ensures ok ==> Separated(next, owned) && TableView(next, owned) == AllRestored(defs, states)
      ensures ok ==> remaining == states.Keys - QuotaValidate.OwnedBy(defs, defs.Keys)
    {
      hide QuotaModel.RestoredRules, QuotaModel.AllRestorable, QuotaModel.ValidRestored, QuotaModel.DistinctRuleIds;
      hide QuotaValidate.OwnedBy, QuotaValidate.TakenIds, QuotaModel.AllRestored;
      var todo := defs.Keys;
      remaining := states.Keys;
      next, owned := map[], {};
      assert next.Keys == {};
      NothingOwned(defs);
      while todo != {}
        invariant todo <= defs.Keys && next.Keys == defs.Keys - todo
        invariant Separated(next, owned) && fresh(owned)
        invariant forall k :: k in next ==> next[k].View() == RestoredRules(states, defs[k])
        invariant forall k :: k in next ==> AllRestorable(states, k, defs[k])
        invariant remaining == states.Keys - QuotaValidate.OwnedBy(defs, next.Keys)
      {
        var k :| k in todo;
        var built, entry := RestoreEntry(k, defs[k], states);
        if !built {
          return false, next, owned, remaining;
        }
        SeparatedAdd(next, owned, k, entry);
        QuotaValidate.OwnedStep(defs, next.Keys, k);
        assert next[k := entry].Keys == next.Keys + {k};
        remaining := remaining - QuotaValidate.TakenIds(defs[k]);
        next, owned := next[k := entry], owned + entry.cells;
        todo := todo - {k};
      }
      TableIsRestored(next, owned, states, defs);
      ok := true;
    }

    static lemma NothingLeftOver(defs: Definitions, restored: map<nat, RestoredState>)
      ensures restored.Keys - QuotaValidate.OwnedBy(defs, defs.Keys) == {} <==>
        forall id :: id in restored ==> Owned(defs, id)
    {
      forall id | id in restored
        ensures Owned(defs, id) <==> id in QuotaValidate.OwnedBy(defs, defs.Keys)
      {
        OwnedMeans(defs, id);
      }
      if forall id :: id in restored ==> Owned(defs, id) {
        assert restored.Keys <= QuotaValidate.OwnedBy(defs, defs.Keys);
      } else {
        var id :| id in restored && !Owned(defs, id);
        assert id in restored.Keys - QuotaValidate.OwnedBy(defs, defs.Keys);
      }
    }

    static lemma ReadableList(states: seq<RestoredState>)
      ensures RestoreMap(states).Some? <==>
                && (forall i :: 0 <= i < |states| ==> R.Readable(states[i]))
                && (forall i, j :: 0 <= i < j < |states| ==> states[i].ruleId != states[j].ruleId)
      ensures RestoreMap(states).Some? ==>
                && (forall i :: 0 <= i < |states| ==>
                      states[i].ruleId in RestoreMap(states).value && RestoreMap(states).value[states[i].ruleId] == states[i])
                && (forall id :: id in RestoreMap(states).value ==> RestoreMap(states).value[id] in states)
    {
      hide R.Readable, ValidRestored, RestoreMap;
      forall i | 0 <= i < |states| ensures ValidRestored(states[i]) <==> R.Readable(states[i]) {
        R.ReadableMeans(states[i]);
      }
      QuotaCheckpoint.RestoreMapContents(states);
    }

    method Restore(states: seq<RestoredState>) returns (ok: bool)
      requires Valid()
      modifies this`restored, this`restorePending
      ensures Valid()
      ensures ok == (RestoreMap(states).Some? && !old(restorePending) && old(Model()) == map[])
      ensures ok <==>
                && (forall i :: 0 <= i < |states| ==> R.Readable(states[i]))
                && (forall i, j :: 0 <= i < j < |states| ==> states[i].ruleId != states[j].ruleId)
                && !old(restorePending) && old(Model()) == map[]
      ensures ok ==> forall i :: 0 <= i < |states| ==> states[i].ruleId in restored && restored[states[i].ruleId] == states[i]
      ensures ok ==> forall id :: id in restored ==> restored[id] in states
      ensures ok ==> restorePending && restored == RestoreMap(states).value
      ensures !ok ==> restorePending == old(restorePending) && restored == old(restored)
      ensures Model() == old(Model())
    {
      hide R.Readable, RestoreMap, Separated, TableView;
      ReadableList(states);
      var byRule := ReadStates(states);
      assert Model() == map[] <==> entries == map[] by { SameKeys(); }
      if byRule.None? || restorePending || entries != map[] {
        return false;
      }
      assert QuotaLaws.Handed(byRule.value) by { QuotaLaws.RestoreMapHands(states); }
      restored, restorePending := byRule.value, true;
      ok := true;
    }

    lemma SameKeys()
      requires Valid()
      ensures Model().Keys == entries.Keys && (Model() == map[] <==> entries == map[])
    {
      assert Model().Keys == entries.Keys;
    }

    // The states by rule, unless one cannot be read or a rule appears twice.
    static method ReadStates(states: seq<RestoredState>) returns (r: Option<map<nat, RestoredState>>)
      ensures r == RestoreMap(states)
    {
      var byRule: map<nat, RestoredState> := map[];
      for n := 0 to |states|
        invariant RestoreMap(states[..n]) == Some(byRule)
      {
        assert states[..n + 1][..n] == states[..n];
        if !QuotaModel.ValidRestored(states[n]) || states[n].ruleId in byRule {
          RestoreMapPrefix(states, n + 1);
          return None;
        }
        byRule := byRule[states[n].ruleId := states[n]];
      }
      assert states[..|states|] == states;
      return Some(byRule);
    }

    static lemma {:induction false} RestoreMapPrefix(states: seq<RestoredState>, n: nat)
      requires n <= |states| && RestoreMap(states[..n]).None?
      ensures RestoreMap(states).None?
      decreases |states| - n
    {
      if n == |states| {
        assert states[..n] == states;
      } else {
        assert states[..n + 1][..n] == states[..n];
        RestoreMapPrefix(states, n + 1);
      }
    }

    static lemma RestoredIs(defs: Definitions, states: map<nat, RestoredState>, built: bool, remaining: set<nat>)
      requires built <==> forall k :: k in defs ==> AllRestorable(states, k, defs[k])
      requires built ==> remaining == states.Keys - QuotaValidate.OwnedBy(defs, defs.Keys)
      ensures RestoredEntries(defs, states) ==
              if built && remaining == {} then Some(AllRestored(defs, states)) else None
    {
      NothingLeftOver(defs, states);
    }

    // Puts a table in place of the current one.
    method Adopt(next: map<nat, AccessKeyEntry>, ghost owned: set<RuntimeRule>)
      requires Valid() && Separated(next, owned)
      modifies this`entries, this`cells
      ensures Valid() && Model() == TableView(next, owned)
    {
      hide Separated, TableView;
      entries, cells := next, owned;
    }

    method InstallRestored(defs: Definitions) returns (ok: bool)
      requires Valid() && restorePending
      requires forall k :: k in defs ==> k != 0 && DistinctRuleIds(defs[k])
      modifies this
      ensures Valid() && restorePending == !ok
      ensures ok == RestoredEntries(defs, old(restored)).Some?
      ensures Model() == (if ok then RestoredEntries(defs, old(restored)).value else old(Model()))
    {
      hide QuotaModel.RestoredEntries, QuotaModel.AllRestored, QuotaModel.AllRestorable, QuotaModel.DistinctRuleIds;
      hide QuotaValidate.OwnedBy, QuotaModel.ValidRestored, Separated, TableView;
      var built, next, owned, remaining := RestoredTable(defs, restored);
      RestoredIs(defs, restored, built, remaining);
      if !built || remaining != {} {
        return false;
      }
      Adopt(next, owned);
      restored, restorePending := map[], false;
      ok := true;
    }

    method InstallNext(defs: Definitions, ghost model: Entries) returns (ok: bool)
      requires Valid() && model == Model()
      requires forall k :: k in defs ==> k != 0 && DistinctRuleIds(defs[k])
      modifies this`entries, this`cells
      ensures Valid()
      ensures ok == !ReconcileConflict(model, defs)
      ensures Model() == if ok then Reconciled(model, defs) else model
    {
      hide QuotaModel.Reconciled, QuotaModel.ReconcileConflict, QuotaModel.DistinctRuleIds, Separated, TableView;
      var next;
      ghost var owned;
      ok, next, owned := NextTable(defs, model);
      if !ok {
        return;
      }
      Adopt(next, owned);
    }

    // The first table after a restore, or the carried one; `defs` is normalised.
    static ghost function Installed(pending: bool, states: map<nat, RestoredState>, model: Entries, defs: Definitions)
      : Option<Entries>
    {
      if pending then RestoredEntries(defs, states)
      else if ReconcileConflict(model, defs) then None
      else Some(Reconciled(model, defs))
    }

    lemma ModelDistinct()
      requires Valid()
      ensures forall k :: k in Model() ==> DistinctIds(Model()[k])
    {
    }

    // What is installed, in fields.
    static lemma InstalledMeans(pending: bool, states: map<nat, RestoredState>, model: Entries, defs: Definitions)
      requires pending ==> QuotaLaws.Handed(states)
      requires forall k :: k in model ==> DistinctIds(model[k])
      ensures var r := Installed(pending, states, model, Normalize(defs));
              ValidDefinitions(defs) ==>
                && (r.Some? <==> if pending then R.RowsMatch(defs, states) else !R.Clashes(defs, model))
                && (r.Some? && pending ==> R.RestorationMeans(defs, states, r.value))
                && (r.Some? && !pending ==> R.ReconfigurationMeans(model, defs, r.value))
    {
      hide QuotaModel.ValidDefinitions, QuotaModel.Normalize, QuotaModel.Reconciled, QuotaModel.ReconcileConflict;
      hide QuotaModel.RestoredEntries, QuotaLaws.Handed, DistinctIds;
      if ValidDefinitions(defs) {
        if pending {
          QuotaLaws.RestoreMeans(defs, states);
        } else {
          QuotaLaws.ReconcileMeans(model, defs);
        }
      }
    }

    // Without a pending restore, what is installed is the reconfiguration step of the run lemmas.
    static lemma ReconcileIsStep(states: map<nat, RestoredState>, model: Entries, defs: Definitions)
      ensures var r := Installed(false, states, model, Normalize(defs));
              QuotaRuns.StepEntries(QuotaRuns.World(model, {}, map[]), QuotaRuns.Reconfigure(defs)) ==
              if ValidDefinitions(defs) && r.Some? then r.value else model
    {
      hide QuotaModel.ValidDefinitions, QuotaModel.Normalize, QuotaModel.Reconciled, QuotaModel.ReconcileConflict;
      hide QuotaModel.RestoredEntries;
    }

    method Install(defs: Definitions) returns (ok: bool)
      requires Valid()
      requires forall k :: k in defs ==> k != 0 && DistinctRuleIds(defs[k])
      modifies this
      ensures Valid() && restorePending == (old(restorePending) && !ok)
      ensures var r := Installed(old(restorePending), old(restored), old(Model()), defs);
              ok == r.Some? && Model() == if ok then r.value else old(Model())
    {
      hide QuotaModel.RestoredEntries, QuotaModel.ReconcileConflict, QuotaModel.Reconciled, QuotaModel.DistinctRuleIds;
      hide Separated, TableView;
      if restorePending {
        ok := InstallRestored(defs);
      } else {
        ok := InstallNext(defs, Model());
      }
    }

    method Reconcile(defs: Definitions) returns (ok: bool)
      requires Valid()
      modifies this
      ensures Valid() && restorePending == (old(restorePending) && !ok)
      ensures var r := Installed(old(restorePending), old(restored), old(Model()), Normalize(defs));
              && ok == (ValidDefinitions(defs) && r.Some?)
              && Model() == if ok then r.value else old(Model())
      ensures !old(restorePending) ==>
                Model() == QuotaRuns.StepEntries(QuotaRuns.World(old(Model()), {}, map[]), QuotaRuns.Reconfigure(defs))
      ensures ok <==> R.SoundDefinitions(defs) &&
                      if old(restorePending) then R.RowsMatch(defs, old(restored)) else !R.Clashes(defs, old(Model()))
      ensures ok && old(restorePending) ==> R.RestorationMeans(defs, old(restored), Model())
      ensures ok && !old(restorePending) ==> R.ReconfigurationMeans(old(Model()), defs, Model())
      ensures !ok ==> Model() == old(Model())
    {
      hide QuotaModel.ValidDefinitions, QuotaModel.Normalize, QuotaModel.Reconciled, QuotaModel.ReconcileConflict;
      hide QuotaModel.RestoredEntries;
      R.ValidDefinitionsMeans(defs);
      hide R.SoundDefinitions, R.RowsMatch, R.Clashes, R.RestorationMeans, R.ReconfigurationMeans, QuotaLaws.Handed;
      ReconcileIsStep(restored, Model(), defs);
      InstalledMeans(restorePending, restored, Model(), defs) by { ModelDistinct(); }
      var normalized := QuotaValidate.NormalizeDefinitions(defs);
      if normalized.None? {
        return false;
      }
      NormalizedDistinct(defs);
      ok := Install(normalized.value);
    }

    // The snapshots of the changed rules, cut at the limit.
    method DirtySnapshots(limit: int) returns (snapshots: seq<RestoredState>, ghost at: seq<Place>)
      requires Valid()
      ensures SnapshotsMean(Model(), limit, at, snapshots)
    {
      hide SnapshotsMean, Lists, DirtyIn, PlacesIn, Valid;
      ghost var keys;
      snapshots, keys := TakeSnapshots(limit);
      at := PlacesIn(Model(), keys);
      SnapshotsAreComplete(Model(), keys, limit);
    }

    method TakeSnapshots(limit: int) returns (snapshots: seq<RestoredState>, ghost keys: seq<nat>)
      requires Valid()
      ensures Lists(keys, Model().Keys) && snapshots == Cut(DirtyIn(Model(), keys), limit)
    {
      hide Lists, DirtyIn, DirtyOf;
      assert Model().Keys == entries.Keys;
      var ids := SortKeys(entries.Keys);
      keys, snapshots := ids, [];
      if limit == 0 {
        return;
      }
      Listed(ids);
      assert DirtyIn(Model(), ids[..0]) == [] by { NoKeys(Model(), ids); }
      for n := 0 to |ids|
        invariant snapshots == DirtyIn(Model(), ids[..n])
        invariant limit > 0 ==> |snapshots| < limit
      {
        var list := entries[ids[n]].TakeDirty(ids[n], if limit < 0 then limit else limit - |snapshots|);
        SnapshotsNext(Model(), ids, n, limit);
        CutInRoom(snapshots, DirtyOf(ids[n], Model()[ids[n]]), limit);
        snapshots := snapshots + list;
        if limit > 0 && |snapshots| >= limit {
          return;
        }
      }
      assert ids[..|ids|] == ids;
    }

    // The keys listed are keys of the table.
    lemma Listed(keys: seq<nat>)
      requires Lists(keys, entries.Keys)
      ensures forall i :: 0 <= i < |keys| ==> keys[i] in entries
    {
    }
  }

  lemma NoKeys(entries: Entries, keys: seq<nat>)
    ensures DirtyIn(entries, keys[..0]) == []
  {
  }

  lemma SnapshotsNext(entries: Entries, keys: seq<nat>, n: nat, limit: int)
    requires n < |keys|
    ensures DirtyIn(entries, keys[..n + 1]) == DirtyIn(entries, keys[..n]) + DirtyOf(keys[n], RulesOf(entries, keys[n]))
    ensures limit > 0 && |DirtyIn(entries, keys[..n + 1])| >= limit ==>
              Cut(DirtyIn(entries, keys), limit) == Cut(DirtyIn(entries, keys[..n + 1]), limit)
  {
    assert keys[..n + 1][..n] == keys[..n];
    DirtyKeysPrefix(entries, keys, n + 1);
    if limit > 0 {
      CutAtPrefix(DirtyIn(entries, keys), DirtyIn(entries, keys[..n + 1]), limit);
    }
  }
}
