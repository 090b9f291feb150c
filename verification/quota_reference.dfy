/**
  What the runtime's operations do, written out in the fields of the rules: the reference that the
  step functions are compared with.
*/
module QuotaReference {
  import opened Wrappers
  import opened QuotaModel
  import opened QuotaDecisions

  // ---- decisions -------------------------------------------------------------------

  // No window is running: none was opened, or the last one has ended.
  predicate NoWindow(r: RuleState, now: int) {
    r.startedAt == None || r.endsAt == None || now >= r.endsAt.value
  }

  // The rule lets a request through: there is something left, or a new window may begin.
  predicate LetsThrough(r: RuleState, now: int) {
    r.used < r.def.limit || (r.def.kind == Periodic && NoWindow(r, now))
  }

  predicate AllLetThrough(rules: seq<RuleState>, now: int) {
    forall i :: 0 <= i < |rules| ==> LetsThrough(rules[i], now)
  }

  // What is reported of a rule that is in the way: all is used, nothing remains.
  predicate Reports(v: RuleView, r: RuleState) {
    && v.rule == r.def && v.used == r.used && v.remaining == 0 && v.status == Spent
    && v.startedAt == r.startedAt && v.endsAt == r.endsAt && v.generation == r.generation
  }

  // The report lists exactly the rules in the way, in their order.
  ghost predicate ReportsAll(rules: seq<RuleState>, now: int, views: seq<RuleView>, at: seq<nat>) {
    && |at| == |views|
    && (forall m, n :: 0 <= m < n < |at| ==> at[m] < at[n])
    && (forall m :: 0 <= m < |at| ==> at[m] < |rules| && !LetsThrough(rules[at[m]], now) && Reports(views[m], rules[at[m]]))
    && (forall i :: 0 <= i < |rules| && !LetsThrough(rules[i], now) ==> i in at)
  }

  // The time to come back: the last end of a window that is in the way.
  predicate ComesBack(rules: seq<RuleState>, now: int, next: Option<int>) {
    && (next.Some? ==>
          && next.value > 0
          && (exists i :: 0 <= i < |rules| && !LetsThrough(rules[i], now) && rules[i].endsAt == next)
          && (forall i :: 0 <= i < |rules| && !LetsThrough(rules[i], now) && rules[i].endsAt.Some? ==>
                rules[i].endsAt.value <= next.value))
    && (next.None? ==>
          forall i :: 0 <= i < |rules| && !LetsThrough(rules[i], now) && rules[i].endsAt.Some? ==> rules[i].endsAt.value <= 0)
  }

  // No rule in the way counts for ever.
  predicate Recovers(rules: seq<RuleState>, now: int) {
    forall i :: 0 <= i < |rules| && !LetsThrough(rules[i], now) ==> rules[i].def.kind != Total
  }

  ghost predicate DecisionMeans(rules: seq<RuleState>, now: int, d: Decision) {
    && (d.allowed <==> AllLetThrough(rules, now))
    && (d.recoverable <==> Recovers(rules, now))
    && (d.allowed || !d.recoverable ==> d.next == None)
    && (!d.allowed && d.recoverable ==> ComesBack(rules, now, d.next))
    && exists at :: ReportsAll(rules, now, d.blocking, at)
  }

  lemma ExhaustedIsInTheWay(r: RuleState, now: int)
    ensures Exhausted(r, now) <==> !LetsThrough(r, now)
    ensures Exhausted(r, now) ==> Reports(ViewOf(r, now), r)
  {
  }

  lemma BlockedIsInTheWay(rules: seq<RuleState>, now: int)
    ensures Blocked(rules, now) <==> !AllLetThrough(rules, now)
    ensures Unrecoverable(rules, now) <==> !Recovers(rules, now)
  {
    forall i | 0 <= i < |rules| ensures Exhausted(rules[i], now) <==> !LetsThrough(rules[i], now) {
      ExhaustedIsInTheWay(rules[i], now);
    }
  }

  lemma ReportNext(rules: seq<RuleState>, now: int, views: seq<RuleView>, at: seq<nat>, n: nat, v: RuleView)
    requires n + 1 == |rules| && ReportsAll(rules[..n], now, views, at)
    ensures LetsThrough(rules[n], now) ==> ReportsAll(rules, now, views, at)
    ensures !LetsThrough(rules[n], now) && Reports(v, rules[n]) ==> ReportsAll(rules, now, views + [v], at + [n])
  {
    hide LetsThrough, Reports;
    var init, next := rules[..n], at + [n];
    assert forall i :: 0 <= i < n ==> init[i] == rules[i];
    assert next[|at|] == n && forall m :: 0 <= m < |at| ==> next[m] == at[m];
    forall i | 0 <= i < n && !LetsThrough(rules[i], now) ensures i in at && i in next {
      assert !LetsThrough(init[i], now);
    }
  }

  lemma {:induction false} ViewsReport(rules: seq<RuleState>, now: int) returns (at: seq<nat>)
    ensures ReportsAll(rules, now, BlockingViews(rules, now), at)
    decreases |rules|
  {
    if rules == [] {
      at := [];
    } else {
      var n := |rules| - 1;
      at := ViewsReport(rules[..n], now);
      ExhaustedIsInTheWay(rules[n], now);
      ReportNext(rules, now, BlockingViews(rules[..n], now), at, n, ViewOf(rules[n], now));
      hide Exhausted, LetsThrough, ViewOf, Reports, ReportsAll;
      if Exhausted(rules[n], now) {
        at := at + [n];
      }
    }
  }

  lemma {:induction false} LatestComesBack(rules: seq<RuleState>, now: int)
    requires Recovers(rules, now)
    ensures LatestEnd(rules, now) >= 0
    ensures ComesBack(rules, now, if LatestEnd(rules, now) > 0 then Some(LatestEnd(rules, now)) else None)
    decreases |rules|
  {
    if rules != [] {
      var n := |rules| - 1;
      var init, r := rules[..n], rules[n];
      assert forall i :: 0 <= i < n ==> init[i] == rules[i];
      LatestComesBack(init, now);
      ExhaustedIsInTheWay(r, now);
      hide Exhausted, LetsThrough;
      var before, after := LatestEnd(init, now), LatestEnd(rules, now);
      if after > 0 {
        if after == before {
          var i :| 0 <= i < n && !LetsThrough(init[i], now) && init[i].endsAt == Some(before);
          assert !LetsThrough(rules[i], now) && rules[i].endsAt == Some(after);
        } else {
          assert rules[n].endsAt == Some(after);
        }
      }
    }
  }

  // The decision says in fields what it should.
  lemma DecideMeans(rules: seq<RuleState>, now: int)
    ensures DecisionMeans(rules, now, Decide(rules, now))
  {
    hide LetsThrough, Exhausted, BlockingViews, LatestEnd, Blocked, Unrecoverable, ReportsAll, ComesBack;
    BlockedIsInTheWay(rules, now);
    var at := ViewsReport(rules, now);
    if Recovers(rules, now) {
      LatestComesBack(rules, now);
    }
  }

  // ---- admissions ------------------------------------------------------------------

  // Counters stop at the largest uint64.
  function Successor(n: nat): nat {
    if n >= MAX_UINT64 then n else n + 1
  }

  // What an admission makes of a rule: a rule without a running window begins the next one, empty.
  predicate AdmittedTo(was: RuleState, r: RuleState, now: int) {
    if was.def.kind == Periodic && NoWindow(was, now) then
      && r.def == was.def && r.used == 0
      && r.startedAt == Some(now) && r.endsAt == Some(now + 1000 * was.def.period)
      && r.generation == Successor(was.generation) && r.version == Successor(was.version) && r.dirty
    else r == was
  }

  // The ticket names every rule of the key, in order, as it is now.
  predicate NamesAll(ticket: Ticket, key: nat, rules: seq<RuleState>) {
    && ticket.key == key && |ticket.rules| == |rules|
    && forall i :: 0 <= i < |rules| ==>
         && ticket.rules[i].ruleId == rules[i].def.id
         && ticket.rules[i].revision == rules[i].def.revision
         && ticket.rules[i].generation == rules[i].generation
  }

  predicate AllAdmitted(was: seq<RuleState>, rules: seq<RuleState>, now: int) {
    |rules| == |was| && forall i :: 0 <= i < |was| ==> AdmittedTo(was[i], rules[i], now)
  }

  // An admission in fields: a key with a rule in the way is left as it is and gets an empty ticket.
  ghost predicate AdmissionMeans(key: nat, was: seq<RuleState>, rules: seq<RuleState>, ticket: Ticket, now: int) {
    if AllLetThrough(was, now) then AllAdmitted(was, rules, now) && NamesAll(ticket, key, rules)
    else rules == was && ticket.key == key && |ticket.rules| == 0
  }

  lemma AdmitMeans(key: nat, rules: seq<RuleState>, now: int)
    ensures AdmissionMeans(key, rules, AdmitRules(rules, now), AdmitTicket(key, rules, now), now)
  {
    BlockedIsInTheWay(rules, now);
    hide Blocked, AllLetThrough;
    forall i | 0 <= i < |rules| ensures AdmittedTo(rules[i], OpenWindow(rules[i], now), now) {
    }
  }

  // ---- completions -----------------------------------------------------------------

  // The ticket entry is for this rule, this revision and, if it is periodic, this window.
  predicate IsFor(t: TicketRule, r: RuleState) {
    t.ruleId == r.def.id && t.revision == r.def.revision && (r.def.kind == Periodic ==> t.generation == r.generation)
  }

  // How many entries of the ticket are for the rule.
  function Hits(r: RuleState, names: seq<TicketRule>): nat {
    if names == [] then 0 else Hits(r, names[..|names| - 1]) + if IsFor(names[|names| - 1], r) then 1 else 0
  }

  // The rule and its window stay; the cost is added once for each entry, up to the largest int64, and
  // a negative cost uses everything up. Only a change makes a new version to be saved.
  predicate ChargedTo(was: RuleState, r: RuleState, hits: nat, cost: int) {
    && r.def == was.def && r.startedAt == was.startedAt && r.endsAt == was.endsAt && r.generation == was.generation
    && r.used == (if hits == 0 then was.used
                  else if cost < 0 || was.used + hits * cost > MAX_INT64 then MAX_INT64
                  else was.used + hits * cost)
    && (r.used == was.used ==> r == was)
    && (r.used != was.used ==> r.dirty && Successor(was.version) <= r.version && (hits == 1 ==> r.version == Successor(was.version)))
  }

  lemma OneMore(h: nat, cost: int)
    ensures (h + 1) * cost == h * cost + cost
    ensures cost >= 0 ==> h * cost >= 0
  {
  }

  lemma ChargedOnce(was: RuleState, r: RuleState, hits: nat, cost: int)
    requires 0 <= was.used <= MAX_INT64 && ChargedTo(was, r, hits, cost)
    ensures ChargedTo(was, Charge(r, cost), hits + 1, cost)
  {
    OneMore(hits, cost);
  }

  lemma {:induction false} ChargeMeans(was: RuleState, names: seq<TicketRule>, cost: int)
    requires 0 <= was.used <= MAX_INT64
    ensures ChargedTo(was, ChargeAll(was, names, cost), Hits(was, names), cost)
    decreases |names|
  {
    if names != [] {
      var init := names[..|names| - 1];
      ChargeMeans(was, init, cost);
      hide ChargedTo, Charge;
      if IsFor(names[|names| - 1], was) {
        ChargedOnce(was, ChargeAll(was, init, cost), Hits(was, init), cost);
      }
    }
  }

  // A ticket that names a rule once charges it once.
  lemma {:induction false} HitOnce(r: RuleState, names: seq<TicketRule>, i: nat)
    requires i < |names| && forall j :: 0 <= j < |names| ==> (IsFor(names[j], r) <==> j == i)
    ensures Hits(r, names) == 1
    decreases |names|
  {
    var n := |names| - 1;
    if i < n {
      HitOnce(r, names[..n], i);
    } else {
      HitNever(r, names[..n]);
    }
  }

  lemma {:induction false} HitNever(r: RuleState, names: seq<TicketRule>)
    requires forall j :: 0 <= j < |names| ==> !IsFor(names[j], r)
    ensures Hits(r, names) == 0
    decreases |names|
  {
    if names != [] {
      HitNever(r, names[..|names| - 1]);
    }
  }

  // ---- what is saved and read back ---------------------------------------------------

  // The row holds everything of the rule but its definition.
  predicate Saves(row: RestoredState, key: nat, r: RuleState) {
    && row.key == key && row.ruleId == r.def.id && row.revision == r.def.revision && row.used == r.used
    && row.startedAt == r.startedAt && row.endsAt == r.endsAt && row.generation == r.generation && row.version == r.version
  }

  // A row that may be read back: its numbers are in range and its window, if any, is one.
  predicate Readable(row: RestoredState) {
    && row.key > 0 && row.ruleId > 0 && row.revision > 0 && row.version > 0 && row.used >= 0
    && match (row.startedAt, row.endsAt)
       case (None, None) => true
       case (Some(from), Some(to)) => 0 <= from < to
       case _ => false
  }

  // The row is of this rule: a total rule has no window, a periodic one none, unused, or one of its period.
  predicate RowOf(row: RestoredState, key: nat, def: Rule) {
    && row.key == key && row.ruleId == def.id && row.revision == def.revision
    && match row.startedAt
       case None => row.generation == 0 && (def.kind != Total ==> row.used == 0)
       case Some(from) => def.kind != Total && row.generation > 0 && row.endsAt == Some(from + 1000 * def.period)
  }

  // Every desired rule has its row and every row belongs to a desired rule.
  ghost predicate RowsMatch(defs: Definitions, rows: map<nat, RestoredState>) {
    && (forall k, i :: k in defs && 0 <= i < |defs[k]| ==> defs[k][i].id in rows && RowOf(rows[defs[k][i].id], k, defs[k][i]))
    && (forall id :: id in rows ==> exists k, i :: k in defs && 0 <= i < |defs[k]| && defs[k][i].id == id)
  }

  // The rules of a key are the desired ones, in order, each as its row says and saved.
  ghost predicate ReadsBack(desired: seq<Rule>, key: nat, rows: map<nat, RestoredState>, rules: seq<RuleState>) {
    && Arranged(desired, rules)
    && forall i :: 0 <= i < |rules| ==>
         !rules[i].dirty && rules[i].def.id in rows && Saves(rows[rules[i].def.id], key, rules[i])
  }

  ghost predicate RestorationMeans(defs: Definitions, rows: map<nat, RestoredState>, after: Entries) {
    && (forall k :: k in after <==> k in defs && defs[k] != [])
    && (forall k :: k in after ==> ReadsBack(defs[k], k, rows, after[k]))
  }

  lemma ReadableMeans(row: RestoredState)
    ensures ValidRestored(row) <==> Readable(row)
  {
  }

  lemma RestorableMeans(rows: map<nat, RestoredState>, key: nat, def: Rule)
    requires def.id in rows ==> rows[def.id].ruleId == def.id && ValidRestored(rows[def.id])
    ensures Restorable(rows, key, def) <==> def.id in rows && RowOf(rows[def.id], key, def)
    ensures Restorable(rows, key, def) ==>
              var r := RestoredRule(rows, def); r.def == def && !r.dirty && Saves(rows[def.id], key, r)
  {
  }

  // ---- acknowledgements and reconfigurations ----------------------------------------

  // A rule counts as saved only when exactly this version of this revision was saved.
  predicate AckedTo(was: RuleState, r: RuleState, ruleId: nat, revision: nat, version: nat) {
    if was.def.id == ruleId && was.def.revision == revision && was.version == version
    then r == RuleState(was.def, was.used, was.startedAt, was.endsAt, was.generation, was.version, false)
    else r == was
  }

  // Everything but the definition is the same.
  predicate SameState(was: RuleState, r: RuleState) {
    && r.used == was.used && r.startedAt == was.startedAt && r.endsAt == was.endsAt
    && r.generation == was.generation && r.version == was.version && r.dirty == was.dirty
  }

  predicate Unused(r: RuleState) {
    r.used == 0 && r.startedAt == None && r.endsAt == None && r.generation == 0 && r.version == 1 && !r.dirty
  }

  // A rule keeps the state it had under the same ID and revision, and starts unused otherwise.
  ghost predicate CarriedOver(prev: seq<RuleState>, r: RuleState) {
    && (forall j :: 0 <= j < |prev| && prev[j].def.id == r.def.id && prev[j].def.revision == r.def.revision ==>
          SameState(prev[j], r))
    && ((forall j :: 0 <= j < |prev| ==> prev[j].def.id != r.def.id || prev[j].def.revision != r.def.revision) ==> Unused(r))
  }

  // Total first, then by period, then by ID.
  predicate ListedBefore(a: Rule, b: Rule) {
    || (a.kind == Total && b.kind == Periodic)
    || (a.kind == b.kind && a.period < b.period)
    || (a.kind == b.kind && a.period == b.period && a.id < b.id)
  }

  // The rules are the desired ones, each once, in order.
  ghost predicate Arranged(desired: seq<Rule>, rules: seq<RuleState>) {
    && |rules| == |desired|
    && (forall i :: 0 <= i < |rules| ==> rules[i].def in desired)
    && (forall d :: d in desired ==> exists i :: 0 <= i < |rules| && rules[i].def == d)
    && (forall i, j :: 0 <= i < j < |rules| ==> ListedBefore(rules[i].def, rules[j].def))
  }

  // The rules of a key are the desired ones, in order, each with its state.
  ghost predicate Installs(desired: seq<Rule>, prev: seq<RuleState>, rules: seq<RuleState>) {
    Arranged(desired, rules) && forall i :: 0 <= i < |rules| ==> CarriedOver(prev, rules[i])
  }

  // Kind or period of a live rule changed under the same revision.
  ghost predicate Clashes(defs: Definitions, entries: Entries) {
    exists k, i, j ::
      && k in defs && k in entries && 0 <= i < |defs[k]| && 0 <= j < |entries[k]|
      && ClashAt(defs[k][i], entries[k][j].def)
  }

  predicate ClashAt(new_: Rule, old_: Rule) {
    new_.id == old_.id && new_.revision == old_.revision && (new_.kind != old_.kind || new_.period != old_.period)
  }

  // A reconfiguration in fields: keys without rules go, all others hold their desired rules.
  ghost predicate ReconfigurationMeans(before: Entries, defs: Definitions, after: Entries) {
    && (forall k :: k in after <==> k in defs && defs[k] != [])
    && (forall k :: k in after ==> Installs(defs[k], if k in before then before[k] else [], after[k]))
  }

  // ---- definitions --------------------------------------------------------------------

  predicate SoundRule(r: Rule) {
    && r.id > 0 && r.revision > 0 && r.limit > 0
    && ((r.kind == Total && r.period == 0) || (r.kind == Periodic && 60 <= r.period <= 31_536_000))
  }

  function PeriodicAt(rules: seq<Rule>): set<nat> {
    set i: nat | i < |rules| && rules[i].kind == Periodic
  }

  // Sound rules with different IDs, at most one total, different periods, at most ten of them.
  predicate SoundRules(rules: seq<Rule>) {
    && (forall i :: 0 <= i < |rules| ==> SoundRule(rules[i]))
    && (forall i, j :: 0 <= i < j < |rules| ==>
          rules[i].id != rules[j].id && (rules[i].kind != rules[j].kind || rules[i].period != rules[j].period))
    && |PeriodicAt(rules)| <= 10
  }

  // Sound rules for each key, and no rule of two keys.
  predicate SoundDefinitions(defs: Definitions) {
    && (forall k :: k in defs ==> k > 0 && SoundRules(defs[k]))
    && (forall k, l, i, j :: k in defs && l in defs && k != l && 0 <= i < |defs[k]| && 0 <= j < |defs[l]| ==>
          defs[k][i].id != defs[l][j].id)
  }

  lemma {:induction false} PeriodicCount(rules: seq<Rule>)
    ensures CountPeriodic(rules) == |PeriodicAt(rules)|
    decreases |rules|
  {
    if rules != [] {
      var n := |rules| - 1;
      PeriodicCount(rules[..n]);
      assert PeriodicAt(rules) == PeriodicAt(rules[..n]) + if rules[n].kind == Periodic then {n} else {};
    }
  }

  lemma {:induction false} TotalCount(rules: seq<Rule>)
    ensures CountTotal(rules) == 0 <==> forall i :: 0 <= i < |rules| ==> rules[i].kind != Total
    ensures CountTotal(rules) <= 1 <==>
            forall i, j :: 0 <= i < j < |rules| ==> !(rules[i].kind == Total && rules[j].kind == Total)
    decreases |rules|
  {
    if rules != [] {
      var n := |rules| - 1;
      TotalCount(rules[..n]);
      assert forall i :: 0 <= i < n ==> rules[..n][i] == rules[i];
      if rules[n].kind == Total && CountTotal(rules[..n]) > 0 {
        var i :| 0 <= i < n && rules[..n][i].kind == Total;
        assert rules[i].kind == Total && rules[n].kind == Total;
      }
      if CountTotal(rules[..n]) > 1 {
        var i, j :| 0 <= i < j < n && rules[..n][i].kind == Total && rules[..n][j].kind == Total;
        assert rules[i].kind == Total && rules[j].kind == Total;
      }
    }
  }

  lemma ValidRulesMeans(rules: seq<Rule>)
    ensures ValidRules(rules) <==> SoundRules(rules)
  {
    PeriodicCount(rules);
    TotalCount(rules);
    hide CountTotal, CountPeriodic, PeriodicAt;
    assert forall i :: 0 <= i < |rules| ==> (ValidRule(rules[i]) <==> SoundRule(rules[i]));
    if SoundRules(rules) {
      forall i, j | 0 <= i < j < |rules| ensures !(rules[i].kind == Total && rules[j].kind == Total) {
        assert SoundRule(rules[i]) && SoundRule(rules[j]);
      }
    }
    if ValidRules(rules) {
      forall i, j | 0 <= i < j < |rules| ensures rules[i].kind != rules[j].kind || rules[i].period != rules[j].period {
        assert SoundRule(rules[i]) && SoundRule(rules[j]);
      }
    }
  }

  // The definitions that are accepted, in fields.
  lemma ValidDefinitionsMeans(defs: Definitions)
    ensures ValidDefinitions(defs) <==> SoundDefinitions(defs)
  {
    hide ValidRules, SoundRules;
    forall k | k in defs ensures ValidRules(defs[k]) <==> SoundRules(defs[k]) {
      ValidRulesMeans(defs[k]);
    }
    if SoundDefinitions(defs) {
      forall k, l | k in defs && l in defs && k != l ensures Disjoint(defs[k], defs[l]) {
      }
    }
    if ValidDefinitions(defs) {
      forall k, l, i, j | k in defs && l in defs && k != l && 0 <= i < |defs[k]| && 0 <= j < |defs[l]|
        ensures defs[k][i].id != defs[l][j].id
      {
        assert Disjoint(defs[k], defs[l]);
      }
    }
  }
}
