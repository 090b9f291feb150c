/** Checking a whole set of rule definitions before it is installed. */
module QuotaValidate {
  import opened Wrappers
  import opened QuotaModel
  import R = QuotaReference

  // IDs and periods taken by a list of rules, and the checks rule by rule.
  function TakenIds(rules: seq<Rule>): set<nat> {
    if rules == [] then {} else TakenIds(rules[..|rules| - 1]) + {rules[|rules| - 1].id}
  }

  function TakenPeriods(rules: seq<Rule>): set<int> {
    if rules == [] then {}
    else
      TakenPeriods(rules[..|rules| - 1])
      + (if rules[|rules| - 1].kind.Periodic? then {rules[|rules| - 1].period} else {})
  }

  predicate Accepts(rule: Rule, ids: set<nat>, periods: set<int>) {
    ValidRule(rule) && rule.id !in ids && (rule.kind.Periodic? ==> rule.period !in periods)
  }

  predicate Accepted(rules: seq<Rule>, owners: set<nat>) {
    if rules == [] then true
    else
      var init, r := rules[..|rules| - 1], rules[|rules| - 1];
      Accepted(init, owners) && Accepts(r, owners + TakenIds(init), TakenPeriods(init))
  }

  lemma {:induction false} TakenMeans(rules: seq<Rule>)
    ensures forall id :: id in TakenIds(rules) <==> exists i :: 0 <= i < |rules| && rules[i].id == id
    ensures forall p :: p in TakenPeriods(rules) <==>
      exists i :: 0 <= i < |rules| && rules[i].kind.Periodic? && rules[i].period == p
    decreases |rules|
  {
    if rules != [] {
      var init, r := rules[..|rules| - 1], rules[|rules| - 1];
      TakenMeans(init);
      assert forall i :: 0 <= i < |init| ==> init[i] == rules[i];
      assert rules[|rules| - 1] == r;
    }
  }

  predicate AllPairs(rules: seq<Rule>, owners: set<nat>) {
    && (forall i :: 0 <= i < |rules| ==> ValidRule(rules[i]) && rules[i].id !in owners)
    && DistinctRuleIds(rules) && DistinctPeriods(rules)
  }

  lemma PairsStep(init: seq<Rule>, r: Rule, owners: set<nat>)
    ensures AllPairs(init + [r], owners) ==> AllPairs(init, owners)
    ensures AllPairs(init + [r], owners) <==>
      AllPairs(init, owners) && Accepts(r, owners + TakenIds(init), TakenPeriods(init))
  {
    TakenMeans(init);
    var rules := init + [r];
    assert rules[|init|] == r;
    assert forall i :: 0 <= i < |init| ==> init[i] == rules[i];
    if AllPairs(rules, owners) {
      assert r.id !in TakenIds(init);
      assert r.kind.Periodic? ==> r.period !in TakenPeriods(init);
    }
  }

  /** Checking rule by rule against what came before is checking all pairs. */
  lemma {:induction false} AcceptedMeans(rules: seq<Rule>, owners: set<nat>)
    ensures Accepted(rules, owners) <==> AllPairs(rules, owners)
    decreases |rules|
  {
    if rules != [] {
      AcceptedMeans(rules[..|rules| - 1], owners);
      PairsStep(rules[..|rules| - 1], rules[|rules| - 1], owners);
      assert rules == rules[..|rules| - 1] + [rules[|rules| - 1]];
    }
  }

  lemma {:induction false} AcceptedPrefix(rules: seq<Rule>, n: nat, owners: set<nat>)
    requires n <= |rules| && Accepted(rules, owners)
    ensures Accepted(rules[..n], owners)
    decreases |rules|
  {
    if n == |rules| {
      assert rules[..n] == rules;
    } else {
      AcceptedPrefix(rules[..|rules| - 1], n, owners);
      assert rules[..|rules| - 1][..n] == rules[..n];
    }
  }

  method CheckRule(rule: Rule, taken: map<nat, nat>, periods: set<int>) returns (ok: bool)
    ensures ok == Accepts(rule, taken.Keys, periods)
  {
    if rule.id == 0 || rule.revision == 0 || rule.limit <= 0 || rule.id in taken {
      return false;
    }
    match rule.kind {
      case Total => ok := rule.period == 0;
      case Periodic =>
        ok := MIN_PERIOD_SECONDS <= rule.period <= MAX_PERIOD_SECONDS && rule.period !in periods;
      case Other(_) => ok := false;
    }
  }

  method ValidateRules(key: nat, rules: seq<Rule>, owners: map<nat, nat>) returns (ok: bool, all: map<nat, nat>)
    ensures ok <==> Accepted(rules, owners.Keys) && CountTotal(rules) <= 1 && CountPeriodic(rules) <= MAX_PERIODIC_RULES
    ensures ok ==> all.Keys == owners.Keys + TakenIds(rules)
  {
    var totals, periodics := 0, 0;
    var periods: set<int> := {};
    all := owners;
    for n := 0 to |rules|
      invariant Accepted(rules[..n], owners.Keys)
      invariant all.Keys == owners.Keys + TakenIds(rules[..n])
      invariant periods == TakenPeriods(rules[..n])
      invariant totals == CountTotal(rules[..n]) && periodics == CountPeriodic(rules[..n])
    {
      var rule := rules[n];
      assert rules[..n + 1][..n] == rules[..n];
      var accepted := CheckRule(rule, all, periods);
      if !accepted {
        if Accepted(rules, owners.Keys) {
          AcceptedPrefix(rules, n + 1, owners.Keys);
        }
        return false, all;
      }
      all := all[rule.id := key];
      if rule.kind.Total? {
        totals := totals + 1;
      } else {
        periodics := periodics + 1;
        periods := periods + {rule.period};
      }
    }
    assert rules[..|rules|] == rules;
    ok := totals <= 1 && periodics <= MAX_PERIODIC_RULES;
  }

  lemma AcceptedIsValid(rules: seq<Rule>, owners: set<nat>)
    ensures Accepted(rules, owners) && CountTotal(rules) <= 1 && CountPeriodic(rules) <= MAX_PERIODIC_RULES
      <==> ValidRules(rules) && TakenIds(rules) !! owners
  {
    AcceptedMeans(rules, owners);
    TakenMeans(rules);
    if !(TakenIds(rules) !! owners) {
      var id :| id in TakenIds(rules) && id in owners;
      var i :| 0 <= i < |rules| && rules[i].id == id;
    }
  }

  lemma DisjointMeans(a: seq<Rule>, b: seq<Rule>)
    ensures Disjoint(a, b) <==> TakenIds(a) !! TakenIds(b)
  {
    TakenMeans(a);
    TakenMeans(b);
    if id :| id in TakenIds(a) && id in TakenIds(b) {
      var i :| 0 <= i < |a| && a[i].id == id;
      var j :| 0 <= j < |b| && b[j].id == id;
      assert a[i].id == b[j].id;
    }
    if !Disjoint(a, b) {
      var i, j :| 0 <= i < |a| && 0 <= j < |b| && a[i].id == b[j].id;
      assert a[i].id in TakenIds(a) && a[i].id in TakenIds(b);
    }
  }

  // The keys checked so far are valid, share no rule, and `owners` are exactly their rules.
  ghost predicate KeysValid(defs: Definitions, done: set<nat>)
    requires done <= defs.Keys
  {
    forall k :: k in done ==> k != 0 && ValidRules(defs[k])
  }

  ghost predicate Separate(defs: Definitions, done: set<nat>)
    requires done <= defs.Keys
  {
    forall k, l :: k in done && l in done && k != l ==> Disjoint(defs[k], defs[l])
  }

  function OwnedBy(defs: Definitions, done: set<nat>): set<nat>
    requires done <= defs.Keys
  {
    set k, id | k in done && id in TakenIds(defs[k]) :: id
  }

  lemma SeparateStep(defs: Definitions, done: set<nat>, k: nat)
    requires done <= defs.Keys && k in defs && k !in done && Separate(defs, done)
    ensures Separate(defs, done + {k}) <==> TakenIds(defs[k]) !! OwnedBy(defs, done)
  {
    if TakenIds(defs[k]) !! OwnedBy(defs, done) {
      forall l | l in done ensures Disjoint(defs[k], defs[l]) && Disjoint(defs[l], defs[k]) {
        assert TakenIds(defs[l]) <= OwnedBy(defs, done);
        DisjointMeans(defs[k], defs[l]);
        DisjointMeans(defs[l], defs[k]);
      }
    } else {
      var id :| id in TakenIds(defs[k]) && id in OwnedBy(defs, done);
      var l :| l in done && id in TakenIds(defs[l]);
      DisjointMeans(defs[k], defs[l]);
      assert !Disjoint(defs[k], defs[l]) && k in done + {k} && l in done + {k};
    }
  }

  lemma OwnedStep(defs: Definitions, done: set<nat>, k: nat)
    requires done <= defs.Keys && k in defs
    ensures OwnedBy(defs, done + {k}) == OwnedBy(defs, done) + TakenIds(defs[k])
  {
  }

  lemma NotValid(defs: Definitions, done: set<nat>)
    requires done <= defs.Keys && !(KeysValid(defs, done) && Separate(defs, done))
    ensures !ValidDefinitions(defs)
  {
  }

  lemma KeysStep(defs: Definitions, done: set<nat>, k: nat)
    requires done <= defs.Keys && k in defs && KeysValid(defs, done)
    ensures KeysValid(defs, done + {k}) <==> k != 0 && ValidRules(defs[k])
  {
    assert k in done + {k};
  }

  // One more key is checked: the verdict is the verdict about everything checked so far.
  method CheckKey(defs: Definitions, k: nat, owners: map<nat, nat>, ghost done: set<nat>)
    returns (ok: bool, all: map<nat, nat>)
    requires done <= defs.Keys && k in defs && k !in done
    requires KeysValid(defs, done) && Separate(defs, done) && owners.Keys == OwnedBy(defs, done)
    ensures ok <==> KeysValid(defs, done + {k}) && Separate(defs, done + {k})
    ensures ok ==> all.Keys == OwnedBy(defs, done + {k})
  {
    hide KeysValid, Separate, OwnedBy, Accepted, QuotaModel.ValidRules;
    KeysStep(defs, done, k);
    SeparateStep(defs, done, k);
    OwnedStep(defs, done, k);
    AcceptedIsValid(defs[k], owners.Keys);
    if k == 0 {
      return false, owners;
    }
    if |defs[k]| == 0 {
      NoRules(owners.Keys);
      return true, owners;
    }
    ok, all := ValidateRules(k, defs[k], owners);
  }

  lemma NoRules(owners: set<nat>)
    ensures ValidRules([]) && TakenIds([]) == {}
  {
  }

  lemma AllChecked(defs: Definitions)
    requires KeysValid(defs, defs.Keys) && Separate(defs, defs.Keys)
    ensures ValidDefinitions(defs)
  {
  }

  lemma NormalizedIs(defs: Definitions, normalized: Definitions)
    requires forall k :: k in normalized <==> k in defs && defs[k] != []
    requires forall k :: k in normalized ==> normalized[k] == SortRules(defs[k])
    ensures normalized == Normalize(defs)
  {
  }

  method NormalizeDefinitions(defs: Definitions) returns (r: Option<Definitions>)
    ensures r.Some? <==> ValidDefinitions(defs)
    ensures r.Some? ==> r.value == Normalize(defs)
    ensures r.Some? <==> R.SoundDefinitions(defs)
  {
    R.ValidDefinitionsMeans(defs);
    hide R.SoundDefinitions;
    var todo, normalized: Definitions, owners: map<nat, nat> := defs.Keys, map[], map[];
    ghost var done: set<nat> := {};
    while todo != {}
      invariant done + todo == defs.Keys && done !! todo
      invariant KeysValid(defs, done) && Separate(defs, done) && owners.Keys == OwnedBy(defs, done)
      invariant forall k :: k in normalized <==> k in done && defs[k] != []
      invariant forall k :: k in normalized ==> normalized[k] == SortRules(defs[k])
    {
      var k :| k in todo;
      var ok, all := CheckKey(defs, k, owners, done);
      if !ok {
        NotValid(defs, done + {k});
        return None;
      }
      owners := all;
      if |defs[k]| != 0 {
        normalized := normalized[k := SortRules(defs[k])];
      }
      todo, done := todo - {k}, done + {k};
    }
    assert done == defs.Keys;
    AllChecked(defs);
    NormalizedIs(defs, normalized);
    r := Some(normalized);
  }

  lemma {:induction false} CountsAdd(a: seq<Rule>, b: seq<Rule>)
    ensures CountTotal(a + b) == CountTotal(a) + CountTotal(b)
    ensures CountPeriodic(a + b) == CountPeriodic(a) + CountPeriodic(b)
    decreases |b|
  {
    if b == [] {
      assert a + b == a;
    } else {
      var n := |b| - 1;
      CountsAdd(a, b[..n]);
      assert (a + b)[..|a + b| - 1] == a + b[..n];
    }
  }
}
