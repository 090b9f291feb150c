/**
  The rules of a request: checked one after the other against those before, with limits parsed as
  dollar amounts.
*/
module RuleRequest {
  import opened Wrappers
  import opened QuotaModel
  import opened RulePlanner
  import opened RuleEditing
  import opened QuotaValidate
  import PriceDecimal
  import R = QuotaReference

  datatype Input = Input(id: nat, kind: Kind, limit: string, period: int)

  // A limit is a positive dollar amount with at most nine places.
  function Parsed(input: Input): Option<Desired> {
    match PriceDecimal.ParseUSD(input.limit)
    case Err(_) => None
    case Ok(amount) => if amount > 0 then Some(Desired(input.id, input.kind, amount, input.period)) else None
  }

  ghost predicate Parses(inputs: seq<Input>, desired: seq<Desired>) {
    |desired| == |inputs| && forall i :: 0 <= i < |inputs| ==> Parsed(inputs[i]) == Some(desired[i])
  }

  // The requests that are accepted.
  ghost predicate Acceptable(inputs: seq<Input>, allowIds: bool, desired: seq<Desired>) {
    && Parses(inputs, desired) && ValidDesired(desired)
    && (forall i :: 0 <= i < |inputs| ==> inputs[i].id != 0 ==> allowIds)
  }

  // What the loop has recorded about the rules so far.
  ghost predicate Recorded(desired: seq<Desired>, totals: nat, periods: set<int>, ids: set<nat>) {
    && totals == CountTotal(AsRules(desired)) && |periods| == CountPeriodic(AsRules(desired))
    && PeriodsRecorded(desired, periods) && IdsRecorded(desired, ids) && TotalsRecorded(desired, totals)
  }

  ghost predicate PeriodsRecorded(desired: seq<Desired>, periods: set<int>) {
    forall p :: p in periods <==> exists i :: 0 <= i < |desired| && desired[i].kind.Periodic? && desired[i].period == p
  }

  ghost predicate IdsRecorded(desired: seq<Desired>, ids: set<nat>) {
    forall id :: id in ids <==> exists i :: 0 <= i < |desired| && desired[i].id == id && id != 0
  }

  ghost predicate TotalsRecorded(desired: seq<Desired>, totals: nat) {
    totals == 0 <==> forall i :: 0 <= i < |desired| ==> !desired[i].kind.Total?
  }

  // Valid apart from the number of periodic rules, which is checked at the end.
  ghost predicate PairwiseValid(desired: seq<Desired>) {
    && (forall i :: 0 <= i < |desired| ==> desired[i].limit > 0 && ValidPeriod(desired[i].kind, desired[i].period))
    && (forall i, j :: 0 <= i < j < |desired| && desired[i].id != 0 ==> desired[i].id != desired[j].id)
    && (forall i, j :: 0 <= i < j < |desired| ==>
          !(desired[i].kind == desired[j].kind && desired[i].period == desired[j].period))
    && CountTotal(AsRules(desired)) <= 1
  }

  // The next rule repeats no identifier and no place of the rules before it.
  ghost predicate Admissible(d: Desired, totals: nat, periods: set<int>, ids: set<nat>) {
    && d.limit > 0 && ValidPeriod(d.kind, d.period) && (d.id != 0 ==> d.id !in ids)
    && (d.kind.Total? ==> totals == 0) && (d.kind.Periodic? ==> d.period !in periods)
  }

  lemma CountsNext(desired: seq<Desired>, d: Desired)
    ensures CountTotal(AsRules(desired + [d])) == CountTotal(AsRules(desired)) + if d.kind.Total? then 1 else 0
    ensures CountPeriodic(AsRules(desired + [d])) == CountPeriodic(AsRules(desired)) + if d.kind.Periodic? then 1 else 0
  {
    var rules := AsRules(desired + [d]);
    assert rules[..|rules| - 1] == AsRules(desired);
  }

  lemma PairwiseNext(desired: seq<Desired>, d: Desired, totals: nat, periods: set<int>, ids: set<nat>)
    requires Recorded(desired, totals, periods, ids) && PairwiseValid(desired)
    ensures PairwiseValid(desired + [d]) <==> Admissible(d, totals, periods, ids)
  {
    var next := desired + [d];
    var n := |desired|;
    CountsNext(desired, d);
    hide AsRules, QuotaModel.CountTotal, QuotaModel.CountPeriodic;
    assert next[n] == d && forall i :: 0 <= i < n ==> next[i] == desired[i];
    if PairwiseValid(next) {
      forall i | 0 <= i < n
        ensures d.id != 0 ==> desired[i].id != d.id
        ensures !(desired[i].kind == d.kind && desired[i].period == d.period)
      {
        assert next[i] == desired[i];
      }
    }
  }

  lemma PeriodsNext(desired: seq<Desired>, d: Desired, periods: set<int>)
    requires PeriodsRecorded(desired, periods)
    ensures PeriodsRecorded(desired + [d], if d.kind.Periodic? then periods + {d.period} else periods)
  {
    var next := desired + [d];
    assert next[|desired|] == d;
    var more := if d.kind.Periodic? then periods + {d.period} else periods;
    forall p ensures p in more <==> exists i :: 0 <= i < |next| && next[i].kind.Periodic? && next[i].period == p {
      if p in periods {
        var i :| 0 <= i < |desired| && desired[i].kind.Periodic? && desired[i].period == p;
        assert next[i] == desired[i];
      }
    }
  }

  lemma IdsNext(desired: seq<Desired>, d: Desired, ids: set<nat>)
    requires IdsRecorded(desired, ids)
    ensures IdsRecorded(desired + [d], if d.id != 0 then ids + {d.id} else ids)
  {
    var next := desired + [d];
    assert next[|desired|] == d;
    var known := if d.id != 0 then ids + {d.id} else ids;
    forall id ensures id in known <==> exists i :: 0 <= i < |next| && next[i].id == id && id != 0 {
      if id in ids {
        var i :| 0 <= i < |desired| && desired[i].id == id;
        assert next[i] == desired[i];
      }
    }
  }

  lemma TotalsNext(desired: seq<Desired>, d: Desired, totals: nat)
    requires TotalsRecorded(desired, totals)
    ensures TotalsRecorded(desired + [d], totals + if d.kind.Total? then 1 else 0)
  {
    var next := desired + [d];
    assert next[|desired|] == d && forall i :: 0 <= i < |desired| ==> next[i] == desired[i];
  }

  lemma RecordedNext(desired: seq<Desired>, d: Desired, totals: nat, periods: set<int>, ids: set<nat>)
    requires Recorded(desired, totals, periods, ids) && Admissible(d, totals, periods, ids)
    ensures Recorded(desired + [d], totals + if d.kind.Total? then 1 else 0,
                     if d.kind.Periodic? then periods + {d.period} else periods, if d.id != 0 then ids + {d.id} else ids)
  {
    CountsNext(desired, d);
    PeriodsNext(desired, d, periods);
    IdsNext(desired, d, ids);
    TotalsNext(desired, d, totals);
    hide AsRules, QuotaModel.CountTotal, QuotaModel.CountPeriodic, IdsRecorded, TotalsRecorded;
    assert d.kind.Periodic? ==> d.period !in periods;
    hide PeriodsRecorded;
  }

  lemma {:induction false} PairwisePrefix(desired: seq<Desired>, n: nat)
    requires n <= |desired| && PairwiseValid(desired)
    ensures PairwiseValid(desired[..n])
    decreases |desired| - n
  {
    if n < |desired| {
      PairwisePrefix(desired, n + 1);
      CountsNext(desired[..n], desired[n]);
      hide AsRules, QuotaModel.CountTotal;
      assert desired[..n + 1] == desired[..n] + [desired[n]];
    } else {
      assert desired[..n] == desired;
    }
  }

  // A reading of the inputs, cut after one of them.
  lemma ReadingPrefix(inputs: seq<Input>, allowIds: bool, desired: seq<Desired>, n: nat, prefix: seq<Desired>)
    requires n < |inputs| && Parses(inputs[..n], prefix) && Acceptable(inputs, allowIds, desired)
    ensures Parsed(inputs[n]) == Some(desired[n]) && (inputs[n].id != 0 ==> allowIds)
    ensures PairwiseValid(prefix + [desired[n]])
  {
    assert forall i :: 0 <= i < n ==> inputs[..n][i] == inputs[i];
    assert desired[..n] == prefix;
    PairwisePrefix(desired, n + 1);
    assert desired[..n + 1] == prefix + [desired[n]];
  }

  // An input that is refused leaves the request without an acceptable reading.
  lemma NoReading(inputs: seq<Input>, allowIds: bool, n: nat, prefix: seq<Desired>)
    requires n < |inputs| && Parses(inputs[..n], prefix)
    requires var d := Parsed(inputs[n]);
             (inputs[n].id != 0 && !allowIds) || d.None? || !PairwiseValid(prefix + [d.value])
    ensures forall desired :: !Acceptable(inputs, allowIds, desired)
  {
    hide Acceptable, PairwiseValid, Parses, Parsed;
    forall desired ensures !Acceptable(inputs, allowIds, desired) {
      if Acceptable(inputs, allowIds, desired) {
        ReadingPrefix(inputs, allowIds, desired, n, prefix);
      }
    }
  }

  // Reads one more rule, if it goes with the ones before it.
  method Next(input: Input, allowIds: bool, totals: nat, periods: set<int>, ids: set<nat>) returns (r: Option<Desired>)
    ensures r.Some? ==> r == Parsed(input)
    ensures r.Some? <==> (input.id != 0 ==> allowIds) && Parsed(input).Some? && Admissible(Parsed(input).value, totals, periods, ids)
  {
    if input.id != 0 && (!allowIds || input.id in ids) {
      return None;
    }
    var parsed := Parsed(input);
    if parsed.None? || !ValidPeriod(input.kind, input.period) {
      return None;
    }
    if (input.kind.Total? && totals > 0) || (input.kind.Periodic? && input.period in periods) {
      return None;
    }
    return parsed;
  }

  lemma OneReading(inputs: seq<Input>, allowIds: bool, result: seq<Desired>)
    requires Parses(inputs, result) && CountPeriodic(AsRules(result)) > MAX_PERIODIC_RULES
    ensures forall desired :: !Acceptable(inputs, allowIds, desired)
  {
    forall desired ensures !Acceptable(inputs, allowIds, desired) {
      assert Parses(inputs, desired) ==> desired == result;
    }
  }

  lemma ParsesNext(inputs: seq<Input>, result: seq<Desired>, n: nat, d: Desired)
    requires n < |inputs| && Parses(inputs[..n], result) && Parsed(inputs[n]) == Some(d)
    ensures Parses(inputs[..n + 1], result + [d])
  {
    assert forall i :: 0 <= i < n ==> inputs[..n][i] == inputs[i];
  }

  // Accepts exactly the requests whose rules parse and are valid together.
  method ReadRules(inputs: seq<Input>, allowIds: bool) returns (r: Option<seq<Desired>>)
    ensures r.Some? ==> Acceptable(inputs, allowIds, r.value)
    ensures r.None? ==> forall desired :: !Acceptable(inputs, allowIds, desired)
  {
    hide Parsed, Admissible, Recorded, PairwiseValid, Acceptable, Parses;
    NothingRead(inputs);
    var result: seq<Desired> := [];
    var totals: nat, periods: set<int>, ids: set<nat> := 0, {}, {};
    for n := 0 to |inputs|
      invariant Parses(inputs[..n], result) && PairwiseValid(result) && Recorded(result, totals, periods, ids)
      invariant forall i :: 0 <= i < n ==> inputs[i].id != 0 ==> allowIds
    {
      var d := Next(inputs[n], allowIds, totals, periods, ids);
      if Parsed(inputs[n]).Some? {
        PairwiseNext(result, Parsed(inputs[n]).value, totals, periods, ids);
      }
      if d.None? {
        NoReading(inputs, allowIds, n, result);
        return None;
      }
      RecordedNext(result, d.value, totals, periods, ids);
      ParsesNext(inputs, result, n, d.value);
      totals := totals + if d.value.kind.Total? then 1 else 0;
      periods := if d.value.kind.Periodic? then periods + {d.value.period} else periods;
      ids := if d.value.id != 0 then ids + {d.value.id} else ids;
      result := result + [d.value];
    }
    assert inputs[..|inputs|] == inputs;
    EverythingRead(inputs, allowIds, result, totals, periods, ids);
    if |periods| > MAX_PERIODIC_RULES {
      return None;
    }
    return Some(result);
  }

  lemma NothingRead(inputs: seq<Input>)
    ensures Parses(inputs[..0], []) && PairwiseValid([]) && Recorded([], 0, {}, {})
  {
  }

  lemma EverythingRead(inputs: seq<Input>, allowIds: bool, result: seq<Desired>, totals: nat, periods: set<int>, ids: set<nat>)
    requires Parses(inputs, result) && PairwiseValid(result) && Recorded(result, totals, periods, ids)
    requires forall i :: 0 <= i < |inputs| ==> inputs[i].id != 0 ==> allowIds
    ensures |periods| <= MAX_PERIODIC_RULES ==> Acceptable(inputs, allowIds, result)
    ensures |periods| > MAX_PERIODIC_RULES ==> forall desired :: !Acceptable(inputs, allowIds, desired)
  {
    if |periods| > MAX_PERIODIC_RULES {
      OneReading(inputs, allowIds, result);
    }
  }

  // ---- the order of the result ----------------------------------------------------------------------

  // Total first, then by period, then by ID.
  predicate Before(a: Desired, b: Desired) {
    if a.kind != b.kind then a.kind.Total?
    else if a.period != b.period then a.period < b.period
    else a.id < b.id
  }

  predicate Ordered(ds: seq<Desired>) {
    forall i, j :: 0 <= i < j < |ds| ==> Before(ds[i], ds[j])
  }

  predicate Known(d: Desired) {
    d.kind.Total? || d.kind.Periodic?
  }

  predicate AllKnown(ds: seq<Desired>) {
    forall i :: 0 <= i < |ds| ==> Known(ds[i])
  }

  // No rule of the list has the kind and period.
  predicate Apart(ds: seq<Desired>, d: Desired) {
    forall i :: 0 <= i < |ds| ==> ds[i].kind != d.kind || ds[i].period != d.period
  }

  // Puts one more rule in its place.
  method InsertRule(ds: seq<Desired>, d: Desired) returns (r: seq<Desired>, ghost k: nat)
    requires Ordered(ds) && AllKnown(ds) && Known(d) && Apart(ds, d)
    ensures Ordered(r) && k <= |ds| && r == ds[..k] + [d] + ds[k..]
  {
    var at: nat := |ds|;
    while at > 0 && Before(d, ds[at - 1])
      invariant at <= |ds|
      invariant forall i :: at <= i < |ds| ==> Before(d, ds[i])
    {
      at := at - 1;
    }
    k := at;
    r := ds[..at] + [d] + ds[at..];
    assert at > 0 ==> Before(ds[at - 1], d);
    forall i | 0 <= i < at ensures Before(ds[i], d) {
      assert i < at - 1 ==> Before(ds[i], ds[at - 1]);
    }
  }

  lemma InsertedCounts(ds: seq<Desired>, d: Desired, k: nat)
    requires k <= |ds|
    ensures CountTotal(AsRules(ds[..k] + [d] + ds[k..])) == CountTotal(AsRules(ds + [d]))
    ensures CountPeriodic(AsRules(ds[..k] + [d] + ds[k..])) == CountPeriodic(AsRules(ds + [d]))
  {
    var a, b, m := AsRules(ds[..k]), AsRules(ds[k..]), AsRules([d]);
    assert AsRules(ds[..k] + [d] + ds[k..]) == a + m + b;
    assert AsRules(ds + [d]) == a + b + m;
    CountsAdd(a + m, b);
    CountsAdd(a, m);
    CountsAdd(a + b, m);
    CountsAdd(a, b);
  }

  lemma InsertedMembers(ds: seq<Desired>, d: Desired, k: nat)
    requires k <= |ds|
    ensures multiset(ds[..k] + [d] + ds[k..]) == multiset(ds + [d])
  {
    assert ds == ds[..k] + ds[k..];
  }

  // A reordering of the rules, with the same numbers of each kind.
  ghost predicate Reorders(ds: seq<Desired>, r: seq<Desired>) {
    && multiset(r) == multiset(ds)
    && CountTotal(AsRules(r)) == CountTotal(AsRules(ds)) && CountPeriodic(AsRules(r)) == CountPeriodic(AsRules(ds))
  }

  lemma ReordersNext(ds: seq<Desired>, r: seq<Desired>, d: Desired, k: nat)
    requires Reorders(ds, r) && k <= |r|
    ensures Reorders(ds + [d], r[..k] + [d] + r[k..])
  {
    InsertedCounts(r, d, k);
    InsertedMembers(r, d, k);
    CountsNext(ds, d);
    CountsNext(r, d);
  }

  // What is known of every rule of the list is known of every rule of a reordering.
  lemma ReorderedMember(ds: seq<Desired>, r: seq<Desired>, i: nat) returns (j: nat)
    requires Reorders(ds, r) && i < |r|
    ensures j < |ds| && ds[j] == r[i]
  {
    assert r[i] in multiset(r);
    assert r[i] in ds;
    j :| 0 <= j < |ds| && ds[j] == r[i];
  }

  lemma ReorderedSize(ds: seq<Desired>, r: seq<Desired>)
    requires Reorders(ds, r)
    ensures |r| == |ds|
  {
    assert |multiset(r)| == |multiset(ds)|;
  }

  lemma ReorderedValid(ds: seq<Desired>, r: seq<Desired>)
    requires ValidDesired(ds) && Reorders(ds, r) && Ordered(r)
    ensures ValidDesired(r)
  {
    hide AsRules, QuotaModel.CountTotal, QuotaModel.CountPeriodic;
    forall i | 0 <= i < |r| ensures r[i].limit > 0 && ValidPeriod(r[i].kind, r[i].period) {
      var j := ReorderedMember(ds, r, i);
    }
    forall i, j | 0 <= i < j < |r|
      ensures r[i].id != 0 ==> r[i].id != r[j].id
      ensures !(r[i].kind == r[j].kind && r[i].period == r[j].period)
    {
      DifferentRules(ds, r, i, j);
    }
  }

  lemma DifferentRules(ds: seq<Desired>, r: seq<Desired>, i: nat, j: nat)
    requires ValidDesired(ds) && Reorders(ds, r) && Ordered(r) && i < j < |r|
    ensures r[i].id != 0 ==> r[i].id != r[j].id
    ensures !(r[i].kind == r[j].kind && r[i].period == r[j].period)
  {
    hide AsRules, CountOk, Reorders;
    var a := ReorderedMember(ds, r, i);
    var b := ReorderedMember(ds, r, j);
    assert Before(r[i], r[j]);
    assert a != b;
  }

  method SortRules(ds: seq<Desired>) returns (r: seq<Desired>)
    requires ValidDesired(ds)
    ensures Ordered(r) && Reorders(ds, r) && ValidDesired(r) && |r| == |ds|
  {
    r := [];
    assert ds[..0] == [];
    for n := 0 to |ds|
      invariant Ordered(r) && Reorders(ds[..n], r) && AllKnown(r)
    {
      hide AsRules, QuotaModel.CountTotal, QuotaModel.CountPeriodic;
      ApartFrom(ds, n, r);
      var next, k := InsertRule(r, ds[n]);
      hide Reorders;
      ReordersNext(ds[..n], r, ds[n], k);
      assert ds[..n] + [ds[n]] == ds[..n + 1];
      r := next;
    }
    assert ds[..|ds|] == ds;
    ReorderedSize(ds, r);
    ReorderedValid(ds, r);
  }

  lemma ApartFrom(ds: seq<Desired>, n: nat, r: seq<Desired>)
    requires ValidDesired(ds) && n < |ds| && Reorders(ds[..n], r)
    ensures Apart(r, ds[n]) && Known(ds[n])
  {
    hide CountOk, Reorders;
    assert ValidPeriod(ds[n].kind, ds[n].period);
    forall i | 0 <= i < |r| ensures r[i].kind != ds[n].kind || r[i].period != ds[n].period {
      var j := ReorderedMember(ds[..n], r, i);
      assert ds[j] == r[i];
    }
  }

  // ---- the requests that are accepted, in fields -----------------------------------------------------

  // The rule that an input stands for: its limit in billionths of a dollar, all else as given.
  ghost predicate ReadAs(input: Input, d: Desired) {
    && d.id == input.id && d.kind == input.kind && d.period == input.period && d.limit > 0
    && exists integer, fraction :: PriceDecimal.WorthOf(input.limit, integer, fraction, d.limit)
  }

  predicate SoundPlace(d: Desired) {
    (d.kind == Total && d.period == 0) || (d.kind == Periodic && 60 <= d.period <= 31_536_000)
  }

  function PeriodicAt(ds: seq<Desired>): set<nat> {
    set i: nat | i < |ds| && ds[i].kind == Periodic
  }

  // Positive limits, identifiers only where they are allowed and none twice, no place twice, at most ten
  // periods.
  ghost predicate SoundRequest(inputs: seq<Input>, allowIds: bool, ds: seq<Desired>) {
    && |ds| == |inputs|
    && (forall i :: 0 <= i < |inputs| ==> ReadAs(inputs[i], ds[i]) && SoundPlace(ds[i]) && (ds[i].id != 0 ==> allowIds))
    && (forall i, j :: 0 <= i < j < |ds| ==> ds[i].id != 0 ==> ds[i].id != ds[j].id)
    && (forall i, j :: 0 <= i < j < |ds| ==> ds[i].kind != ds[j].kind || ds[i].period != ds[j].period)
    && |PeriodicAt(ds)| <= 10
  }

  lemma ParsedMeans(input: Input, d: Desired)
    ensures Parsed(input) == Some(d) <==> ReadAs(input, d)
  {
    hide PriceDecimal.ParseUSD, PriceDecimal.WorthOf;
    if d.limit > 0 {
      PriceDecimal.OnlyPlainDecimals(input.limit, d.limit);
    }
  }

  lemma CountsMean(ds: seq<Desired>)
    requires forall i :: 0 <= i < |ds| ==> SoundPlace(ds[i])
    requires forall i, j :: 0 <= i < j < |ds| ==> ds[i].kind != ds[j].kind || ds[i].period != ds[j].period
    ensures CountOk(ds) <==> |PeriodicAt(ds)| <= 10
  {
    var rules := AsRules(ds);
    assert R.PeriodicAt(rules) == PeriodicAt(ds);
    R.PeriodicCount(rules);
    R.TotalCount(rules);
  }

  lemma AcceptableMeans(inputs: seq<Input>, allowIds: bool, ds: seq<Desired>)
    ensures Acceptable(inputs, allowIds, ds) <==> SoundRequest(inputs, allowIds, ds)
  {
    hide Parsed, CountOk, PeriodicAt, ReadAs;
    if |ds| == |inputs| {
      forall i | 0 <= i < |inputs| ensures Parsed(inputs[i]) == Some(ds[i]) <==> ReadAs(inputs[i], ds[i]) {
        ParsedMeans(inputs[i], ds[i]);
      }
      forall i | 0 <= i < |inputs| && ReadAs(inputs[i], ds[i]) ensures ds[i].id == inputs[i].id && ds[i].limit > 0 {
        ReadFields(inputs[i], ds[i]);
      }
      assert forall i :: 0 <= i < |ds| ==> (ValidPeriod(ds[i].kind, ds[i].period) <==> SoundPlace(ds[i]));
      if (forall i :: 0 <= i < |ds| ==> SoundPlace(ds[i])) &&
         (forall i, j :: 0 <= i < j < |ds| ==> ds[i].kind != ds[j].kind || ds[i].period != ds[j].period) {
        CountsMean(ds);
      }
    }
  }

  lemma ReadFields(input: Input, d: Desired)
    requires ReadAs(input, d)
    ensures d.id == input.id && d.limit > 0
  {
  }

  // The total rule first, then the periods from short to long.
  predicate InOrder(ds: seq<Desired>) {
    && (forall j :: 0 < j < |ds| ==> ds[j].kind == Periodic)
    && (forall i, j :: 0 <= i < j < |ds| ==> ds[i].kind == Total || ds[i].period < ds[j].period)
  }

  lemma OrderedMeans(ds: seq<Desired>)
    requires Ordered(ds) && ValidDesired(ds)
    ensures InOrder(ds)
  {
    hide CountOk;
    forall j | 0 < j < |ds| ensures ds[j].kind == Periodic {
      assert Before(ds[0], ds[j]);
      assert ValidPeriod(ds[0].kind, ds[0].period) && ValidPeriod(ds[j].kind, ds[j].period);
    }
    forall i, j | 0 <= i < j < |ds| ensures ds[i].kind == Total || ds[i].period < ds[j].period {
      assert Before(ds[i], ds[j]);
      assert ValidPeriod(ds[i].kind, ds[i].period);
    }
  }

  // Accepts exactly the sound requests, and puts their rules in order.
  method NormalizeRules(inputs: seq<Input>, allowIds: bool) returns (r: Option<seq<Desired>>, ghost read: seq<Desired>)
    ensures r.Some? ==> Acceptable(inputs, allowIds, read) && Ordered(r.value) && Reorders(read, r.value)
    ensures r.Some? ==> ValidDesired(r.value)
    ensures r.None? ==> forall desired :: !Acceptable(inputs, allowIds, desired)
    ensures r.Some? ==> SoundRequest(inputs, allowIds, read) && multiset(r.value) == multiset(read) && InOrder(r.value)
    ensures r.None? ==> forall desired :: !SoundRequest(inputs, allowIds, desired)
  {
    hide Acceptable, SoundRequest, ValidDesired, Ordered, InOrder;
    forall desired ensures Acceptable(inputs, allowIds, desired) <==> SoundRequest(inputs, allowIds, desired) {
      AcceptableMeans(inputs, allowIds, desired);
    }
    var rules := ReadRules(inputs, allowIds);
    if rules.None? {
      return None, [];
    }
    read := rules.value;
    assert ValidDesired(read) by { AcceptedIsValid(inputs, allowIds, read); }
    var sorted := SortRules(rules.value);
    OrderedMeans(sorted);
    return Some(sorted), read;
  }

  lemma AcceptedIsValid(inputs: seq<Input>, allowIds: bool, ds: seq<Desired>)
    requires Acceptable(inputs, allowIds, ds)
    ensures ValidDesired(ds)
  {
  }
}
