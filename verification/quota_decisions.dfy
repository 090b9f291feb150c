/** Whether a request may start now, and if not, when it may. */
module QuotaDecisions {
  import opened Wrappers
  import opened QuotaModel

  datatype Status = Available | Unopened | Spent

  datatype RuleView = RuleView(
    rule: Rule, used: int, remaining: int, status: Status,
    startedAt: Option<int>, endsAt: Option<int>, generation: nat)

  datatype Decision = Decision(allowed: bool, recoverable: bool, next: Option<int>, blocking: seq<RuleView>)

  function ViewOf(r: RuleState, now: int): RuleView {
    if r.def.kind.Periodic? && Inactive(r, now) then
      RuleView(r.def, 0, r.def.limit, Unopened, None, None, r.generation)
    else
      RuleView(r.def, r.used, if r.used >= r.def.limit then 0 else r.def.limit - r.used,
               if r.used >= r.def.limit then Spent else Available,
               r.startedAt, r.endsAt, r.generation)
  }

  function BlockingViews(rules: seq<RuleState>, now: int): seq<RuleView> {
    if rules == [] then []
    else
      var before := BlockingViews(rules[..|rules| - 1], now);
      var r := rules[|rules| - 1];
      if Exhausted(r, now) then before + [ViewOf(r, now)] else before
  }

  predicate Unrecoverable(rules: seq<RuleState>, now: int) {
    exists i :: 0 <= i < |rules| && Exhausted(rules[i], now) && rules[i].def.kind.Total?
  }

  // The latest end among the spent windows; zero if there is none.
  function LatestEnd(rules: seq<RuleState>, now: int): int {
    if rules == [] then 0
    else
      var before := LatestEnd(rules[..|rules| - 1], now);
      var r := rules[|rules| - 1];
      if Exhausted(r, now) && !r.def.kind.Total? && r.endsAt.Some? && r.endsAt.value > before
      then r.endsAt.value else before
  }

  function Decide(rules: seq<RuleState>, now: int): Decision {
    var latest := LatestEnd(rules, now);
    Decision(!Blocked(rules, now), !Unrecoverable(rules, now),
             if Blocked(rules, now) && !Unrecoverable(rules, now) && latest > 0 then Some(latest) else None,
             BlockingViews(rules, now))
  }

  lemma {:induction false} LatestEndIsMaximum(rules: seq<RuleState>, now: int)
    requires forall i :: 0 <= i < |rules| ==> WellFormed(rules[i])
    ensures forall i :: 0 <= i < |rules| && Exhausted(rules[i], now) && rules[i].def.kind.Periodic? ==>
      rules[i].endsAt.Some? && 0 < rules[i].endsAt.value <= LatestEnd(rules, now)
    ensures
      || LatestEnd(rules, now) == 0
      || (exists i ::
            0 <= i < |rules| && Exhausted(rules[i], now) && rules[i].endsAt == Some(LatestEnd(rules, now)))
    ensures LatestEnd(rules, now) >= 0
    decreases |rules|
  {
    if rules != [] {
      var init := rules[..|rules| - 1];
      LatestEndIsMaximum(init, now);
      if LatestEnd(rules, now) == LatestEnd(init, now) != 0 {
        var i :| 0 <= i < |init| && Exhausted(init[i], now) && init[i].endsAt == Some(LatestEnd(init, now));
        assert rules[i] == init[i];
      } else if LatestEnd(rules, now) != 0 {
        assert rules[|rules| - 1].endsAt == Some(LatestEnd(rules, now));
      }
      assert forall i :: 0 <= i < |init| ==> init[i] == rules[i];
    }
  }

  // Without charges, a spent total rule blocks for ever and a spent window until it ends.
  lemma ExhaustedLater(r: RuleState, now: int, later: int)
    requires WellFormed(r) && now <= later
    ensures Exhausted(r, later) <==>
      Exhausted(r, now) && (r.def.kind.Total? || later < r.endsAt.value)
  {
  }

  /** A refusal is exact: an unrecoverable one holds at every later time; a recoverable one
      names the first moment from which a request is let through again. */
  lemma RefusalIsExact(rules: seq<RuleState>, now: int, later: int)
    requires forall i :: 0 <= i < |rules| ==> WellFormed(rules[i])
    requires now <= later
    ensures Decide(rules, now).allowed ==> Decide(rules, later).allowed
    ensures !Decide(rules, now).recoverable ==> !Decide(rules, later).allowed
    ensures !Decide(rules, now).allowed && Decide(rules, now).recoverable ==>
      && Decide(rules, now).next.Some?
      && (Decide(rules, later).allowed <==> later >= Decide(rules, now).next.value)
  {
    LatestEndIsMaximum(rules, now);
    forall i | 0 <= i < |rules|
      ensures Exhausted(rules[i], later) <==>
        Exhausted(rules[i], now) && (rules[i].def.kind.Total? || later < rules[i].endsAt.value)
    {
      ExhaustedLater(rules[i], now, later);
    }
    if Unrecoverable(rules, now) {
      var i :| 0 <= i < |rules| && Exhausted(rules[i], now) && rules[i].def.kind.Total?;
      assert Exhausted(rules[i], later);
    } else if Blocked(rules, now) {
      var i :| 0 <= i < |rules| && Exhausted(rules[i], now);
      assert rules[i].def.kind.Periodic?;
      var m :| 0 <= m < |rules| && Exhausted(rules[m], now) && rules[m].endsAt == Some(LatestEnd(rules, now));
      if later < LatestEnd(rules, now) {
        assert Exhausted(rules[m], later);
      }
    }
  }

  lemma {:induction false} BlockingIsExhausted(rules: seq<RuleState>, now: int)
    ensures BlockingViews(rules, now) == [] <==> !Blocked(rules, now)
    ensures forall v :: v in BlockingViews(rules, now) <==>
      exists i :: 0 <= i < |rules| && Exhausted(rules[i], now) && ViewOf(rules[i], now) == v
    decreases |rules|
  {
    if rules != [] {
      var init, r := rules[..|rules| - 1], rules[|rules| - 1];
      BlockingIsExhausted(init, now);
      assert forall i :: 0 <= i < |init| ==> init[i] == rules[i];
      if Exhausted(r, now) {
        assert Exhausted(rules[|rules| - 1], now);
        assert ViewOf(r, now) in BlockingViews(rules, now);
      }
    }
  }
}
