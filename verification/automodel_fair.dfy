/**
  Sharing a byte budget among messages: small ones are kept whole and the rest share what is left
  evenly, whatever order the set of unsettled messages is visited in.
*/
module AutomodelFair {
  import opened Arithmetic

  function Sum(s: seq<nat>): nat {
    if s == [] then 0 else s[0] + Sum(s[1..])
  }

  lemma {:induction false} SumUpdate(s: seq<nat>, i: nat, x: nat)
    requires i < |s|
    ensures Sum(s[i := x]) + s[i] == Sum(s) + x
  {
    if i == 0 {
      assert s[0 := x][1..] == s[1..];
    } else {
      assert s[i := x][1..] == s[1..][i - 1 := x];
      SumUpdate(s[1..], i - 1, x);
    }
  }

  lemma {:induction false} SumMonotone(a: seq<nat>, b: seq<nat>)
    requires |a| == |b| && forall i :: 0 <= i < |a| ==> a[i] <= b[i]
    ensures Sum(a) <= Sum(b)
  {
    if a != [] {
      SumMonotone(a[1..], b[1..]);
    }
  }

  function Min(a: nat, b: nat): nat { if a <= b then a else b }

  // What each size gets when no one gets more than the level.
  function Capped(sizes: seq<nat>, level: nat): (c: seq<nat>)
    ensures |c| == |sizes| && forall i :: 0 <= i < |sizes| ==> c[i] == Min(sizes[i], level)
  {
    if sizes == [] then [] else [Min(sizes[0], level)] + Capped(sizes[1..], level)
  }

  // The level is as high as the amount allows.
  predicate MaxMinFair(sizes: seq<nat>, available: nat, level: nat, shares: seq<nat>) {
    && shares == Capped(sizes, level)
    && Sum(shares) <= available < Sum(Capped(sizes, level + 1))
  }

  // A fair level is unique in what it gives out: any other level either gives the same or does
  // not fit or is lower.
  lemma FairIsBest(sizes: seq<nat>, available: nat, level: nat, shares: seq<nat>, other: nat)
    requires MaxMinFair(sizes, available, level, shares) && Sum(Capped(sizes, other)) <= available
    ensures other <= level
  {
    if other > level {
      SumMonotone(Capped(sizes, level + 1), Capped(sizes, other));
    }
  }

  // ---- the state of the loop ---------------------------------------------------------------

  predicate Indices(s: set<nat>, n: nat) {
    forall i :: i in s ==> i < n
  }

  // Settled messages have all they need, at most what the current share allows; the others have
  // nothing yet and need more than the settled ones were allowed.
  predicate Progress(sizes: seq<nat>, shares: seq<nat>, active: set<nat>, share: nat) {
    && |shares| == |sizes| && Indices(active, |sizes|)
    && (forall i :: 0 <= i < |sizes| && i !in active ==> shares[i] == sizes[i] <= share)
    && (forall i :: i in active ==> shares[i] == 0)
  }

  // An even split: the quotient and what it leaves over.
  lemma Quotient(available: nat, n: nat)
    requires n > 0
    ensures (available / n) * n <= available < (available / n + 1) * n
  {
    assert available == (available / n) * n + available % n;
    assert (available / n + 1) * n == (available / n) * n + n;
  }

  lemma QuotientAtLeast(available: nat, n: nat, share: nat)
    requires n > 0 && share * n <= available
    ensures share <= available / n
  {
    Quotient(available, n);
    if available / n < share {
      Times(available / n + 1, share, n);
    }
  }

  // One pass over the unsettled messages, in any order: those that fit the share are settled.
  method Pass(sizes: seq<nat>, shares: seq<nat>, active: set<nat>, available: nat, share: nat)
    returns (shares': seq<nat>, active': set<nat>, available': nat, settled: bool)
    requires Progress(sizes, shares, active, share) && active != {}
    requires share * |active| <= available
    ensures active' <= active && Progress(sizes, shares', active', share)
    ensures available' + Sum(shares') == available + Sum(shares)
    ensures share * |active'| <= available'
    ensures forall i :: i in active' ==> sizes[i] > share
    ensures settled ==> active' != active
    ensures !settled ==> active' == active && shares' == shares && available' == available
  {
    shares', active', available', settled := shares, active, available, false;
    var todo := active;
    while todo != {}
      invariant todo <= active' <= active && Progress(sizes, shares', active', share)
      invariant available' + Sum(shares') == available + Sum(shares)
      invariant share * |active'| <= available'
      invariant forall i :: i in active' && i !in todo ==> sizes[i] > share
      invariant settled ==> active' != active
      invariant !settled ==> active' == active && shares' == shares && available' == available
      decreases todo
    {
      var i :| i in todo;
      todo := todo - {i};
      if sizes[i] <= share {
        SumUpdate(shares', i, sizes[i]);
        Settle(share, active', i, available', sizes[i]);
        shares' := shares'[i := sizes[i]];
        available' := available' - sizes[i];
        active' := active' - {i};
        settled := true;
      }
    }
  }

  lemma Settle(share: nat, active: set<nat>, i: nat, available: nat, amount: nat)
    requires i in active && share * |active| <= available && amount <= share
    ensures |active - {i}| == |active| - 1 && amount <= available
    ensures share * |active - {i}| <= available - amount
  {
    var n := |active|;
    assert active == (active - {i}) + {i};
    assert share * n == share * (n - 1) + share;
  }

  // Some of the unsettled messages have been given the share.
  predicate Spreading(sizes: seq<nat>, shares: seq<nat>, done: set<nat>, todo: set<nat>, share: nat) {
    && |shares| == |sizes|
    && forall i :: 0 <= i < |sizes| ==> shares[i] == if i in done then share else if i in todo then 0 else sizes[i]
  }

  // Gives every unsettled message the same share.
  method Spread(sizes: seq<nat>, shares: seq<nat>, active: set<nat>, share: nat) returns (shares': seq<nat>)
    requires Progress(sizes, shares, active, share)
    requires forall i :: i in active ==> sizes[i] > share
    ensures shares' == Capped(sizes, share)
    ensures Sum(shares') == Sum(shares) + share * |active|
  {
    hide Sum, Capped, Spreading;
    assert Spreading(sizes, shares, {}, active, share) by { SpreadNone(sizes, shares, active, share); }
    shares' := shares;
    var todo := active;
    ghost var done: set<nat> := {};
    while todo != {}
      invariant done + todo == active && done !! todo
      invariant Spreading(sizes, shares', done, todo, share)
      invariant Sum(shares') == Sum(shares) + share * |done|
      decreases todo
    {
      var i :| i in todo;
      SpreadOne(sizes, shares', done, todo, share, i);
      SumUpdate(shares', i, share);
      OneMore(share, done, i);
      shares' := shares'[i := share];
      todo := todo - {i};
      done := done + {i};
    }
    assert done == active;
    SpreadOut(sizes, shares', active, share);
  }

  lemma SpreadNone(sizes: seq<nat>, shares: seq<nat>, active: set<nat>, share: nat)
    requires Progress(sizes, shares, active, share)
    ensures Spreading(sizes, shares, {}, active, share)
  {
  }

  lemma OneMore(share: nat, done: set<nat>, i: nat)
    requires i !in done
    ensures share * |done + {i}| == share * |done| + share
  {
    assert |done + {i}| == |done| + 1;
  }

  lemma SpreadOne(sizes: seq<nat>, shares: seq<nat>, done: set<nat>, todo: set<nat>, share: nat, i: nat)
    requires Spreading(sizes, shares, done, todo, share) && i in todo && i !in done && i < |sizes|
    ensures |shares| == |sizes| && shares[i] == 0
    ensures Spreading(sizes, shares[i := share], done + {i}, todo - {i}, share)
  {
  }

  lemma SpreadOut(sizes: seq<nat>, shares: seq<nat>, active: set<nat>, share: nat)
    requires Spreading(sizes, shares, active, {}, share)
    requires forall i :: 0 <= i < |sizes| ==> if i in active then sizes[i] > share else sizes[i] <= share
    ensures shares == Capped(sizes, share)
  {
  }

  // How many sizes are above the share.
  function Above(sizes: seq<nat>, share: nat): nat {
    if sizes == [] then 0
    else Above(sizes[..|sizes| - 1], share) + if sizes[|sizes| - 1] > share then 1 else 0
  }

  lemma {:induction false} CountActive(sizes: seq<nat>, active: set<nat>, share: nat)
    requires Indices(active, |sizes|)
    requires forall i :: 0 <= i < |sizes| ==> (i in active <==> sizes[i] > share)
    ensures |active| == Above(sizes, share)
  {
    if sizes == [] {
      assert active == {};
    } else {
      var n := |sizes| - 1;
      CountActive(sizes[..n], active - {n}, share);
      assert n in active ==> active == (active - {n}) + {n};
      assert n !in active ==> active == active - {n};
    }
  }

  lemma {:induction false} SumAppend(s: seq<nat>, x: nat)
    ensures Sum(s + [x]) == Sum(s) + x
  {
    if s != [] {
      assert (s + [x])[1..] == s[1..] + [x];
      SumAppend(s[1..], x);
    }
  }

  // Raising the level by one costs one for each size above it.
  lemma {:induction false} RaiseLevel(sizes: seq<nat>, share: nat)
    ensures Sum(Capped(sizes, share + 1)) == Sum(Capped(sizes, share)) + Above(sizes, share)
  {
    if sizes != [] {
      var n := |sizes| - 1;
      RaiseLevel(sizes[..n], share);
      SumAppend(Capped(sizes[..n], share + 1), Min(sizes[n], share + 1));
      SumAppend(Capped(sizes[..n], share), Min(sizes[n], share));
      assert Capped(sizes, share + 1) == Capped(sizes[..n], share + 1) + [Min(sizes[n], share + 1)];
      assert Capped(sizes, share) == Capped(sizes[..n], share) + [Min(sizes[n], share)];
    }
  }

  // When no unsettled message fits an even split of the rest, that split is the fair level.
  lemma SplitIsFair(sizes: seq<nat>, shares: seq<nat>, active: set<nat>, left: nat, share: nat, available: nat)
    requires Progress(sizes, shares, active, share) && active != {}
    requires forall i :: i in active ==> sizes[i] > share
    requires left + Sum(shares) == available && share * |active| <= left < (share + 1) * |active|
    requires Sum(Capped(sizes, share)) == Sum(shares) + share * |active|
    ensures MaxMinFair(sizes, available, share, Capped(sizes, share)) && Sum(sizes) > available
  {
    CountActive(sizes, active, share);
    RaiseLevel(sizes, share);
    assert (share + 1) * |active| == share * |active| + |active|;
    SumMonotone(Capped(sizes, share + 1), sizes);
  }

  lemma Unsettled(sizes: seq<nat>, shares: seq<nat>, active: set<nat>)
    requires shares == seq(|sizes|, i => 0) && forall j: nat :: j in active <==> j < |sizes|
    ensures Progress(sizes, shares, active, 0) && Sum(shares) == 0
  {
    Zeros(sizes);
  }

  lemma RaiseFloor(sizes: seq<nat>, shares: seq<nat>, active: set<nat>, floor: nat, share: nat)
    requires Progress(sizes, shares, active, floor) && floor <= share
    ensures Progress(sizes, shares, active, share)
  {
  }

  lemma AllSettled(sizes: seq<nat>, shares: seq<nat>, floor: nat)
    requires Progress(sizes, shares, {}, floor)
    ensures shares == sizes
  {
  }

  // Divides the amount among the sizes. `levels` are the shares of the successive passes.
  method Allocate(sizes: seq<nat>, available: nat) returns (shares: seq<nat>, ghost levels: seq<nat>)
    ensures Sum(sizes) <= available ==> shares == sizes
    ensures Sum(sizes) > available ==> levels != [] && MaxMinFair(sizes, available, levels[|levels| - 1], shares)
    ensures forall i, j :: 0 <= i < j < |levels| ==> levels[i] <= levels[j]
  {
    hide Sum, Capped, Progress, MaxMinFair;
    var left: nat := available;
    shares := seq(|sizes|, i => 0);
    var active: set<nat> := {};
    for i := 0 to |sizes|
      invariant forall j: nat :: j in active <==> j < i
    {
      active := active + {i};
    }
    levels := [];
    ghost var floor: nat := 0;
    Unsettled(sizes, shares, active);
    while active != {}
      invariant Progress(sizes, shares, active, floor)
      invariant left + Sum(shares) == available
      invariant active != {} ==> floor * |active| <= left
      invariant levels == [] ==> floor == 0
      invariant levels != [] ==> floor == levels[|levels| - 1]
      invariant forall i, j :: 0 <= i < j < |levels| ==> levels[i] <= levels[j]
      decreases active
    {
      var share := left / |active|;
      Quotient(left, |active|);
      QuotientAtLeast(left, |active|, floor);
      RaiseFloor(sizes, shares, active, floor, share);
      levels := levels + [share];
      var settled;
      shares, active, left, settled := Pass(sizes, shares, active, left, share);
      floor := share;
      if !settled {
        ghost var before := shares;
        shares := Spread(sizes, shares, active, share);
        SplitIsFair(sizes, before, active, left, share, available);
        return;
      }
    }
    AllSettled(sizes, shares, floor);
  }

  lemma Zeros(sizes: seq<nat>)
    ensures Sum(seq(|sizes|, i => 0)) == 0
    decreases |sizes|
  {
    var z := seq(|sizes|, i => 0);
    if sizes != [] {
      Zeros(sizes[1..]);
      assert z[1..] == seq(|sizes[1..]|, i => 0);
    }
  }
}
