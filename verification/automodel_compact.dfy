/**
  Compacting messages into byte budgets: instructions fairly, recent context newest first.
*/
module AutomodelCompact {
  import opened Wrappers
  import opened AutomodelText
  import opened AutomodelFair

  function Sizes(ms: seq<Message>): (s: seq<nat>)
    ensures |s| == |ms| && forall i :: 0 <= i < |ms| ==> s[i] == Size(ms[i])
  {
    if ms == [] then [] else [Size(ms[0])] + Sizes(ms[1..])
  }

  // The encoded array: brackets, elements and commas.
  function ListSize(ms: seq<Message>): nat {
    2 + Sum(Sizes(ms)) + if ms == [] then 0 else |ms| - 1
  }

  lemma EmptyList()
    ensures ListSize([]) == 2
  {
  }

  // What a message becomes when it may take this much: itself, its longest fitting clip, or nothing.
  ghost predicate FittedTo(m: Message, share: int, out: Option<Message>) {
    if Size(m) <= share then out == Some(m)
    else if NothingFits(m, share) then out == None
    else exists limit :: LargestFit(m, share, limit) && out == Some(Clipped(m, limit))
  }

  lemma FittedSize(m: Message, share: int, out: Option<Message>)
    requires FittedTo(m, share, out) && out.Some?
    ensures Size(out.value) <= share && (Size(m) <= share <==> out.value == m)
  {
  }

  method FitTo(m: Message, share: int) returns (out: Option<Message>)
    ensures FittedTo(m, share, out)
  {
    if Size(m) <= share {
      return Some(m);
    }
    var best, found, limit := Fit(m, share);
    if found {
      assert LargestFit(m, share, limit);
      assert Size(Clipped(m, limit)) <= share;
      return Some(best);
    }
    return None;
  }

  // ---- instructions ------------------------------------------------------------------------

  function Present(outs: seq<Option<Message>>): seq<Message> {
    if outs == [] then []
    else Present(outs[..|outs| - 1]) + if outs[|outs| - 1].Some? then [outs[|outs| - 1].value] else []
  }

  // The outcome of a fair compaction: one level, and each message fitted to its share of it.
  ghost predicate FairlyCompacted(ms: seq<Message>, available: nat, level: nat, outs: seq<Option<Message>>) {
    && MaxMinFair(Sizes(ms), available, level, Capped(Sizes(ms), level))
    && |outs| == |ms|
    && forall i :: 0 <= i < |ms| ==> FittedTo(ms[i], Min(Size(ms[i]), level), outs[i])
  }

  lemma {:induction false} PresentSize(outs: seq<Option<Message>>, shares: seq<nat>)
    requires |outs| == |shares|
    requires forall i :: 0 <= i < |outs| && outs[i].Some? ==> Size(outs[i].value) <= shares[i]
    ensures Sum(Sizes(Present(outs))) <= Sum(shares) && |Present(outs)| <= |outs|
  {
    if outs != [] {
      var n := |outs| - 1;
      PresentSize(outs[..n], shares[..n]);
      SumAppend(shares[..n], shares[n]);
      assert shares == shares[..n] + [shares[n]];
      if outs[n].Some? {
        SizesAppend(Present(outs[..n]), outs[n].value);
      } else {
        assert Present(outs) == Present(outs[..n]);
      }
    }
  }

  lemma SizesAppend(ms: seq<Message>, m: Message)
    ensures Sum(Sizes(ms + [m])) == Sum(Sizes(ms)) + Size(m)
  {
    assert Sizes(ms + [m]) == Sizes(ms) + [Size(m)];
    SumAppend(Sizes(ms), Size(m));
  }

  // Fits every message to its share.
  method FitAll(ms: seq<Message>, shares: seq<nat>) returns (result: seq<Message>, ghost outs: seq<Option<Message>>)
    requires |shares| == |ms|
    ensures |outs| == |ms| && result == Present(outs)
    ensures forall i :: 0 <= i < |ms| ==> FittedTo(ms[i], shares[i], outs[i])
    ensures Sum(Sizes(result)) <= Sum(shares) && |result| <= |ms|
  {
    hide FittedTo, Sum, Sizes;
    result, outs := [], [];
    for i := 0 to |ms|
      invariant |outs| == i && result == Present(outs)
      invariant forall j :: 0 <= j < i ==> FittedTo(ms[j], shares[j], outs[j])
    {
      var out := FitTo(ms[i], shares[i]);
      outs := outs + [out];
      assert outs[..i] == outs[..|outs| - 1];
      if out.Some? {
        result := result + [out.value];
      }
    }
    forall i | 0 <= i < |outs| && outs[i].Some? ensures Size(outs[i].value) <= shares[i] {
      FittedSize(ms[i], shares[i], outs[i]);
    }
    PresentSize(outs, shares);
  }

  method CompactFair(ms: seq<Message>, budget: int)
    returns (result: seq<Message>, truncated: bool, ghost level: nat, ghost outs: seq<Option<Message>>)
    ensures truncated <==> ListSize(ms) > budget && ms != []
    ensures !truncated && ListSize(ms) <= budget ==> result == ms
    ensures budget >= 2 ==> ListSize(result) <= budget
    ensures truncated && budget <= 2 + |ms| - 1 ==> result == []
    ensures truncated && budget > 2 + |ms| - 1 ==>
              result == Present(outs) && FairlyCompacted(ms, budget - 2 - (|ms| - 1), level, outs)
  {
    hide FittedTo, Sum, Sizes, Capped, MaxMinFair, Size;
    level, outs := 0, [];
    if ListSize(ms) <= budget {
      return ms, false, level, outs;
    }
    if |ms| == 0 || budget <= 2 + |ms| - 1 {
      EmptyList();
      return [], |ms| > 0, level, outs;
    }
    var available := budget - 2 - (|ms| - 1);
    var sizes := Sizes(ms);
    var shares, levels := Allocate(sizes, available);
    level := levels[|levels| - 1];
    FairShares(sizes, available, level, shares);
    result, outs := FitAll(ms, shares);
    assert forall i :: 0 <= i < |ms| ==> shares[i] == Min(Size(ms[i]), level);
    return result, true, level, outs;
  }

  lemma FairShares(sizes: seq<nat>, available: nat, level: nat, shares: seq<nat>)
    requires MaxMinFair(sizes, available, level, shares)
    ensures shares == Capped(sizes, level) && Sum(shares) <= available
    ensures |shares| == |sizes| && forall i :: 0 <= i < |sizes| ==> shares[i] == Min(sizes[i], level)
  {
  }

  // ---- recent context ----------------------------------------------------------------------

  datatype Indexed = Indexed(index: nat, message: Message)

  type Selection = map<nat, Message>

  // Sizes and number of the selected messages from an index on.
  function TotalFrom(s: Selection, lo: nat, n: nat): nat
    decreases n - lo
  {
    if lo >= n then 0 else (if lo in s then Size(s[lo]) else 0) + TotalFrom(s, lo + 1, n)
  }

  function CountFrom(s: Selection, lo: nat, n: nat): nat
    decreases n - lo
  {
    if lo >= n then 0 else (if lo in s then 1 else 0) + CountFrom(s, lo + 1, n)
  }

  function UsedFrom(s: Selection, lo: nat, n: nat): nat {
    2 + TotalFrom(s, lo, n) + if CountFrom(s, lo, n) == 0 then 0 else CountFrom(s, lo, n) - 1
  }

  function RemainingAt(s: Selection, lo: nat, n: nat, budget: int): int {
    budget - UsedFrom(s, lo, n) - if CountFrom(s, lo, n) > 0 then 1 else 0
  }

  lemma {:induction false} SameFrom(a: Selection, b: Selection, lo: nat, n: nat)
    requires forall k :: lo <= k < n ==> (k in a <==> k in b) && (k in a ==> a[k] == b[k])
    ensures TotalFrom(a, lo, n) == TotalFrom(b, lo, n) && CountFrom(a, lo, n) == CountFrom(b, lo, n)
    decreases n - lo
  {
    if lo < n {
      SameFrom(a, b, lo + 1, n);
    }
  }

  lemma {:induction false} EmptyBetween(s: Selection, lo: nat, hi: nat, n: nat)
    requires lo <= hi <= n && forall k :: lo <= k < hi ==> k !in s
    ensures TotalFrom(s, lo, n) == TotalFrom(s, hi, n) && CountFrom(s, lo, n) == CountFrom(s, hi, n)
    decreases hi - lo
  {
    if lo < hi {
      EmptyBetween(s, lo + 1, hi, n);
    }
  }

  lemma {:induction false} Disjoint(a: Selection, b: Selection, lo: nat, n: nat)
    requires a.Keys !! b.Keys
    ensures TotalFrom(a + b, lo, n) == TotalFrom(a, lo, n) + TotalFrom(b, lo, n)
    ensures CountFrom(a + b, lo, n) == CountFrom(a, lo, n) + CountFrom(b, lo, n)
    decreases n - lo
  {
    if lo < n {
      Disjoint(a, b, lo + 1, n);
    }
  }

  predicate Ascending(items: seq<Indexed>, n: nat) {
    && (forall i, j :: 0 <= i < j < |items| ==> items[i].index < items[j].index)
    && (forall i :: 0 <= i < |items| ==> items[i].index < n)
  }

  function Chosen(s: Selection, k: nat): Option<Message> {
    if k in s then Some(s[k]) else None
  }

  // A message takes what the newer ones leave it: itself, a clip, or nothing.
  ghost predicate NewestFirst(item: Indexed, s: Selection, n: nat, budget: int) {
    var remaining := RemainingAt(s, item.index + 1, n, budget);
    if remaining <= 0 then item.index !in s
    else FittedTo(item.message, remaining, Chosen(s, item.index))
  }

  // Later choices, about older messages, do not disturb the rule.
  lemma RuleStays(item: Indexed, s: Selection, n: nat, budget: int, k: nat, m: Message)
    requires NewestFirst(item, s, n, budget) && k < item.index
    ensures NewestFirst(item, s[k := m], n, budget)
  {
    hide FittedTo, TotalFrom, CountFrom, Size;
    SameFrom(s, s[k := m], item.index + 1, n);
  }

  lemma ChoiceCounts(s: Selection, k: nat, n: nat, m: Message)
    requires k < n && forall x :: x in s ==> k < x
    ensures TotalFrom(s[k := m], 0, n) == TotalFrom(s, 0, n) + Size(m)
    ensures CountFrom(s[k := m], 0, n) == CountFrom(s, 0, n) + 1
    ensures TotalFrom(s, 0, n) == TotalFrom(s, k + 1, n) && CountFrom(s, 0, n) == CountFrom(s, k + 1, n)
  {
    EmptyBetween(s, 0, k + 1, n);
    EmptyBetween(s[k := m], 0, k, n);
    SameFrom(s, s[k := m], k + 1, n);
  }

  lemma NothingYet(n: nat, lo: nat)
    ensures TotalFrom(map[], lo, n) == 0 && CountFrom(map[], lo, n) == 0
    decreases n - lo
  {
    if lo < n {
      NothingYet(n, lo + 1);
    }
  }

  // The messages from the i-th on have been decided.
  ghost predicate Decided(items: seq<Indexed>, s: Selection, n: nat, budget: int, i: nat, truncated: bool) {
    && i <= |items|
    && (forall k :: k in s ==> exists j :: i <= j < |items| && items[j].index == k)
    && (forall j :: i <= j < |items| ==> NewestFirst(items[j], s, n, budget))
    && UsedFrom(s, 0, n) <= (if budget < 2 then 2 else budget)
    && truncated == !Whole(items, s, i)
  }

  // The messages from the i-th on are selected, unclipped.
  ghost predicate Whole(items: seq<Indexed>, s: Selection, i: nat) {
    forall j :: i <= j < |items| ==> Chosen(s, items[j].index) == Some(items[j].message)
  }

  lemma WholeNext(items: seq<Indexed>, s: Selection, n: nat, i: nat, m: Message)
    requires i < |items| && Ascending(items, n) && forall k :: k in s ==> items[i].index < k
    ensures Whole(items, s[items[i].index := m], i) <==> Whole(items, s, i + 1) && m == items[i].message
    ensures !Whole(items, s, i)
  {
    var next := s[items[i].index := m];
    forall j | i < j < |items| ensures Chosen(next, items[j].index) == Chosen(s, items[j].index) {
    }
    assert Chosen(next, items[i].index) == Some(m);
  }

  lemma StartDecided(items: seq<Indexed>, n: nat, budget: int)
    ensures Decided(items, map[], n, budget, |items|, false)
    ensures CountFrom(map[], 0, n) == 0 && UsedFrom(map[], 0, n) == 2
  {
    NothingYet(n, 0);
  }

  // What is selected so far is all newer than the next message.
  lemma NextIsOlder(items: seq<Indexed>, s: Selection, n: nat, budget: int, i: nat, truncated: bool)
    requires i < |items| && Ascending(items, n) && Decided(items, s, n, budget, i + 1, truncated)
    ensures forall k :: k in s ==> items[i].index < k
    ensures TotalFrom(s, 0, n) == TotalFrom(s, items[i].index + 1, n)
    ensures CountFrom(s, 0, n) == CountFrom(s, items[i].index + 1, n)
  {
    ChoiceCounts(s, items[i].index, n, items[i].message);
  }

  lemma Skip(items: seq<Indexed>, s: Selection, n: nat, budget: int, i: nat, truncated: bool)
    requires i < |items| && Ascending(items, n) && Decided(items, s, n, budget, i + 1, truncated)
    requires var remaining := RemainingAt(s, items[i].index + 1, n, budget);
             remaining <= 0 || FittedTo(items[i].message, remaining, None)
    ensures Decided(items, s, n, budget, i, true)
  {
    hide FittedTo, RemainingAt, UsedFrom, Whole;
    NextIsOlder(items, s, n, budget, i, truncated);
    WholeNext(items, s, n, i, items[i].message);
  }

  lemma Take(items: seq<Indexed>, s: Selection, n: nat, budget: int, i: nat, truncated: bool, m: Message)
    requires i < |items| && Ascending(items, n) && Decided(items, s, n, budget, i + 1, truncated)
    requires var remaining := RemainingAt(s, items[i].index + 1, n, budget);
             remaining > 0 && FittedTo(items[i].message, remaining, Some(m))
    ensures var remaining := RemainingAt(s, items[i].index + 1, n, budget);
            Decided(items, s[items[i].index := m], n, budget, i, truncated || Size(items[i].message) > remaining)
    ensures CountFrom(s[items[i].index := m], 0, n) == CountFrom(s, 0, n) + 1
    ensures UsedFrom(s[items[i].index := m], 0, n) ==
            UsedFrom(s, 0, n) + Size(m) + if CountFrom(s, 0, n) > 0 then 1 else 0
  {
    hide Size, TotalFrom, CountFrom, Whole, FittedTo;
    var k := items[i].index;
    var next := s[k := m];
    var remaining := RemainingAt(s, k + 1, n, budget);
    NextIsOlder(items, s, n, budget, i, truncated);
    ChoiceCounts(s, k, n, m);
    SameFrom(s, next, k + 1, n);
    WholeNext(items, s, n, i, m);
    FittedSize(items[i].message, remaining, Some(m));
    forall j | i < j < |items| ensures NewestFirst(items[j], next, n, budget) {
      RuleStays(items[j], s, n, budget, k, m);
    }
    assert NewestFirst(items[i], next, n, budget);
    forall x | x in next ensures exists j :: i <= j < |items| && items[j].index == x {
      if x != k {
        assert x in s;
      }
    }
  }

  method CompactNewest(items: seq<Indexed>, ghost n: nat, budget: int) returns (selected: Selection, truncated: bool)
    requires Ascending(items, n)
    ensures Decided(items, selected, n, budget, 0, truncated)
  {
    hide Decided, FittedTo, Size, TotalFrom, Ascending;
    selected, truncated := map[], false;
    var used, count := 2, 0;
    StartDecided(items, n, budget);
    for i := |items| downto 0
      invariant Decided(items, selected, n, budget, i, truncated)
      invariant count == CountFrom(selected, 0, n) && used == UsedFrom(selected, 0, n)
    {
      var item := items[i];
      NextIsOlder(items, selected, n, budget, i, truncated);
      var separator := if count > 0 then 1 else 0;
      var remaining := budget - used - separator;
      if remaining <= 0 {
        Skip(items, selected, n, budget, i, truncated);
        truncated := true;
      } else {
        var out := FitTo(item.message, remaining);
        if out.None? {
          Skip(items, selected, n, budget, i, truncated);
          truncated := true;
        } else {
          Take(items, selected, n, budget, i, truncated, out.value);
          truncated := truncated || Size(item.message) > remaining;
          selected := selected[item.index := out.value];
          used := used + separator + Size(out.value);
          count := count + 1;
        }
      }
    }
  }

  // ---- both kinds together -------------------------------------------------------------------

  const CONVERSATION_BUDGET := 2048
  const TOOL_BUDGET := 1024

  // The selected messages in their original order.
  function Picked(s: Selection, lo: nat, n: nat): seq<Message>
    decreases n - lo
  {
    if lo >= n then [] else (if lo in s then [s[lo]] else []) + Picked(s, lo + 1, n)
  }

  lemma {:induction false} PickedSize(s: Selection, lo: nat, n: nat)
    ensures Sum(Sizes(Picked(s, lo, n))) == TotalFrom(s, lo, n) && |Picked(s, lo, n)| == CountFrom(s, lo, n)
    decreases n - lo
  {
    if lo < n {
      PickedSize(s, lo + 1, n);
      if lo in s {
        assert Sizes(Picked(s, lo, n))[1..] == Sizes(Picked(s, lo + 1, n));
      } else {
        assert Picked(s, lo, n) == Picked(s, lo + 1, n);
      }
    }
  }

  lemma {:induction false} PickedWhole(s: Selection, ms: seq<Message>, lo: nat)
    requires lo <= |ms| && forall k :: lo <= k < |ms| ==> k in s && s[k] == ms[k]
    ensures Picked(s, lo, |ms|) == ms[lo..]
    decreases |ms| - lo
  {
    if lo < |ms| {
      PickedWhole(s, ms, lo + 1);
    }
  }

  // The items are the messages of one kind, by position.
  ghost predicate Sorted(ms: seq<Message>, items: seq<Indexed>, upTo: nat, tools: bool, toolKind: Text) {
    && upTo <= |ms| && Ascending(items, upTo)
    && (forall i :: 0 <= i < |items| ==>
          items[i].message == ms[items[i].index] && ((items[i].message.kind == toolKind) == tools))
    && (forall k :: 0 <= k < upTo && ((ms[k].kind == toolKind) == tools) ==> Contains(items, k))
  }

  ghost predicate Contains(items: seq<Indexed>, k: nat) {
    exists i :: 0 <= i < |items| && items[i].index == k
  }

  lemma SortedNext(ms: seq<Message>, items: seq<Indexed>, i: nat, tools: bool, toolKind: Text)
    requires i < |ms| && Sorted(ms, items, i, tools, toolKind)
    ensures (ms[i].kind == toolKind) == tools ==> Sorted(ms, items + [Indexed(i, ms[i])], i + 1, tools, toolKind)
    ensures (ms[i].kind == toolKind) != tools ==> Sorted(ms, items, i + 1, tools, toolKind)
  {
    var next := items + [Indexed(i, ms[i])];
    assert next[|items|].index == i;
    forall k | 0 <= k < i && Contains(items, k) ensures Contains(next, k) {
      var j :| 0 <= j < |items| && items[j].index == k;
      assert next[j].index == k;
    }
  }

  method Split(ms: seq<Message>, toolKind: Text) returns (regular: seq<Indexed>, tools: seq<Indexed>)
    ensures Sorted(ms, regular, |ms|, false, toolKind) && Sorted(ms, tools, |ms|, true, toolKind)
  {
    regular, tools := [], [];
    for i := 0 to |ms|
      invariant Sorted(ms, regular, i, false, toolKind) && Sorted(ms, tools, i, true, toolKind)
    {
      hide Sorted;
      SortedNext(ms, regular, i, false, toolKind);
      SortedNext(ms, tools, i, true, toolKind);
      if ms[i].kind == toolKind {
        tools := tools + [Indexed(i, ms[i])];
      } else {
        regular := regular + [Indexed(i, ms[i])];
      }
    }
  }

  lemma KindsApart(ms: seq<Message>, regular: seq<Indexed>, tools: seq<Indexed>, toolKind: Text,
                   a: Selection, b: Selection, budgetA: int, budgetB: int, ta: bool, tb: bool)
    requires Sorted(ms, regular, |ms|, false, toolKind) && Sorted(ms, tools, |ms|, true, toolKind)
    requires Decided(regular, a, |ms|, budgetA, 0, ta) && Decided(tools, b, |ms|, budgetB, 0, tb)
    ensures a.Keys !! b.Keys
  {
    hide NewestFirst, UsedFrom;
    forall k | k in a ensures k < |ms| && ms[k].kind != toolKind {
      var i :| 0 <= i < |regular| && regular[i].index == k;
    }
    forall k | k in b ensures k < |ms| && ms[k].kind == toolKind {
      var i :| 0 <= i < |tools| && tools[i].index == k;
    }
  }

  lemma AllKept(ms: seq<Message>, regular: seq<Indexed>, tools: seq<Indexed>, toolKind: Text,
                a: Selection, b: Selection, budgetA: int, budgetB: int)
    requires Sorted(ms, regular, |ms|, false, toolKind) && Sorted(ms, tools, |ms|, true, toolKind)
    requires Decided(regular, a, |ms|, budgetA, 0, false) && Decided(tools, b, |ms|, budgetB, 0, false)
    requires a.Keys !! b.Keys
    ensures forall k :: 0 <= k < |ms| ==> k in a + b && (a + b)[k] == ms[k]
  {
    hide NewestFirst, UsedFrom;
    forall k | 0 <= k < |ms| ensures k in a + b && (a + b)[k] == ms[k] {
      if ms[k].kind == toolKind {
        assert Contains(tools, k);
        var i :| 0 <= i < |tools| && tools[i].index == k;
        assert Chosen(b, tools[i].index) == Some(tools[i].message);
      } else {
        assert Contains(regular, k);
        var i :| 0 <= i < |regular| && regular[i].index == k;
        assert Chosen(a, regular[i].index) == Some(regular[i].message);
      }
    }
  }

  lemma TogetherFits(a: Selection, b: Selection, n: nat)
    requires a.Keys !! b.Keys
    requires UsedFrom(a, 0, n) <= CONVERSATION_BUDGET && UsedFrom(b, 0, n) <= TOOL_BUDGET
    ensures ListSize(Picked(a + b, 0, n)) <= CONVERSATION_BUDGET + TOOL_BUDGET - 1
  {
    Disjoint(a, b, 0, n);
    PickedSize(a + b, 0, n);
  }

  lemma UsedIsWithin(items: seq<Indexed>, s: Selection, n: nat, budget: int, truncated: bool)
    requires Decided(items, s, n, budget, 0, truncated)
    ensures UsedFrom(s, 0, n) <= if budget < 2 then 2 else budget
  {
  }

  lemma SortedAscends(ms: seq<Message>, items: seq<Indexed>, tools: bool, toolKind: Text)
    requires Sorted(ms, items, |ms|, tools, toolKind)
    ensures Ascending(items, |ms|)
  {
  }

  method InOrder(selected: Selection, n: nat) returns (result: seq<Message>)
    ensures result == Picked(selected, 0, n)
  {
    result := [];
    for i := 0 to n
      invariant result + Picked(selected, i, n) == Picked(selected, 0, n)
    {
      assert Picked(selected, i, n) == (if i in selected then [selected[i]] else []) + Picked(selected, i + 1, n);
      if i in selected {
        result := result + [selected[i]];
      }
    }
  }

  // Both kinds in order of position, and what each keeps within its own budget.
  ghost predicate Parts(ms: seq<Message>, toolKind: Text, regular: seq<Indexed>, tools: seq<Indexed>,
                        talk: Selection, tool: Selection, cut: bool, cutTools: bool)
  {
    && Sorted(ms, regular, |ms|, false, toolKind) && Sorted(ms, tools, |ms|, true, toolKind)
    && Decided(regular, talk, |ms|, CONVERSATION_BUDGET, 0, cut)
    && Decided(tools, tool, |ms|, TOOL_BUDGET, 0, cutTools)
  }

  // What is kept of the context, in its order, and whether anything is missing or clipped.
  ghost predicate Compacted(ms: seq<Message>, toolKind: Text, result: seq<Message>, truncated: bool) {
    exists regular, tools, talk, tool, cut, cutTools ::
      && Parts(ms, toolKind, regular, tools, talk, tool, cut, cutTools)
      && result == Picked(talk + tool, 0, |ms|) && truncated == (cut || cutTools)
  }

  // Keeps what fits of the conversation and of the tool results, each newest first, in order.
  method CompactRecent(ms: seq<Message>, toolKind: Text)
    returns (result: seq<Message>, truncated: bool)
    ensures Compacted(ms, toolKind, result, truncated)
    ensures ListSize(result) <= CONVERSATION_BUDGET + TOOL_BUDGET - 1
    ensures !truncated ==> result == ms
  {
    hide Sorted, Decided, UsedFrom, ListSize, Picked, Ascending;
    var talking, fromTools := Split(ms, toolKind);
    SortedAscends(ms, talking, false, toolKind);
    SortedAscends(ms, fromTools, true, toolKind);
    var kept, cut := CompactNewest(talking, |ms|, CONVERSATION_BUDGET);
    var keptTools, cutTools := CompactNewest(fromTools, |ms|, TOOL_BUDGET);
    KindsApart(ms, talking, fromTools, toolKind, kept, keptTools, CONVERSATION_BUDGET, TOOL_BUDGET, cut, cutTools);
    truncated := cut || cutTools;
    UsedIsWithin(talking, kept, |ms|, CONVERSATION_BUDGET, cut);
    UsedIsWithin(fromTools, keptTools, |ms|, TOOL_BUDGET, cutTools);
    TogetherFits(kept, keptTools, |ms|);
    if !truncated {
      AllKept(ms, talking, fromTools, toolKind, kept, keptTools, CONVERSATION_BUDGET, TOOL_BUDGET);
      PickedWhole(kept + keptTools, ms, 0);
    }
    result := InOrder(kept + keptTools, |ms|);
    assert Parts(ms, toolKind, talking, fromTools, kept, keptTools, cut, cutTools);
  }
}
