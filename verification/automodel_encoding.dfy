/**
  The JSON texts whose lengths the budgets are about, the clip of a text, and the newest-first rule in
  terms of the encoded list.
*/
module AutomodelEncoding {
  import opened AutomodelText
  import opened AutomodelCompact
  import opened AutomodelBudget
  import opened AutomodelRequest
  import opened AutomodelFair

  // ---- encoded texts -------------------------------------------------------------------

  // The values are given as the text between their quotes.
  function MessageText(role: string, kind: string, text: string): string {
    "{\"role\":\"" + role + "\",\"kind\":\"" + kind + "\",\"text\":\"" + text + "\"}"
  }

  lemma MessageIsWritten(m: Message, role: string, kind: string, text: string)
    requires |role| == Json(m.role) && |kind| == Json(m.kind) && |text| == Json(m.text)
    ensures |MessageText(role, kind, text)| == Size(m)
  {
    hide Json;
  }

  function Commas(items: seq<string>): string {
    if items == [] then ""
    else if |items| == 1 then items[0]
    else Commas(items[..|items| - 1]) + "," + items[|items| - 1]
  }

  lemma {:induction false} ListIsWritten(ms: seq<Message>, items: seq<string>)
    requires |items| == |ms| && forall i :: 0 <= i < |ms| ==> |items[i]| == Size(ms[i])
    ensures |"[" + Commas(items) + "]"| == ListSize(ms)
    decreases |ms|
  {
    if ms != [] {
      var n := |ms| - 1;
      ListIsWritten(ms[..n], items[..n]);
      DropLast(ms);
    }
  }

  function Truth(b: bool): string { if b then "true" else "false" }

  function StateText(s: State, task: string, recent: string, instructions: string): string {
    "{\"execution_phase\":\"" + PhaseName(s.phase) + "\",\"current_task\":\"" + task
    + "\",\"recent_context\":" + recent + ",\"client_instructions\":" + instructions
    + ",\"input_features\":{\"has_tools\":" + Truth(s.hasTools) + ",\"has_non_text_content\":" + Truth(s.hasNonText)
    + "},\"context_truncated\":" + Truth(s.truncated) + "}"
  }

  lemma StateIsWritten(s: State, task: string, recent: string, instructions: string)
    requires |task| == Json(s.task) && |recent| == ListSize(s.recent) && |instructions| == ListSize(s.instructions)
    ensures |StateText(s, task, recent, instructions)| == StateSize(s)
  {
    hide Json, ListSize, PhaseName;
  }

  function EntryText(id: string, description: string): string {
    "\"" + id + "\":\"" + description + "\""
  }

  // The keys of the criteria, as they are written one after the other.
  ghost predicate Lists(keys: seq<Text>, all: set<Text>) {
    && (forall k :: k in all <==> k in keys)
    && forall i, j :: 0 <= i < j < |keys| ==> keys[i] != keys[j]
  }

  ghost predicate Written(c: Criteria, keys: seq<Text>, items: seq<string>) {
    |items| == |keys| && forall i :: 0 <= i < |keys| ==> keys[i] in c && |items[i]| == EntrySize(keys[i], c[keys[i]])
  }

  lemma ListsFewer(keys: seq<Text>, all: set<Text>)
    requires Lists(keys, all) && keys != []
    ensures keys[|keys| - 1] in all && Lists(keys[..|keys| - 1], all - {keys[|keys| - 1]})
  {
    var n := |keys| - 1;
    assert keys == keys[..n] + [keys[n]];
  }

  // Whatever order they are written in.
  lemma {:induction false} EntriesAreWritten(c: Criteria, keys: seq<Text>, items: seq<string>, all: set<Text>)
    requires all <= c.Keys && Lists(keys, all) && Written(c, keys, items)
    ensures |Commas(items)| == Total(c, all) + (if keys == [] then 0 else |keys| - 1) && |keys| == |all|
    decreases |keys|
  {
    if keys == [] {
      assert all == {};
    } else {
      var n := |keys| - 1;
      ListsFewer(keys, all);
      hide EntrySize, Lists;
      EntriesAreWritten(c, keys[..n], items[..n], all - {keys[n]});
      TotalWithout(c, all, keys[n]);
      assert |all| == |all - {keys[n]}| + 1;
    }
  }

  lemma EntryIsWritten(id: Text, description: Text, a: string, b: string)
    requires |a| == Json(id) && |b| == Json(description)
    ensures |EntryText(a, b)| == EntrySize(id, description)
  {
    hide Json;
  }

  // The criteria are an object of such entries.
  lemma CriteriaAreWritten(c: Criteria, keys: seq<Text>, items: seq<string>)
    requires Lists(keys, c.Keys) && Written(c, keys, items)
    ensures |"{" + Commas(items) + "}"| == ObjectSize(c)
  {
    EntriesAreWritten(c, keys, items, c.Keys);
    hide Total, EntrySize, Commas, Written;
    if keys == [] {
      assert c.Keys == {};
    } else {
      assert keys[0] in c.Keys;
    }
  }

  function RequestText(model: string, instructions: string, criteria: string, state: string): string {
    "{\"model\":\"" + model + "\",\"questions\":{\"preset\":{\"criteria\":" + criteria + ",\"instructions\":\"" + instructions
    + "\",\"type\":\"choice\"}},\"state\":" + state + "}"
  }

  lemma RequestIsWritten(model: Text, instructions: Text, c: Criteria, a: string, b: string, criteria: string, state: string)
    requires |a| == Json(model) && |b| == Json(instructions) && |criteria| == ObjectSize(c)
    ensures |RequestText(a, b, criteria, state)| == RequestSize(model, instructions, c, |state|)
  {
    hide Json, ObjectSize;
  }

  // ---- clips -----------------------------------------------------------------------------

  // The longest beginning of whole code points within n bytes, and the longest end.
  predicate LongestHead(t: Text, n: nat, i: nat) {
    i <= |t| && Bytes(t[..i]) <= n && (i < |t| ==> Bytes(t[..i + 1]) > n)
  }

  predicate LongestTail(t: Text, n: nat, j: nat) {
    j <= |t| && Bytes(t[|t| - j..]) <= n && (j < |t| ==> Bytes(t[|t| - j - 1..]) > n)
  }

  lemma HeadMeans(t: Text, n: nat, i: nat)
    requires ValidText(t) && LongestHead(t, n, i)
    ensures Head(t, n) == t[..i]
  {
    hide Head, Bytes;
    HeadGrows(t, n, n);
    HeadIsLongest(t, n, i);
    var h := |Head(t, n)|;
    assert Head(t, n) == t[..h];
    if i < h {
      assert t[..h] == t[..i + 1] + t[i + 1..h];
      Sums(t[..i + 1], t[i + 1..h]);
    }
  }

  lemma TailMeans(t: Text, n: nat, j: nat)
    requires ValidText(t) && LongestTail(t, n, j)
    ensures Tail(t, n) == t[|t| - j..]
  {
    hide Tail, Bytes;
    TailGrows(t, n, n);
    TailIsSuffix(t, n);
    TailIsLongest(t, n, j);
    var l := |Tail(t, n)|;
    if j < l {
      assert t[|t| - l..] == t[|t| - l..|t| - j - 1] + t[|t| - j - 1..];
      Sums(t[|t| - l..|t| - j - 1], t[|t| - j - 1..]);
    }
  }

  // A text over its limit keeps the longest beginning and the longest end that fit into half of what the
  // marker leaves.
  lemma ClipKeepsBothEnds(t: Text, limit: nat, i: nat, j: nat)
    requires ValidText(t) && 13 <= limit < Bytes(t)
    requires LongestHead(t, (limit - 13) / 2, i) && LongestTail(t, (limit - 13) / 2, j)
    ensures Clip(t, limit) == t[..i] + MARKER + t[|t| - j..]
  {
    hide Head, Tail, Bytes, Word, ValidText, LongestHead, LongestTail;
    HeadMeans(t, (limit - 13) / 2, i);
    TailMeans(t, (limit - 13) / 2, j);
  }

  // ---- newest first ------------------------------------------------------------------------

  // Room for one more message before the newer ones that were kept.
  lemma RoomFor(s: Selection, lo: nat, n: nat, budget: int, m: Message)
    ensures ListSize([m] + Picked(s, lo, n)) <= budget <==> Size(m) <= RemainingAt(s, lo, n, budget)
  {
    hide Size, Sum;
    PickedSize(s, lo, n);
    var list := [m] + Picked(s, lo, n);
    assert Sizes(list) == [Size(m)] + Sizes(Picked(s, lo, n));
    SumFront(Size(m), Sizes(Picked(s, lo, n)));
  }

  lemma SumFront(x: nat, rest: seq<nat>)
    ensures Sum([x] + rest) == x + Sum(rest)
  {
  }

  // A limit at which the clip of the message fits before the newer ones, and no larger one does.
  ghost predicate LargestClip(m: Message, newer: seq<Message>, budget: int, limit: nat) {
    && 15 <= limit <= Bytes(m.text) && ListSize([Clipped(m, limit)] + newer) <= budget
    && forall l :: limit < l <= Bytes(m.text) ==> ListSize([Clipped(m, l)] + newer) > budget
  }

  // Each message is kept whole exactly if it fits into the budget together with what is kept of the newer
  // ones; else its largest clip that does; else nothing.
  lemma NewestKept(items: seq<Indexed>, s: Selection, n: nat, budget: int, truncated: bool, i: nat)
    requires Decided(items, s, n, budget, 0, truncated) && i < |items|
    ensures var m, k := items[i].message, items[i].index;
            var newer := Picked(s, k + 1, n);
            if ListSize([m] + newer) <= budget then k in s && s[k] == m
            else if k in s then exists limit :: LargestClip(m, newer, budget, limit) && s[k] == Clipped(m, limit)
            else forall l :: 15 <= l <= Bytes(m.text) ==> ListSize([Clipped(m, l)] + newer) > budget
  {
    hide Clipped, Picked, Bytes, Json, RemainingAt, UsedFrom, Whole;
    var m, k := items[i].message, items[i].index;
    var newer, remaining := Picked(s, k + 1, n), RemainingAt(s, k + 1, n, budget);
    assert NewestFirst(items[i], s, n, budget);
    forall x: Message ensures ListSize([x] + newer) <= budget <==> Size(x) <= remaining {
      RoomFor(s, k + 1, n, budget, x);
    }
    if Size(m) > remaining && k in s {
      var limit :| LargestFit(m, remaining, limit) && s[k] == Clipped(m, limit);
      assert LargestClip(m, newer, budget, limit);
    }
  }
}
