/**
  The decision request: a model, the presets' descriptions as criteria, and the state.
*/
module AutomodelRequest {
  import opened AutomodelText
  import opened AutomodelBudget

  datatype Preset = Preset(id: Text, description: Text)

  type Criteria = map<Text, Text>

  // A key, its value, their quotes and the colon.
  function EntrySize(id: Text, description: Text): nat {
    5 + Json(id) + Json(description)
  }

  ghost function Total(c: Criteria, keys: set<Text>): nat
    requires keys <= c.Keys
  {
    if keys == {} then 0
    else
      var k :| k in keys;
      EntrySize(k, c[k]) + Total(c, keys - {k})
  }

  // The sum does not depend on the order of the keys.
  lemma {:induction false} TotalWithout(c: Criteria, keys: set<Text>, x: Text)
    requires keys <= c.Keys && x in keys
    ensures Total(c, keys) == EntrySize(x, c[x]) + Total(c, keys - {x})
    decreases keys
  {
    var k :| k in keys && Total(c, keys) == EntrySize(k, c[k]) + Total(c, keys - {k});
    if k != x {
      TotalWithout(c, keys - {k}, x);
      TotalWithout(c, keys - {x}, k);
      assert keys - {k} - {x} == keys - {x} - {k};
    }
  }

  // Fewer criteria with the same descriptions take no more room.
  lemma {:induction false} TotalSubset(a: Criteria, b: Criteria, keys: set<Text>, more: set<Text>)
    requires keys <= a.Keys && more <= b.Keys && keys <= more
    requires forall k :: k in keys ==> a[k] == b[k]
    ensures Total(a, keys) <= Total(b, more) && |keys| <= |more|
    decreases keys
  {
    if keys == {} {
    } else {
      var k :| k in keys;
      TotalWithout(a, keys, k);
      TotalWithout(b, more, k);
      TotalSubset(a, b, keys - {k}, more - {k});
      assert |keys| == |keys - {k}| + 1 && |more| == |more - {k}| + 1;
    }
  }

  ghost function ObjectSize(c: Criteria): nat {
    2 + Total(c, c.Keys) + if c == map[] then 0 else |c.Keys| - 1
  }

  const REQUEST_FRAME := 92

  // The encoded request around an encoded state.
  ghost function RequestSize(model: Text, instructions: Text, c: Criteria, state: nat): nat {
    REQUEST_FRAME + Json(model) + Json(instructions) + ObjectSize(c) + state
  }

  // The criteria of a list of presets; a later preset with the same identifier wins.
  function CriteriaOf(presets: seq<Preset>): Criteria {
    if presets == [] then map[]
    else CriteriaOf(presets[..|presets| - 1])[presets[|presets| - 1].id := presets[|presets| - 1].description]
  }

  method Collect(presets: seq<Preset>) returns (c: Criteria)
    ensures c == CriteriaOf(presets)
  {
    c := map[];
    for i := 0 to |presets|
      invariant c == CriteriaOf(presets[..i])
    {
      assert presets[..i + 1][..i] == presets[..i];
      c := c[presets[i].id := presets[i].description];
    }
    assert presets[..|presets|] == presets;
  }

  lemma {:induction false} CriteriaMembers(presets: seq<Preset>, id: Text)
    ensures id in CriteriaOf(presets) <==> exists i :: 0 <= i < |presets| && presets[i].id == id
    ensures id in CriteriaOf(presets) ==>
              exists i :: 0 <= i < |presets| && presets[i].id == id && presets[i].description == CriteriaOf(presets)[id]
  {
    if presets != [] {
      var n := |presets| - 1;
      CriteriaMembers(presets[..n], id);
      if presets[n].id != id && id in CriteriaOf(presets[..n]) {
        var i :| 0 <= i < n && presets[..n][i].id == id && presets[..n][i].description == CriteriaOf(presets[..n])[id];
        assert presets[i].id == id;
      }
    }
  }

  predicate DistinctIds(presets: seq<Preset>) {
    forall i, j :: 0 <= i < j < |presets| ==> presets[i].id != presets[j].id
  }

  // What compiling an automatic model accepts: distinct presets whose criteria leave the state its room.
  ghost predicate Compiled(model: Text, instructions: Text, presets: seq<Preset>) {
    DistinctIds(presets) && RequestSize(model, instructions, CriteriaOf(presets), 2) <= MAX_REQUEST - MAX_STATE
  }

  lemma SubsetCriteria(all: seq<Preset>, some: seq<Preset>, id: Text)
    requires DistinctIds(all) && (forall i :: 0 <= i < |some| ==> some[i] in all)
    requires id in CriteriaOf(some)
    ensures id in CriteriaOf(all) && CriteriaOf(all)[id] == CriteriaOf(some)[id]
  {
    CriteriaMembers(some, id);
    var i :| 0 <= i < |some| && some[i].id == id && some[i].description == CriteriaOf(some)[id];
    var j :| 0 <= j < |all| && all[j] == some[i];
    assert all[j].id == id;
    CriteriaMembers(all, id);
    var k :| 0 <= k < |all| && all[k].id == id && all[k].description == CriteriaOf(all)[id];
    assert j == k;
  }

  // For every choice of an accepted model's presets and every state Extract yields, the request
  // is within its limit.
  lemma RequestNeverTooLarge(model: Text, instructions: Text, all: seq<Preset>, some: seq<Preset>, s: State)
    requires Compiled(model, instructions, all) && StateSize(s) <= MAX_STATE
    requires forall i :: 0 <= i < |some| ==> some[i] in all
    ensures RequestSize(model, instructions, CriteriaOf(some), StateSize(s)) <= MAX_REQUEST - 2
  {
    var a, b := CriteriaOf(some), CriteriaOf(all);
    forall id | id in a ensures id in b && a[id] == b[id] {
      SubsetCriteria(all, some, id);
    }
    TotalSubset(a, b, a.Keys, b.Keys);
    assert b == map[] ==> b.Keys == {};
    assert a != map[] ==> |a.Keys| > 0;
  }

  // The encoded size of the criteria, key by key.
  method MeasureCriteria(c: Criteria) returns (size: nat)
    ensures size == ObjectSize(c)
  {
    size := 2;
    var rest := c.Keys;
    while rest != {}
      invariant rest <= c.Keys && size + Total(c, rest) == 2 + Total(c, c.Keys)
      decreases rest
    {
      var k :| k in rest;
      TotalWithout(c, rest, k);
      size := size + EntrySize(k, c[k]);
      rest := rest - {k};
    }
    if |c| > 0 {
      size := size + |c| - 1;
    }
    assert |c| == |c.Keys|;
  }

  // Builds the request and refuses it when it is over its limit, which for presets of an accepted
  // model and an extracted state it never is.
  method BuildRequest(model: Text, instructions: Text, presets: seq<Preset>, s: State) returns (size: nat, refused: bool)
    ensures size == RequestSize(model, instructions, CriteriaOf(presets), StateSize(s))
    ensures refused <==> size > MAX_REQUEST
    ensures StateSize(s) <= MAX_STATE ==>
              forall all {:trigger Compiled(model, instructions, all)} ::
                Compiled(model, instructions, all) && (forall i :: 0 <= i < |presets| ==> presets[i] in all) ==> !refused
  {
    var criteria := Collect(presets);
    var encoded := MeasureCriteria(criteria);
    size := REQUEST_FRAME + Json(model) + Json(instructions) + encoded + StateSize(s);
    refused := size > MAX_REQUEST;
    hide Compiled, RequestSize;
    forall all | StateSize(s) <= MAX_STATE && Compiled(model, instructions, all) &&
                 (forall i :: 0 <= i < |presets| ==> presets[i] in all)
      ensures !refused
    {
      RequestNeverTooLarge(model, instructions, all, presets, s);
    }
  }
}
