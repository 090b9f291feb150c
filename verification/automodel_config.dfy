/**
  Compiling the configuration of automatic models: which entries are accepted, and that an accepted
  entry leaves the request its room.
*/
module AutomodelConfig {
  import opened AutomodelText
  import opened AutomodelBudget
  import opened AutomodelRequest

  const MAX_PRESETS := 254

  const MAX_NAME := 255
  const MAX_TIMEOUT := 60

  // A preset with its target model; `overrides` says that its parameter overrides are valid.
  datatype Variant = Variant(preset: Preset, name: Text, model: Text, overrides: bool)

  datatype Entry = Entry(id: Text, name: Text, fallback: Text, options: seq<Variant>)

  datatype Config = Config(enabled: bool, model: Text, timeout: int, instructions: Text, entries: seq<Entry>)

  // ---- names ---------------------------------------------------------------------------------

  // The code points with the property White_Space.
  predicate IsSpace(c: nat) {
    || 0x09 <= c <= 0x0D || c == 0x20 || c == 0x85 || c == 0xA0 || c == 0x1680 || 0x2000 <= c <= 0x200A
    || c == 0x2028 || c == 0x2029 || c == 0x202F || c == 0x205F || c == 0x3000
  }

  // The code points of category Cc.
  predicate IsControl(c: nat) {
    c <= 0x1F || 0x7F <= c <= 0x9F
  }

  // Not empty, not too long, no space at either end, no control characters.
  predicate ValidName(t: Text) {
    && t != [] && Bytes(t) <= MAX_NAME && !IsSpace(t[0].code) && !IsSpace(t[|t| - 1].code)
    && forall i :: 0 <= i < |t| ==> !IsControl(t[i].code)
  }

  predicate Blank(t: Text) {
    forall i :: 0 <= i < |t| ==> IsSpace(t[i].code)
  }

  // A text without the spaces around it.
  function Trim(t: Text): Text {
    if t == [] then []
    else if IsSpace(t[0].code) then Trim(t[1..])
    else if IsSpace(t[|t| - 1].code) then Trim(t[..|t| - 1])
    else t
  }

  lemma {:induction false} TrimShortens(t: Text)
    ensures |Trim(t)| <= |t|
    ensures Trim(t) == t <==> t == [] || (!IsSpace(t[0].code) && !IsSpace(t[|t| - 1].code))
    ensures Trim(t) == [] <==> forall i :: 0 <= i < |t| ==> IsSpace(t[i].code)
    decreases |t|
  {
    if t != [] {
      if IsSpace(t[0].code) {
        TrimShortens(t[1..]);
        assert t == [t[0]] + t[1..];
      } else if IsSpace(t[|t| - 1].code) {
        TrimShortens(t[..|t| - 1]);
      }
    }
  }

  // A name is valid if trimming leaves it as it is, it has 1 to 255 bytes and no control characters; it is
  // blank if trimming leaves nothing.
  lemma NamesAreTrimmed(t: Text)
    ensures ValidName(t) <==> Trim(t) == t && t != [] && Bytes(t) <= 255 && !exists i :: 0 <= i < |t| && IsControl(t[i].code)
    ensures Blank(t) <==> Trim(t) == []
  {
    TrimShortens(t);
    hide Trim, IsSpace, IsControl, Bytes;
  }

  predicate SoundVariant(v: Variant) {
    ValidName(v.preset.id) && !Blank(v.name) && !Blank(v.preset.description) && ValidName(v.model) && v.overrides
  }

  function Presets(options: seq<Variant>): (ps: seq<Preset>)
    ensures |ps| == |options| && forall i :: 0 <= i < |options| ==> ps[i] == options[i].preset
  {
    if options == [] then [] else Presets(options[..|options| - 1]) + [options[|options| - 1].preset]
  }

  // ---- the size of the criteria --------------------------------------------------------------

  function EntrySum(ps: seq<Preset>): nat {
    if ps == [] then 0
    else EntrySum(ps[..|ps| - 1]) + EntrySize(ps[|ps| - 1].id, ps[|ps| - 1].description)
  }

  lemma {:induction false} CriteriaTotal(ps: seq<Preset>)
    requires DistinctIds(ps)
    ensures Total(CriteriaOf(ps), CriteriaOf(ps).Keys) == EntrySum(ps) && |CriteriaOf(ps).Keys| == |ps|
  {
    if ps != [] {
      var n := |ps| - 1;
      var before, after := CriteriaOf(ps[..n]), CriteriaOf(ps);
      CriteriaTotal(ps[..n]);
      CriteriaMembers(ps[..n], ps[n].id);
      assert ps[n].id !in before;
      TotalWithout(after, after.Keys, ps[n].id);
      assert after.Keys - {ps[n].id} == before.Keys;
      TotalSubset(before, after, before.Keys, before.Keys);
      TotalSubset(after, before, before.Keys, before.Keys);
    }
  }

  // The encoded request with an empty state.
  method EmptyRequestSize(model: Text, instructions: Text, ps: seq<Preset>) returns (size: nat)
    requires DistinctIds(ps)
    ensures size == RequestSize(model, instructions, CriteriaOf(ps), 2)
  {
    size := REQUEST_FRAME + Json(model) + Json(instructions) + 4;
    for i := 0 to |ps|
      invariant size == REQUEST_FRAME + Json(model) + Json(instructions) + 4 + EntrySum(ps[..i]) + if i == 0 then 0 else i - 1
    {
      assert ps[..i + 1][..i] == ps[..i];
      size := size + EntrySize(ps[i].id, ps[i].description) + if i > 0 then 1 else 0;
    }
    assert ps[..|ps|] == ps;
    CriteriaTotal(ps);
    assert ps == [] ==> CriteriaOf(ps) == map[];
  }

  // ---- one entry -----------------------------------------------------------------------------

  ghost predicate OptionsAccepted(options: seq<Variant>, enabled: bool, ordinary: set<Text>) {
    && (forall i :: 0 <= i < |options| ==> SoundVariant(options[i]) && (enabled ==> options[i].model in ordinary))
    && DistinctIds(Presets(options))
  }

  ghost predicate EntryAccepted(c: Config, ordinary: set<Text>, e: Entry) {
    && ValidName(e.id) && ValidName(e.name) && e.name !in ordinary && 1 <= |e.options| <= MAX_PRESETS
    && OptionsAccepted(e.options, c.enabled, ordinary)
    && (exists i :: 0 <= i < |e.options| && e.options[i].preset.id == e.fallback)
    && Compiled(c.model, c.instructions, Presets(e.options))
  }

  lemma IdsPrefix(options: seq<Variant>, n: nat)
    requires n < |options|
    ensures DistinctIds(Presets(options[..n + 1])) <==>
            DistinctIds(Presets(options[..n])) && forall i :: 0 <= i < n ==> options[i].preset.id != options[n].preset.id
  {
    var a, b := Presets(options[..n]), Presets(options[..n + 1]);
    assert forall i :: 0 <= i <= n ==> b[i] == options[i].preset;
    assert forall i :: 0 <= i < n ==> a[i] == options[i].preset;
    if DistinctIds(b) {
      forall i, j | 0 <= i < j < n ensures a[i].id != a[j].id {
        assert a[i] == b[i] && a[j] == b[j];
      }
      forall i | 0 <= i < n ensures options[i].preset.id != options[n].preset.id {
        assert b[i].id != b[n].id;
      }
    }
  }

  lemma OptionsPrefix(options: seq<Variant>, n: nat, enabled: bool, ordinary: set<Text>)
    requires n < |options|
    ensures OptionsAccepted(options[..n + 1], enabled, ordinary) <==>
            && OptionsAccepted(options[..n], enabled, ordinary)
            && SoundVariant(options[n]) && (enabled ==> options[n].model in ordinary)
            && forall i :: 0 <= i < n ==> options[i].preset.id != options[n].preset.id
  {
    IdsPrefix(options, n);
    hide Presets, DistinctIds, SoundVariant;
    var a, b := options[..n], options[..n + 1];
    assert b == a + [options[n]];
  }

  // Accepted options have accepted beginnings.
  lemma {:induction false} OptionsCut(options: seq<Variant>, n: nat, enabled: bool, ordinary: set<Text>)
    requires n <= |options|
    ensures OptionsAccepted(options, enabled, ordinary) ==> OptionsAccepted(options[..n], enabled, ordinary)
    decreases |options| - n
  {
    if n < |options| {
      OptionsCut(options, n + 1, enabled, ordinary);
      OptionsPrefix(options, n, enabled, ordinary);
    } else {
      assert options[..n] == options;
    }
  }

  method CheckOptions(options: seq<Variant>, enabled: bool, ordinary: set<Text>) returns (ok: bool, ids: set<Text>)
    ensures ok <==> OptionsAccepted(options, enabled, ordinary)
    ensures ok ==> forall id :: id in ids <==> exists i :: 0 <= i < |options| && options[i].preset.id == id
  {
    ids := {};
    for n := 0 to |options|
      invariant OptionsAccepted(options[..n], enabled, ordinary)
      invariant forall id :: id in ids <==> exists i :: 0 <= i < n && options[i].preset.id == id
    {
      OptionsPrefix(options, n, enabled, ordinary);
      if !SoundVariant(options[n]) || options[n].preset.id in ids || (enabled && options[n].model !in ordinary) {
        OptionsCut(options, n + 1, enabled, ordinary);
        return false, ids;
      }
      ids := ids + {options[n].preset.id};
    }
    assert options[..|options|] == options;
    ok := true;
  }

  method CheckEntry(c: Config, ordinary: set<Text>, e: Entry) returns (ok: bool)
    ensures ok <==> EntryAccepted(c, ordinary, e)
  {
    if !ValidName(e.id) || !ValidName(e.name) || e.name in ordinary || |e.options| < 1 || |e.options| > MAX_PRESETS {
      return false;
    }
    var sound, ids := CheckOptions(e.options, c.enabled, ordinary);
    if !sound || e.fallback !in ids {
      return false;
    }
    var size := EmptyRequestSize(c.model, c.instructions, Presets(e.options));
    return size <= MAX_REQUEST - MAX_STATE;
  }

  // ---- the configuration ---------------------------------------------------------------------

  ghost predicate Targets(e: Entry, name: Text) {
    exists i :: 0 <= i < |e.options| && e.options[i].model == name
  }

  // No automatic model has another one, or itself, as a target.
  ghost predicate NotRecursive(entries: seq<Entry>) {
    forall i, j :: 0 <= i < |entries| && 0 <= j < |entries| ==> !Targets(entries[i], entries[j].name)
  }

  ghost predicate Apart(entries: seq<Entry>) {
    forall i, j :: 0 <= i < j < |entries| ==> entries[i].id != entries[j].id && entries[i].name != entries[j].name
  }

  // The model that decides: it may be missing only while automatic models are off.
  predicate DecidingModel(c: Config, decisions: set<Text>) {
    && 1 <= c.timeout <= MAX_TIMEOUT && (c.model == [] || ValidName(c.model))
    && (c.enabled ==> ValidName(c.model) && c.model in decisions)
  }

  ghost predicate ConfigAccepted(c: Config, ordinary: set<Text>, decisions: set<Text>) {
    && DecidingModel(c, decisions) && Apart(c.entries) && NotRecursive(c.entries)
    && forall i :: 0 <= i < |c.entries| ==> EntryAccepted(c, ordinary, c.entries[i])
  }

  method Compile(c: Config, ordinary: set<Text>, decisions: set<Text>) returns (ok: bool)
    ensures ok <==> ConfigAccepted(c, ordinary, decisions)
  {
    hide EntryAccepted, ValidName;
    if c.timeout < 1 || c.timeout > MAX_TIMEOUT || (c.model != [] && !ValidName(c.model)) {
      return false;
    }
    if c.enabled && (!ValidName(c.model) || c.model !in decisions) {
      return false;
    }
    var ids, names: set<Text> := {}, {};
    for n := 0 to |c.entries|
      invariant forall i :: 0 <= i < n ==> EntryAccepted(c, ordinary, c.entries[i])
      invariant Apart(c.entries[..n])
      invariant forall x :: x in ids <==> exists i :: 0 <= i < n && c.entries[i].id == x
      invariant forall x :: x in names <==> exists i :: 0 <= i < n && c.entries[i].name == x
    {
      var e := c.entries[n];
      if e.id in ids || e.name in names {
        assert !Apart(c.entries);
        return false;
      }
      var accepted := CheckEntry(c, ordinary, e);
      if !accepted {
        return false;
      }
      ids, names := ids + {e.id}, names + {e.name};
      assert c.entries[..n + 1] == c.entries[..n] + [e];
    }
    assert c.entries[..|c.entries|] == c.entries;
    ok := CheckTargets(c.entries, names);
  }

  method CheckTargets(entries: seq<Entry>, names: set<Text>) returns (ok: bool)
    requires forall x :: x in names <==> exists i :: 0 <= i < |entries| && entries[i].name == x
    ensures ok <==> NotRecursive(entries)
  {
    for n := 0 to |entries|
      invariant forall i, j :: 0 <= i < n && 0 <= j < |entries| ==> !Targets(entries[i], entries[j].name)
    {
      for m := 0 to |entries[n].options|
        invariant forall i, j :: 0 <= i < n && 0 <= j < |entries| ==> !Targets(entries[i], entries[j].name)
        invariant forall i :: 0 <= i < m ==> entries[n].options[i].model !in names
      {
        if entries[n].options[m].model in names {
          var j :| 0 <= j < |entries| && entries[j].name == entries[n].options[m].model;
          assert Targets(entries[n], entries[j].name);
          return false;
        }
      }
    }
    ok := true;
  }

  // When automatic models are enabled the recursion check cannot fail: targets are ordinary models
  // and automatic names are not.
  lemma EnabledIsNotRecursive(c: Config, ordinary: set<Text>)
    requires c.enabled && forall i :: 0 <= i < |c.entries| ==> EntryAccepted(c, ordinary, c.entries[i])
    ensures NotRecursive(c.entries)
  {
    forall i, j | 0 <= i < |c.entries| && 0 <= j < |c.entries| ensures !Targets(c.entries[i], c.entries[j].name) {
      assert EntryAccepted(c, ordinary, c.entries[i]) && EntryAccepted(c, ordinary, c.entries[j]);
    }
  }

  // Every accepted entry, any choice of its presets, any state: the request is within its limit.
  lemma AcceptedEntriesFit(c: Config, ordinary: set<Text>, decisions: set<Text>, e: nat, chosen: seq<Preset>, s: State)
    requires ConfigAccepted(c, ordinary, decisions) && e < |c.entries| && StateSize(s) <= MAX_STATE
    requires forall i :: 0 <= i < |chosen| ==> chosen[i] in Presets(c.entries[e].options)
    ensures RequestSize(c.model, c.instructions, CriteriaOf(chosen), StateSize(s)) <= MAX_REQUEST - 2
  {
    assert EntryAccepted(c, ordinary, c.entries[e]);
    RequestNeverTooLarge(c.model, c.instructions, Presets(c.entries[e].options), chosen, s);
  }
}
