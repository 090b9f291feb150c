/**
  Editing the client model directory: what an accepted draft selects, and what a reset selects.
*/
module DirectoryDraft {
  import opened Wrappers
  import opened DirectoryOrder

  predicate Default(name: string) {
    "gpt-" <= name && name != "gpt-image" && !("gpt-image-" <= name)
  }

  predicate Enabled(d: Directory, name: string) {
    if Of(d, name).enabled.Some? then Of(d, name).enabled.value else Default(name)
  }

  // ---- sorted lists --------------------------------------------------------------------------

  ghost predicate Sorted(d: Directory, list: seq<string>) {
    forall i, j :: 0 <= i < j < |list| ==> Precedes(d, list[i], list[j])
  }

  predicate SameNames(a: seq<string>, b: seq<string>) {
    (forall n :: n in a ==> n in b) && (forall n :: n in b ==> n in a)
  }

  // There is one way to sort a set of names.
  lemma {:induction false} SortedUnique(d: Directory, a: seq<string>, b: seq<string>)
    requires Sorted(d, a) && Sorted(d, b) && SameNames(a, b)
    ensures a == b
    decreases |a|
  {
    hide Precedes;
    if a == [] {
      if b != [] {
        Nonempty(b, a);
      }
    } else {
      assert a[0] in b && b[0] in a by { assert a[0] in a; Nonempty(a, b); }
      SameHead(d, a, b);
      forall n | n in a[1..] ensures n in b[1..] {
        TailMember(d, a, n);
        assert n in b;
      }
      forall n | n in b[1..] ensures n in a[1..] {
        TailMember(d, b, n);
        assert n in a;
      }
      SortedUnique(d, a[1..], b[1..]);
      assert a == [a[0]] + a[1..] && b == [b[0]] + b[1..];
    }
  }

  lemma Nonempty(a: seq<string>, b: seq<string>)
    requires a != [] && SameNames(a, b)
    ensures b != [] && b[0] in b
  {
    assert a[0] in a;
  }

  lemma SameHead(d: Directory, a: seq<string>, b: seq<string>)
    requires Sorted(d, a) && Sorted(d, b) && a != [] && b != [] && a[0] in b && b[0] in a
    ensures a[0] == b[0]
  {
    hide Precedes;
    var i :| 0 <= i < |b| && b[i] == a[0];
    var j :| 0 <= j < |a| && a[j] == b[0];
    NeverBothWays(d, a[0], b[0]);
  }

  // Names in the tail are not the head.
  lemma TailMember(d: Directory, a: seq<string>, n: string)
    requires Sorted(d, a) && a != [] && n in a[1..]
    ensures n != a[0] && n in a
  {
    hide Precedes;
    var i :| 0 <= i < |a| - 1 && a[1..][i] == n;
    assert a[i + 1] == n;
    NotBeforeItself(d, a[0]);
  }

  // ---- sorting -------------------------------------------------------------------------------

  method Insert(d: Directory, list: seq<string>, name: string) returns (r: seq<string>)
    requires Sorted(d, list) && name !in list
    ensures Sorted(d, r) && |r| == |list| + 1
    ensures forall n :: n in r <==> n == name || n in list
  {
    hide Precedes;
    var i := 0;
    while i < |list|
      invariant 0 <= i <= |list|
      invariant forall j :: 0 <= j < i ==> Precedes(d, list[j], name)
    {
      var before := Compare(d, name, list[i]);
      if before {
        break;
      }
      DistinctCompare(d, name, list[i]);
      i := i + 1;
    }
    InsertSorted(d, list, name, i);
    r := list[..i] + [name] + list[i..];
    InsertMembers(list, name, i);
  }

  lemma InsertMembers(list: seq<string>, name: string, i: nat)
    requires i <= |list|
    ensures forall n :: n in list[..i] + [name] + list[i..] <==> n == name || n in list
  {
    assert list == list[..i] + list[i..];
  }

  lemma InsertSorted(d: Directory, list: seq<string>, name: string, i: nat)
    requires Sorted(d, list) && i <= |list|
    requires forall j :: 0 <= j < i ==> Precedes(d, list[j], name)
    requires i < |list| ==> Precedes(d, name, list[i])
    ensures Sorted(d, list[..i] + [name] + list[i..])
  {
    hide Precedes;
    var r := list[..i] + [name] + list[i..];
    forall j | i < j < |list| ensures Precedes(d, name, list[j]) {
      PrecedesTransitive(d, name, list[i], list[j]);
    }
    forall x, y | 0 <= x < y < |r| ensures Precedes(d, r[x], r[y]) {
      assert r[x] == if x < i then list[x] else if x == i then name else list[x - 1];
      assert r[y] == if y < i then list[y] else if y == i then name else list[y - 1];
    }
  }

  // Sorts distinct names for display.
  method Sort(d: Directory, names: seq<string>) returns (r: seq<string>)
    requires forall i, j :: 0 <= i < j < |names| ==> names[i] != names[j]
    ensures Sorted(d, r) && SameNames(r, names) && |r| == |names|
  {
    hide Precedes;
    r := [];
    for i := 0 to |names|
      invariant Sorted(d, r) && |r| == i
      invariant forall n :: n in r <==> n in names[..i]
    {
      r := Insert(d, r, names[i]);
      assert names[..i + 1] == names[..i] + [names[i]];
    }
    assert names[..|names|] == names;
  }

  // ---- what is selected ----------------------------------------------------------------------

  function Chosen(d: Directory, list: seq<string>): seq<string> {
    if list == [] then []
    else Chosen(d, list[..|list| - 1]) + if Enabled(d, list[|list| - 1]) then [list[|list| - 1]] else []
  }

  lemma {:induction false} ChosenMembers(d: Directory, list: seq<string>)
    ensures forall n :: n in Chosen(d, list) <==> n in list && Enabled(d, n)
  {
    if list != [] {
      var k := |list| - 1;
      ChosenMembers(d, list[..k]);
      assert list == list[..k] + [list[k]];
    }
  }

  lemma {:induction false} ChosenSorted(d: Directory, list: seq<string>)
    requires Sorted(d, list)
    ensures Sorted(d, Chosen(d, list))
  {
    hide Precedes;
    if list != [] {
      var k := |list| - 1;
      ChosenSorted(d, list[..k]);
      ChosenMembers(d, list[..k]);
      var rest := Chosen(d, list[..k]);
      forall i | 0 <= i < |rest| ensures Precedes(d, rest[i], list[k]) {
        assert rest[i] in rest;
        var j :| 0 <= j < k && list[..k][j] == rest[i];
      }
    }
  }

  // The directory shown: the enabled candidates, in order.
  method Selected(d: Directory, candidates: seq<string>) returns (r: seq<string>)
    ensures r == Chosen(d, candidates)
  {
    r := [];
    for i := 0 to |candidates|
      invariant r == Chosen(d, candidates[..i])
    {
      assert candidates[..i + 1][..i] == candidates[..i];
      if Enabled(d, candidates[i]) {
        r := r + [candidates[i]];
      }
    }
    assert candidates[..|candidates|] == candidates;
  }

  // ---- drafts --------------------------------------------------------------------------------

  datatype Profile = Profile(name: string, metadata: string, valid: bool)

  datatype Request = Request(
    reset: bool, models: Option<seq<string>>, known: Option<seq<string>>, profiles: seq<Profile>)

  predicate Apart(names: seq<string>) {
    forall i, j :: 0 <= i < j < |names| ==> names[i] != names[j]
  }

  predicate Within(names: seq<string>, candidates: seq<string>) {
    forall i :: 0 <= i < |names| ==> names[i] in candidates
  }

  function ProfileNames(ps: seq<Profile>): (names: seq<string>)
    ensures |names| == |ps| && forall i :: 0 <= i < |ps| ==> names[i] == ps[i].name
  {
    if ps == [] then [] else [ps[0].name] + ProfileNames(ps[1..])
  }

  // The drafts that are accepted.
  predicate Acceptable(candidates: seq<string>, r: Request) {
    && (r.reset || r.models.Some? || r.profiles != [] || r.known.Some?)
    && (r.reset && r.models.Some? ==> r.models.value == [])
    && (r.known.Some? ==>
          |r.known.value| == |candidates| && Within(r.known.value, candidates) && Apart(r.known.value))
    && (!r.reset && r.models.Some? ==> Within(r.models.value, candidates) && Apart(r.models.value))
    && Within(ProfileNames(r.profiles), candidates) && Apart(ProfileNames(r.profiles))
    && (forall i :: 0 <= i < |r.profiles| ==> r.profiles[i].valid)
  }

  // Every candidate is enabled and placed exactly as the list says.
  ghost predicate Placed(d: Directory, candidates: seq<string>, models: seq<string>) {
    forall n :: n in candidates ==>
      && (Enabled(d, n) <==> n in models)
      && (n !in models ==> OrderOf(d, n) == None)
      && (forall i :: 0 <= i < |models| && models[i] == n ==> OrderOf(d, n) == Some(i))
  }

  // No name is enabled, disabled or placed by hand.
  ghost predicate Untouched(d: Directory) {
    forall n :: n in d ==> d[n].enabled.None? && d[n].order.None?
  }

  // The same names are enabled and placed in the same way.
  ghost predicate SameDirectory(a: Directory, b: Directory) {
    forall n :: Of(a, n).enabled == Of(b, n).enabled && Of(a, n).order == Of(b, n).order
  }

  // Names that are not candidates keep their place.
  ghost predicate OthersStay(a: Directory, b: Directory, candidates: seq<string>) {
    forall n :: n !in candidates ==> Of(a, n).enabled == Of(b, n).enabled && Of(a, n).order == Of(b, n).order
  }

  // Checks a list of names against the candidates.
  method Check(names: seq<string>, candidates: seq<string>) returns (ok: bool)
    ensures ok <==> Within(names, candidates) && Apart(names)
  {
    var seen: set<string> := {};
    for i := 0 to |names|
      invariant Within(names[..i], candidates) && Apart(names[..i])
      invariant forall n :: n in seen <==> n in names[..i]
    {
      if names[i] !in candidates || names[i] in seen {
        return false;
      }
      seen := seen + {names[i]};
      assert names[..i + 1] == names[..i] + [names[i]];
    }
    assert names[..|names|] == names;
    return true;
  }

  // Where each name stands in the list.
  ghost predicate Positions(selected: map<string, int>, models: seq<string>) {
    && (forall n :: n in selected <==> n in models)
    && (forall i :: 0 <= i < |models| ==> models[i] in selected && selected[models[i]] == i)
  }

  method Enumerate(models: seq<string>) returns (selected: map<string, int>)
    requires Apart(models)
    ensures Positions(selected, models)
  {
    selected := map[];
    for i := 0 to |models|
      invariant Positions(selected, models[..i])
    {
      selected := selected[models[i] := i];
      assert models[..i + 1] == models[..i] + [models[i]];
    }
    assert models[..|models|] == models;
  }

  function Set(o: Overrides, name: string, selected: map<string, int>): Overrides {
    o.(enabled := if (name in selected) != Default(name) then Some(name in selected) else None,
       order := if name in selected then Some(selected[name]) else None)
  }

  // Places every candidate as numbered.
  method Place(d: Directory, candidates: seq<string>, selected: map<string, int>, ghost models: seq<string>)
    returns (r: Directory)
    requires Positions(selected, models)
    ensures Placed(r, candidates, models)
    ensures forall n :: n !in candidates ==> Of(r, n) == Of(d, n)
    ensures forall n :: Of(r, n).metadata == Of(d, n).metadata
  {
    r := d;
    for i := 0 to |candidates|
      invariant Placed(r, candidates[..i], models)
      invariant forall n :: n !in candidates[..i] ==> Of(r, n) == Of(d, n)
      invariant forall n :: Of(r, n).metadata == Of(d, n).metadata
    {
      var name := candidates[i];
      var was := r;
      r := r[name := Set(Of(r, name), name, selected)];
      PlaceOne(was, candidates[..i], selected, models, name);
      assert candidates[..i + 1] == candidates[..i] + [name];
    }
    assert candidates[..|candidates|] == candidates;
  }

  lemma PlaceOne(d: Directory, done: seq<string>, selected: map<string, int>, models: seq<string>, name: string)
    requires Positions(selected, models) && Placed(d, done, models)
    ensures Placed(d[name := Set(Of(d, name), name, selected)], done + [name], models)
  {
    var r := d[name := Set(Of(d, name), name, selected)];
    forall n | n in done + [name]
      ensures (Enabled(r, n) <==> n in models) && (n !in models ==> OrderOf(r, n) == None)
      ensures forall i :: 0 <= i < |models| && models[i] == n ==> OrderOf(r, n) == Some(i)
    {
      if n != name {
        assert n in done;
        assert Of(r, n) == Of(d, n);
      }
    }
  }

  // The metadata of the profiles replaces what was there; all other metadata stays.
  ghost predicate Described(d: Directory, profiles: seq<Profile>, r: Directory) {
    && (forall i :: 0 <= i < |profiles| ==> Of(r, profiles[i].name).metadata == profiles[i].metadata)
    && (forall n :: Undescribed(profiles, n) ==> Of(r, n).metadata == Of(d, n).metadata)
  }

  predicate Undescribed(profiles: seq<Profile>, n: string) {
    forall i :: 0 <= i < |profiles| ==> profiles[i].name != n
  }

  lemma DescribeNext(d: Directory, profiles: seq<Profile>, i: nat, r: Directory)
    requires i < |profiles| && (forall j :: 0 <= j < i ==> profiles[j].name != profiles[i].name)
    requires Described(d, profiles[..i], r)
    ensures Described(d, profiles[..i + 1], With(r, profiles[i]))
  {
    var p := profiles[i];
    var done, next := profiles[..i], profiles[..i + 1];
    assert next == done + [p];
    forall n ensures Undescribed(next, n) <==> Undescribed(done, n) && n != p.name {
      if Undescribed(next, n) {
        assert next[i] == p;
        assert forall j :: 0 <= j < i ==> done[j] == next[j];
      }
    }
    hide Undescribed;
    forall j | 0 <= j < |next| ensures Of(With(r, p), next[j].name).metadata == next[j].metadata {
      if j < i {
        assert next[j] == done[j] == profiles[j];
      }
    }
  }

  function With(d: Directory, p: Profile): (r: Directory)
    ensures forall n :: Of(r, n) == if n == p.name then Of(d, n).(metadata := p.metadata) else Of(d, n)
  {
    d[p.name := Of(d, p.name).(metadata := p.metadata)]
  }

  // Replaces metadata, keeping each name's place in the directory.
  method Describe(d: Directory, profiles: seq<Profile>) returns (r: Directory)
    requires Apart(ProfileNames(profiles))
    ensures SameDirectory(r, d) && Described(d, profiles, r)
  {
    r := d;
    assert Described(d, profiles[..0], r);
    hide Described;
    for i := 0 to |profiles|
      invariant SameDirectory(r, d) && Described(d, profiles[..i], r)
    {
      assert forall j :: 0 <= j < i ==> ProfileNames(profiles)[j] != ProfileNames(profiles)[i];
      DescribeNext(d, profiles, i, r);
      r := With(r, profiles[i]);
    }
    assert profiles[..|profiles|] == profiles;
  }

  lemma DescribedAlike(current: Directory, d: Directory, profiles: seq<Profile>, r: Directory)
    requires Described(d, profiles, r) && forall n :: Of(d, n).metadata == Of(current, n).metadata
    ensures Described(current, profiles, r)
  {
  }

  method Apply(current: Directory, candidates: seq<string>, request: Request) returns (r: Option<Directory>)
    ensures r.Some? <==> Acceptable(candidates, request)
    ensures r.Some? && request.reset ==> Untouched(r.value)
    ensures r.Some? && !request.reset && request.models.Some? ==> Placed(r.value, candidates, request.models.value)
    ensures r.Some? && !request.reset && request.models.None? ==> SameDirectory(r.value, current)
    ensures r.Some? ==> Described(current, request.profiles, r.value)
    ensures r.Some? && !request.reset ==> OthersStay(r.value, current, candidates)
  {
    if !request.reset && request.models.None? && request.profiles == [] && request.known.None? {
      return None;
    }
    if request.reset && request.models.Some? && request.models.value != [] {
      return None;
    }
    if request.known.Some? {
      if |request.known.value| != |candidates| {
        return None;
      }
      var ok := Check(request.known.value, candidates);
      if !ok {
        return None;
      }
    }
    if !request.reset && request.models.Some? {
      var ok := Check(request.models.value, candidates);
      if !ok {
        return None;
      }
    }
    var ok := Check(ProfileNames(request.profiles), candidates);
    if !ok || exists i :: 0 <= i < |request.profiles| && !request.profiles[i].valid {
      return None;
    }
    var draft := Drafted(current, candidates, request);
    return Some(draft);
  }

  // The draft of an acceptable request.
  method Drafted(current: Directory, candidates: seq<string>, request: Request) returns (r: Directory)
    requires Acceptable(candidates, request)
    ensures request.reset ==> Untouched(r)
    ensures !request.reset && request.models.Some? ==> Placed(r, candidates, request.models.value)
    ensures !request.reset && request.models.None? ==> SameDirectory(r, current)
    ensures Described(current, request.profiles, r)
    ensures !request.reset ==> OthersStay(r, current, candidates)
  {
    hide Within, ProfileNames, Described;
    var draft := current;
    if request.reset {
      draft := map n | n in current :: current[n].(enabled := None, order := None);
    } else if request.models.Some? {
      var selected := Enumerate(request.models.value);
      draft := Place(draft, candidates, selected, request.models.value);
    }
    r := Describe(draft, request.profiles);
    DescribedAlike(current, draft, request.profiles, r);
    if !request.reset && request.models.Some? {
      PlacedAlike(draft, r, candidates, request.models.value);
    } else if request.reset {
      UntouchedAlike(draft, r);
    }
  }

  lemma PlacedAlike(a: Directory, b: Directory, candidates: seq<string>, models: seq<string>)
    requires Placed(a, candidates, models) && SameDirectory(b, a)
    ensures Placed(b, candidates, models)
  {
  }

  lemma UntouchedAlike(a: Directory, b: Directory)
    requires Untouched(a) && SameDirectory(b, a)
    ensures Untouched(b)
  {
    forall n | n in b ensures b[n].enabled.None? && b[n].order.None? {
      assert Of(b, n) == b[n];
    }
  }

  // ---- what a draft selects ------------------------------------------------------------------

  // After a draft that lists the models, the directory shows exactly that list, in that order.
  lemma DraftSelectsItsList(d: Directory, candidates: seq<string>, shown: seq<string>, models: seq<string>)
    requires Placed(d, candidates, models) && Within(models, candidates) && Apart(models)
    requires Sorted(d, shown) && SameNames(shown, candidates)
    ensures Chosen(d, shown) == models
  {
    ChosenMembers(d, shown);
    ChosenSorted(d, shown);
    ListSorted(d, candidates, models);
    SortedUnique(d, Chosen(d, shown), models);
  }

  lemma ListSorted(d: Directory, candidates: seq<string>, models: seq<string>)
    requires Placed(d, candidates, models) && Within(models, candidates) && Apart(models)
    ensures Sorted(d, models)
  {
    forall i, j | 0 <= i < j < |models| ensures Precedes(d, models[i], models[j]) {
      assert models[i] in candidates && models[j] in candidates;
      assert OrderOf(d, models[i]) == Some(i) && OrderOf(d, models[j]) == Some(j);
    }
  }

  // Without placements the order is the one of an empty directory.
  lemma UntouchedOrder(d: Directory, a: string, b: string)
    requires Untouched(d)
    ensures Precedes(d, a, b) <==> Precedes(map[], a, b)
    ensures Enabled(d, a) <==> Default(a)
  {
  }

  // A "gpt-" model that makes no images.
  predicate Offered(name: string) {
    && |name| >= 4 && name[..4] == "gpt-"
    && (|name| >= 9 && name[..9] == "gpt-image" ==> |name| > 9 && name[9] != '-')
  }

  lemma DefaultIsOffered(name: string)
    ensures Default(name) <==> Offered(name)
  {
    var image := "gpt-image";
    if image <= name {
      assert name[..9] == image;
      if |name| == 9 {
        assert name == image;
      } else if name[9] == '-' {
        assert name[..10] == image + "-";
      }
    }
  }

  // After a reset, the directory shows the default models in the default order.
  lemma ResetSelectsDefaults(d: Directory, shown: seq<string>, candidates: seq<string>, defaults: seq<string>)
    requires Untouched(d) && Sorted(d, shown) && SameNames(shown, candidates)
    requires Sorted(map[], defaults) && (forall n :: n in defaults <==> n in candidates && Offered(n))
    ensures Chosen(d, shown) == defaults
  {
    hide Precedes, Enabled;
    ChosenMembers(d, shown);
    ChosenSorted(d, shown);
    forall n ensures Enabled(d, n) <==> Default(n) {
      UntouchedOrder(d, n, n);
    }
    forall n ensures Default(n) <==> Offered(n) {
      DefaultIsOffered(n);
    }
    hide Default, Offered;
    forall i, j | 0 <= i < j < |defaults| ensures Precedes(d, defaults[i], defaults[j]) {
      UntouchedOrder(d, defaults[i], defaults[j]);
    }
    SortedUnique(d, Chosen(d, shown), defaults);
  }
}
