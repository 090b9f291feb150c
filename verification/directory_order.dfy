/**
  The order of the client model directory: placed models first, then versions from new to old,
  then names.
*/
module DirectoryOrder {
  import opened Wrappers
  import opened TextOrder

  // ---- versions ----------------------------------------------------------------------------

  // How many characters from the front are digits.
  function Run(s: string): (k: nat)
    ensures k <= |s| && Digits(s[..k]) && (k < |s| ==> !IsDigit(s[k]))
  {
    if s == "" || !IsDigit(s[0]) then 0
    else
      var k := 1 + Run(s[1..]);
      assert s[..k] == [s[0]] + s[1..][..k - 1];
      k
  }

  // The longest dotted number at the front, part by part.
  function Parts(s: string): (parts: seq<string>)
    ensures forall i :: 0 <= i < |parts| ==> Digits(parts[i]) && parts[i] != ""
    decreases |s|
  {
    var k := Run(s);
    if k == 0 then []
    else [s[..k]] + if k + 1 < |s| && s[k] == '.' && IsDigit(s[k + 1]) then Parts(s[k + 1..]) else []
  }

  // The version of a name: none unless it starts with "gpt-" and a digit.
  function Version(name: string): (parts: seq<string>)
    ensures forall i :: 0 <= i < |parts| ==> Digits(parts[i])
  {
    if "gpt-" <= name then Parts(name[4..]) else []
  }

  // A version as numbers; parts that are not there count as zero.
  function Part(parts: seq<string>, i: nat): (p: string)
    requires forall i :: 0 <= i < |parts| ==> Digits(parts[i])
    ensures Digits(p)
  {
    if i < |parts| then parts[i] else "0"
  }

  function NumberAt(name: string, i: nat): nat {
    Number(Part(Version(name), i))
  }

  // The first part in which two versions differ decides.
  ghost predicate NewerAt(a: string, b: string, i: nat) {
    NumberAt(a, i) > NumberAt(b, i) && forall j :: 0 <= j < i ==> NumberAt(a, j) == NumberAt(b, j)
  }

  ghost predicate Newer(a: string, b: string) {
    exists i :: NewerAt(a, b, i)
  }

  ghost predicate SameVersion(a: string, b: string) {
    forall i: nat :: NumberAt(a, i) == NumberAt(b, i)
  }

  // ---- the comparator ------------------------------------------------------------------------

  datatype Overrides = Overrides(enabled: Option<bool>, order: Option<int>, metadata: string)

  const NO_OVERRIDES := Overrides(None, None, "")

  type Directory = map<string, Overrides>

  function Of(d: Directory, name: string): Overrides {
    if name in d then d[name] else NO_OVERRIDES
  }

  function OrderOf(d: Directory, name: string): Option<int> { Of(d, name).order }

  // Placed before: smaller positions first, anything placed before anything not.
  predicate PlacedBefore(d: Directory, a: string, b: string) {
    var x, y := OrderOf(d, a), OrderOf(d, b);
    x.Some? && (y.None? || x.value < y.value)
  }

  predicate Versioned(name: string) { Version(name) != [] }

  // The order, as the four criteria in turn.
  ghost predicate Precedes(d: Directory, a: string, b: string) {
    if PlacedBefore(d, a, b) || PlacedBefore(d, b, a) then PlacedBefore(d, a, b)
    else if Versioned(a) != Versioned(b) then Versioned(a)
    else if Versioned(a) && !SameVersion(a, b) then Newer(a, b)
    else Below(a, b)
  }

  // Compares versions part by part, without ever forming the numbers.
  method CompareVersions(a: string, b: string) returns (decided: bool, newer: bool)
    ensures decided <==> !SameVersion(a, b)
    ensures decided ==> newer == Newer(a, b)
  {
    var left, right := Version(a), Version(b);
    var n := if |left| > |right| then |left| else |right|;
    for i := 0 to n
      invariant forall j :: 0 <= j < i ==> NumberAt(a, j) == NumberAt(b, j)
    {
      hide Number, Trimmed, Digits, Version, Newer, SameVersion, Below;
      var p, q := Trimmed(Part(left, i)), Trimmed(Part(right, i));
      DigitsCompareAsNumbers(Part(left, i), Part(right, i));
      if |p| != |q| {
        Decides(a, b, i);
        return true, |p| > |q|;
      }
      if p != q {
        Decides(a, b, i);
        return true, Below(q, p);
      }
    }
    forall i: nat ensures NumberAt(a, i) == NumberAt(b, i) {
      if i >= n {
        assert Part(left, i) == Part(right, i);
      }
    }
    return false, false;
  }

  // Compares two names the way the sort does.
  method Compare(d: Directory, a: string, b: string) returns (less: bool)
    ensures less == Precedes(d, a, b)
  {
    hide Version, Newer, SameVersion, Below;
    var x, y := OrderOf(d, a), OrderOf(d, b);
    if x.Some? || y.Some? {
      if x.None? {
        return false;
      }
      if y.None? {
        return true;
      }
      if x.value != y.value {
        return x.value < y.value;
      }
    }
    if Versioned(a) != Versioned(b) {
      return Versioned(a);
    }
    if Versioned(a) {
      var decided, newer := CompareVersions(a, b);
      if decided {
        return newer;
      }
    }
    return Below(a, b);
  }

  lemma Decides(a: string, b: string, i: nat)
    requires NumberAt(a, i) != NumberAt(b, i) && forall j :: 0 <= j < i ==> NumberAt(a, j) == NumberAt(b, j)
    ensures !SameVersion(a, b) && (Newer(a, b) <==> NumberAt(a, i) > NumberAt(b, i))
  {
    hide NumberAt;
    if NumberAt(a, i) > NumberAt(b, i) {
      assert NewerAt(a, b, i);
    }
  }

  // ---- a strict total order ------------------------------------------------------------------

  // Some first part differs, at the latest the given one.
  lemma {:induction false} FirstDifference(a: string, b: string, k: nat, i: nat)
    requires k <= i && NumberAt(a, i) != NumberAt(b, i)
    requires forall j :: 0 <= j < k ==> NumberAt(a, j) == NumberAt(b, j)
    ensures Newer(a, b) || Newer(b, a)
    decreases i - k
  {
    hide NumberAt;
    if NumberAt(a, k) == NumberAt(b, k) {
      FirstDifference(a, b, k + 1, i);
    } else {
      assert NewerAt(a, b, k) || NewerAt(b, a, k);
    }
  }

  lemma NewerOneWay(a: string, b: string)
    ensures !(Newer(a, b) && Newer(b, a)) && (Newer(a, b) ==> !SameVersion(a, b))
  {
    if Newer(a, b) {
      var i: nat :| NewerAt(a, b, i);
      Decides(a, b, i);
      Decides(b, a, i);
    }
  }

  lemma NewerTransitive(a: string, b: string, c: string)
    requires (Newer(a, b) || SameVersion(a, b)) && (Newer(b, c) || SameVersion(b, c))
    ensures Newer(a, c) || SameVersion(a, c)
    ensures Newer(a, b) || Newer(b, c) ==> Newer(a, c)
  {
    hide NumberAt;
    if Newer(a, b) {
      var i: nat :| NewerAt(a, b, i);
      if Newer(b, c) {
        var j: nat :| NewerAt(b, c, j);
        assert NewerAt(a, c, if i <= j then i else j);
      } else {
        assert NewerAt(a, c, i);
      }
    } else if Newer(b, c) {
      var j: nat :| NewerAt(b, c, j);
      assert NewerAt(a, c, j);
    }
  }

  lemma NeverBothWays(d: Directory, a: string, b: string)
    ensures !(Precedes(d, a, b) && Precedes(d, b, a))
  {
    NewerOneWay(a, b);
    BelowTotal(a, b);
  }

  lemma NotBeforeItself(d: Directory, a: string)
    ensures !Precedes(d, a, a)
  {
    NeverBothWays(d, a, a);
  }

  lemma DistinctCompare(d: Directory, a: string, b: string)
    requires a != b
    ensures Precedes(d, a, b) || Precedes(d, b, a)
  {
    hide NumberAt, Below, Version;
    if !SameVersion(a, b) {
      var i: nat :| NumberAt(a, i) != NumberAt(b, i);
      FirstDifference(a, b, 0, i);
    }
    BelowTotal(a, b);
  }

  lemma PrecedesTransitive(d: Directory, a: string, b: string, c: string)
    requires Precedes(d, a, b) && Precedes(d, b, c)
    ensures Precedes(d, a, c)
  {
    hide SameVersion, Newer, Below, Versioned;
    if Tied(d, a, b) && Tied(d, b, c) {
      TiedTransitive(d, a, b, c);
    }
  }

  // The first criterion does not tell them apart.
  predicate Tied(d: Directory, a: string, b: string) {
    OrderOf(d, a) == OrderOf(d, b)
  }

  lemma TiedTransitive(d: Directory, a: string, b: string, c: string)
    requires Tied(d, a, b) && Tied(d, b, c) && Precedes(d, a, b) && Precedes(d, b, c)
    ensures Precedes(d, a, c)
  {
    if Versioned(a) && Versioned(b) && Versioned(c) {
      VersionsTransitive(d, a, b, c);
    } else if !Versioned(a) && !Versioned(c) {
      BelowTransitive(a, b, c);
    }
  }

  lemma VersionsTransitive(d: Directory, a: string, b: string, c: string)
    requires Versioned(a) && Versioned(b) && Versioned(c)
    requires if SameVersion(a, b) then Below(a, b) else Newer(a, b)
    requires if SameVersion(b, c) then Below(b, c) else Newer(b, c)
    ensures if SameVersion(a, c) then Below(a, c) else Newer(a, c)
  {
    NewerTransitive(a, b, c);
    NewerOneWay(a, c);
    if SameVersion(a, b) && SameVersion(b, c) {
      BelowTransitive(a, b, c);
    }
  }

  // ---- names as they are written -----------------------------------------------------------------

  predicate Numerals(parts: seq<string>) {
    parts != [] && forall i :: 0 <= i < |parts| ==> parts[i] != "" && Digits(parts[i])
  }

  function Dotted(parts: seq<string>): string {
    if parts == [] then "" else if |parts| == 1 then parts[0] else parts[0] + "." + Dotted(parts[1..])
  }

  // What may come after a version without being part of it.
  predicate EndsVersion(rest: string) {
    rest == "" || (!IsDigit(rest[0]) && !(rest[0] == '.' && |rest| > 1 && IsDigit(rest[1])))
  }

  lemma RunOfDigits(digits: string, rest: string)
    requires Digits(digits) && (rest == "" || !IsDigit(rest[0]))
    ensures Run(digits + rest) == |digits|
  {
    hide Run, IsDigit;
    var text := digits + rest;
    var k := Run(text);
    assert forall i :: 0 <= i < |digits| ==> text[i] == digits[i];
    assert forall i :: 0 <= i < |rest| ==> text[|digits| + i] == rest[i];
  }

  lemma LastPart(digits: string, rest: string)
    requires digits != "" && Digits(digits) && EndsVersion(rest)
    ensures Parts(digits + rest) == [digits]
  {
    RunOfDigits(digits, rest);
    hide Run, IsDigit;
    var text := digits + rest;
    assert text[..|digits|] == digits;
    assert forall i :: 0 <= i < |rest| ==> text[|digits| + i] == rest[i];
  }

  lemma FirstPart(digits: string, more: string)
    requires digits != "" && Digits(digits) && more != "" && IsDigit(more[0])
    ensures Parts(digits + "." + more) == [digits] + Parts(more)
  {
    var text := digits + "." + more;
    assert text == digits + ("." + more);
    RunOfDigits(digits, "." + more);
    hide Run, IsDigit;
    assert text[..|digits|] == digits && text[|digits|] == '.' && text[|digits| + 1..] == more;
  }

  lemma {:induction false} PartsAreRead(parts: seq<string>, rest: string)
    requires Numerals(parts) && EndsVersion(rest)
    ensures Parts(Dotted(parts) + rest) == parts
    decreases |parts|
  {
    hide Parts;
    if |parts| == 1 {
      LastPart(parts[0], rest);
    } else {
      var more := Dotted(parts[1..]) + rest;
      assert Dotted(parts) + rest == parts[0] + "." + more;
      assert more[0] == parts[1][0];
      FirstPart(parts[0], more);
      PartsAreRead(parts[1..], rest);
    }
  }

  function Gpt(parts: seq<string>, rest: string): string {
    "gpt-" + Dotted(parts) + rest
  }

  // The version of a name is what is written between "gpt-" and the first thing that is no dotted number.
  lemma VersionIsRead(parts: seq<string>, rest: string)
    requires Numerals(parts) && EndsVersion(rest)
    ensures Version(Gpt(parts, rest)) == parts && Versioned(Gpt(parts, rest))
  {
    hide Parts, Dotted;
    PartsAreRead(parts, rest);
    assert Gpt(parts, rest)[4..] == Dotted(parts) + rest;
  }

  // A name without a number after "gpt-" has none.
  lemma VersionNeedsANumber(name: string)
    ensures Versioned(name) <==> |name| > 4 && name[..4] == "gpt-" && '0' <= name[4] <= '9'
  {
    if "gpt-" <= name && |name| > 4 {
      assert name[4..][0] == name[4];
    }
  }

  // Among names in the same place the newer version comes first, part by part as numbers, missing parts
  // counting as zero.
  lemma NewerComesFirst(d: Directory, p: seq<string>, x: string, q: seq<string>, y: string, i: nat)
    requires Numerals(p) && EndsVersion(x) && Numerals(q) && EndsVersion(y)
    requires Of(d, Gpt(p, x)).order == Of(d, Gpt(q, y)).order
    requires Number(Part(p, i)) > Number(Part(q, i)) && forall j :: 0 <= j < i ==> Number(Part(p, j)) == Number(Part(q, j))
    ensures Precedes(d, Gpt(p, x), Gpt(q, y)) && !Precedes(d, Gpt(q, y), Gpt(p, x))
  {
    hide Version, Gpt, Dotted, Number, Below, Numerals, EndsVersion;
    VersionIsRead(p, x);
    VersionIsRead(q, y);
    assert NewerAt(Gpt(p, x), Gpt(q, y), i);
    NewerOneWay(Gpt(p, x), Gpt(q, y));
    hide Newer, SameVersion, NumberAt;
    NeverBothWays(d, Gpt(p, x), Gpt(q, y));
  }

  // A place comes before no place and before a later one; in the same place, a version before none; with
  // neither, or the same version, the name decides.
  lemma PlaceThenVersionThenName(d: Directory, a: string, b: string)
    ensures OrderOf(d, a).Some? && (OrderOf(d, b).None? || OrderOf(d, a).value < OrderOf(d, b).value) ==>
              Precedes(d, a, b) && !Precedes(d, b, a)
    ensures OrderOf(d, a) == OrderOf(d, b) && Versioned(a) && !Versioned(b) ==> Precedes(d, a, b) && !Precedes(d, b, a)
    ensures OrderOf(d, a) == OrderOf(d, b) && !Versioned(a) && !Versioned(b) ==> (Precedes(d, a, b) <==> Below(a, b))
    ensures OrderOf(d, a) == OrderOf(d, b) && SameVersion(a, b) && Versioned(a) && Versioned(b) ==>
              (Precedes(d, a, b) <==> Below(a, b))
  {
  }
}
