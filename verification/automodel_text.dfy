/**
  Texts as sequences of code points, each with the bytes it takes in UTF-8 and in a JSON string,
  and the clipping that makes a message fit a byte budget.
*/
module AutomodelText {
  // A code point, its UTF-8 width and the width of its JSON form (section 7 of RFC 8259).
  datatype Rune = Rune(code: nat, width: nat, json: nat)

  type Text = seq<Rune>

  predicate ValidRune(r: Rune) {
    1 <= r.width <= 4 && r.width <= r.json <= 6
  }

  predicate ValidText(t: Text) {
    forall i :: 0 <= i < |t| ==> ValidRune(t[i])
  }

  function Bytes(t: Text): nat {
    if t == [] then 0 else t[0].width + Bytes(t[1..])
  }

  // Without the quotes.
  function Json(t: Text): nat {
    if t == [] then 0 else t[0].json + Json(t[1..])
  }

  // Plain letters stand for themselves.
  function Word(s: string): Text {
    if s == "" then [] else [Rune(s[0] as int, 1, 1)] + Word(s[1..])
  }

  lemma {:induction false} WordSizes(s: string)
    ensures Bytes(Word(s)) == Json(Word(s)) == |s| && ValidText(Word(s))
  {
    if s != "" {
      WordSizes(s[1..]);
    }
  }

  const NEWLINE := Rune(10, 1, 2)

  const MARKER: Text := [NEWLINE] + Word("[truncated]") + [NEWLINE]

  const MARKER_BYTES := 13
  const MARKER_JSON := 15

  lemma MarkerSizes()
    ensures Bytes(MARKER) == MARKER_BYTES && Json(MARKER) == MARKER_JSON && ValidText(MARKER)
  {
    hide Word;
    var word := Word("[truncated]");
    WordSizes("[truncated]");
    Sums([NEWLINE] + word, [NEWLINE]);
    Sums([NEWLINE], word);
  }

  lemma {:induction false} Sums(a: Text, b: Text)
    ensures Bytes(a + b) == Bytes(a) + Bytes(b) && Json(a + b) == Json(a) + Json(b)
  {
    if a == [] {
      assert a + b == b;
    } else {
      assert (a + b)[1..] == a[1..] + b;
      Sums(a[1..], b);
    }
  }

  lemma {:induction false} JsonBound(t: Text)
    requires ValidText(t)
    ensures Bytes(t) <= Json(t) <= 6 * Bytes(t)
  {
    if t != [] {
      JsonBound(t[1..]);
    }
  }

  // ---- cutting at byte offsets -----------------------------------------------------------

  // The whole code points within the first n bytes.
  function Head(t: Text, n: nat): Text {
    if t == [] || t[0].width > n then [] else [t[0]] + Head(t[1..], n - t[0].width)
  }

  // The whole code points within the last n bytes.
  function Tail(t: Text, n: nat): Text {
    if t == [] || t[|t| - 1].width > n then []
    else Tail(t[..|t| - 1], n - t[|t| - 1].width) + [t[|t| - 1]]
  }

  lemma {:induction false} HeadGrows(t: Text, n: nat, m: nat)
    requires n <= m
    ensures Json(Head(t, n)) <= Json(Head(t, m)) && Bytes(Head(t, n)) <= n
    ensures Head(t, n) <= t
  {
    if t != [] && t[0].width <= n {
      HeadGrows(t[1..], n - t[0].width, m - t[0].width);
    }
  }

  lemma {:induction false} TailGrows(t: Text, n: nat, m: nat)
    requires n <= m
    ensures Json(Tail(t, n)) <= Json(Tail(t, m)) && Bytes(Tail(t, n)) <= n
  {
    if t != [] && t[|t| - 1].width <= n {
      var last := t[|t| - 1];
      TailGrows(t[..|t| - 1], n - last.width, m - last.width);
      Sums(Tail(t[..|t| - 1], n - last.width), [last]);
      Sums(Tail(t[..|t| - 1], m - last.width), [last]);
    }
  }

  // Nothing shorter is cut off than has to be: the next code point would not have fitted.
  lemma {:induction false} HeadIsLongest(t: Text, n: nat, k: nat)
    requires ValidText(t) && k <= |t| && Bytes(t[..k]) <= n
    ensures k <= |Head(t, n)|
  {
    if k > 0 {
      assert t[..k][1..] == t[1..][..k - 1];
      HeadIsLongest(t[1..], n - t[0].width, k - 1);
    }
  }

  // The same at the other end, where whole code points are kept from the back.
  lemma {:induction false} TailIsLongest(t: Text, n: nat, k: nat)
    requires ValidText(t) && k <= |t| && Bytes(t[|t| - k..]) <= n
    ensures k <= |Tail(t, n)|
    decreases k
  {
    if k > 0 {
      var last, init, rest := t[|t| - 1], t[..|t| - 1], t[|t| - k..|t| - 1];
      assert t[|t| - k..] == rest + [last];
      assert Bytes(t[|t| - k..]) == Bytes(rest) + last.width by { Sums(rest, [last]); }
      assert init[|init| - (k - 1)..] == rest;
      hide Bytes;
      TailIsLongest(init, n - last.width, k - 1);
    }
  }

  // And it is the end of the text.
  lemma {:induction false} TailIsSuffix(t: Text, n: nat)
    ensures |Tail(t, n)| <= |t| && Tail(t, n) == t[|t| - |Tail(t, n)|..]
  {
    if t != [] && t[|t| - 1].width <= n {
      TailIsSuffix(t[..|t| - 1], n - t[|t| - 1].width);
    }
  }

  function Clip(t: Text, limit: nat): Text
    requires MARKER_BYTES <= limit
  {
    if Bytes(t) <= limit then t
    else
      var half := (limit - MARKER_BYTES) / 2;
      Head(t, half) + MARKER + Tail(t, half)
  }

  lemma ClippedSize(t: Text, limit: nat)
    requires MARKER_BYTES <= limit < Bytes(t)
    ensures var half := (limit - MARKER_BYTES) / 2;
            Json(Clip(t, limit)) == Json(Head(t, half)) + MARKER_JSON + Json(Tail(t, half))
    ensures Bytes(Clip(t, limit)) <= limit
  {
    var half := (limit - MARKER_BYTES) / 2;
    MarkerSizes();
    Sums(Head(t, half) + MARKER, Tail(t, half));
    Sums(Head(t, half), MARKER);
    HeadGrows(t, half, half);
    TailGrows(t, half, half);
  }

  // A longer cut is never smaller, as long as something is cut.
  lemma ClipGrows(t: Text, a: nat, b: nat)
    requires MARKER_BYTES <= a <= b < Bytes(t)
    ensures Json(Clip(t, a)) <= Json(Clip(t, b))
  {
    ClippedSize(t, a);
    ClippedSize(t, b);
    var m, n := (a - MARKER_BYTES) / 2, (b - MARKER_BYTES) / 2;
    HeadGrows(t, m, n);
    TailGrows(t, m, n);
  }

  // The shortest cut that is tried keeps at most one byte at either end.
  lemma ShortestClip(t: Text)
    requires ValidText(t) && Bytes(t) > MARKER_BYTES + 2
    ensures Json(Clip(t, MARKER_BYTES + 2)) <= MARKER_JSON + 12
  {
    hide Head, Tail, Json, Bytes, Clip;
    ClippedSize(t, MARKER_BYTES + 2);
    HeadGrows(t, 1, 1);
    TailGrows(t, 1, 1);
    HeadValid(t, 1);
    TailValid(t, 1);
    JsonBound(Head(t, 1));
    JsonBound(Tail(t, 1));
  }

  lemma HeadValid(t: Text, n: nat)
    requires ValidText(t)
    ensures ValidText(Head(t, n))
  {
    HeadGrows(t, n, n);
  }

  lemma {:induction false} TailValid(t: Text, n: nat)
    requires ValidText(t)
    ensures ValidText(Tail(t, n))
  {
    if t != [] && t[|t| - 1].width <= n {
      TailValid(t[..|t| - 1], n - t[|t| - 1].width);
    }
  }

  // ---- messages --------------------------------------------------------------------------

  datatype Message = Message(role: Text, kind: Text, text: Text)

  predicate ValidMessage(m: Message) {
    ValidText(m.role) && ValidText(m.kind) && ValidText(m.text)
  }

  const MESSAGE_FRAME := 31

  // The encoded object: its braces, keys, quotes and separators, and the three values.
  function Size(m: Message): nat {
    MESSAGE_FRAME + Json(m.role) + Json(m.kind) + Json(m.text)
  }

  function Clipped(m: Message, limit: nat): Message
    requires MARKER_BYTES <= limit
  {
    m.(text := Clip(m.text, limit))
  }

  const SHORTEST := MARKER_BYTES + 2

  // The largest of the limits tried whose clip is within the budget.
  ghost predicate LargestFit(m: Message, budget: int, limit: nat) {
    && SHORTEST <= limit <= Bytes(m.text) && Size(Clipped(m, limit)) <= budget
    && forall l :: limit < l <= Bytes(m.text) ==> Size(Clipped(m, l)) > budget
  }

  ghost predicate NothingFits(m: Message, budget: int) {
    forall l :: SHORTEST <= l <= Bytes(m.text) ==> Size(Clipped(m, l)) > budget
  }

  // Binary search for the longest clip of an oversized message that fits.
  method Fit(m: Message, budget: int) returns (best: Message, found: bool, ghost limit: nat)
    requires Size(m) > budget
    ensures found ==> LargestFit(m, budget, limit) && best == Clipped(m, limit)
    ensures !found ==> NothingFits(m, budget)
  {
    var length := Bytes(m.text);
    var low, high := SHORTEST, length;
    best, found, limit := m, false, 0;
    while low <= high
      invariant SHORTEST <= low && high <= length
      invariant forall l :: high < l <= length && SHORTEST <= l ==> Size(Clipped(m, l)) > budget
      invariant found ==> SHORTEST <= limit && low == limit + 1 && low <= length + 1
      invariant found ==> Size(Clipped(m, limit)) <= budget && best == Clipped(m, limit)
      invariant !found ==> low == SHORTEST
      decreases high - low
    {
      var middle := low + (high - low) / 2;
      var candidate := m.(text := Clip(m.text, middle));
      if Size(candidate) <= budget {
        best, found, limit, low := candidate, true, middle, middle + 1;
      } else {
        forall l | middle <= l <= length ensures Size(Clipped(m, l)) > budget {
          if l < length {
            ClipGrows(m.text, middle, l);
          }
        }
        high := middle - 1;
      }
    }
  }

  // Some clip fits once the budget covers the frame, the role, the kind and six times the bytes of the
  // shortest clip.
  lemma ShortFramesFit(m: Message, budget: int)
    requires ValidMessage(m) && Size(m) > budget
    requires budget >= MESSAGE_FRAME + Json(m.role) + Json(m.kind) + 6 * (MARKER_BYTES + 2)
    ensures !NothingFits(m, budget)
  {
    JsonBound(m.text);
    ShortestClip(m.text);
    assert Size(Clipped(m, SHORTEST)) <= budget;
  }
}
