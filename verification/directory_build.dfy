/**
  The client model catalog as it is sent: as many of the selected models, from the front, as the
  byte limit allows.
*/
module DirectoryBuild {
  import opened Wrappers

  const MAX_BYTES := 1_048_576
  const OPENING := 11
  const CLOSING := 2

  datatype Entry = Entry(bytes: nat, included: bool)

  // The body holding the first k items: opening, items, commas and closing.
  function BodySize(sizes: seq<nat>, k: nat): nat
    requires k <= |sizes|
  {
    if k == 0 then OPENING + CLOSING
    else BodySize(sizes, k - 1) + sizes[k - 1] + if k > 1 then 1 else 0
  }

  lemma {:induction false} BodyGrows(sizes: seq<nat>, j: nat, k: nat)
    requires j <= k <= |sizes|
    ensures BodySize(sizes, j) <= BodySize(sizes, k)
  {
    if j < k {
      BodyGrows(sizes, j, k - 1);
    }
  }

  // The longest prefix that fits.
  ghost predicate Longest(sizes: seq<nat>, limit: int, k: nat) {
    && k <= |sizes| && BodySize(sizes, k) <= limit
    && forall j :: k < j <= |sizes| ==> BodySize(sizes, j) > limit
  }

  datatype Catalog = Catalog(entries: seq<Entry>, responseBytes: int, selectedBytes: int, included: nat)

  method Build(sizes: seq<nat>, requested: int) returns (r: Option<Catalog>)
    ensures r.None? <==> (if requested < MAX_BYTES then requested else MAX_BYTES) < OPENING + CLOSING
    ensures r.Some? ==>
              var limit := if requested < MAX_BYTES then requested else MAX_BYTES;
              && Longest(sizes, limit, r.value.included)
              && r.value.responseBytes == BodySize(sizes, r.value.included)
              && r.value.selectedBytes == BodySize(sizes, |sizes|)
              && |r.value.entries| == |sizes|
              && forall i :: 0 <= i < |sizes| ==> r.value.entries[i] == Entry(sizes[i], i < r.value.included)
  {
    var limit := if requested < MAX_BYTES then requested else MAX_BYTES;
    var body := OPENING;
    if body + CLOSING > limit {
      return None;
    }
    var selected, full, count := body + CLOSING, false, 0;
    var entries := [];
    for i := 0 to |sizes|
      invariant selected == BodySize(sizes, i) && |entries| == i
      invariant count <= i && body + CLOSING == BodySize(sizes, count) <= limit
      invariant !full ==> count == i
      invariant full ==> count < i && BodySize(sizes, count + 1) > limit
      invariant forall j :: 0 <= j < i ==> entries[j] == Entry(sizes[j], j < count)
    {
      var size := sizes[i] + if i > 0 then 1 else 0;
      selected := selected + size;
      var included := !full && size <= limit - body - CLOSING;
      entries := entries + [Entry(sizes[i], included)];
      if included {
        body := body + size;
        count := count + 1;
      } else {
        full := true;
      }
    }
    forall j | count < j <= |sizes| ensures BodySize(sizes, j) > limit {
      BodyGrows(sizes, count + 1, j);
    }
    return Some(Catalog(entries, body + CLOSING, selected, count));
  }

  // ---- the body as it is written ------------------------------------------------------------

  function Listed(items: seq<string>): string {
    if items == [] then ""
    else if |items| == 1 then items[0]
    else Listed(items[..|items| - 1]) + "," + items[|items| - 1]
  }

  function Body(items: seq<string>): string {
    "{\"models\":[" + Listed(items) + "]}"
  }

  // The size of the body is the length of its text.
  lemma {:induction false} BodyIsWritten(items: seq<string>, sizes: seq<nat>, k: nat)
    requires |items| == |sizes| && k <= |sizes| && forall i :: 0 <= i < |sizes| ==> |items[i]| == sizes[i]
    ensures |Body(items[..k])| == BodySize(sizes, k)
  {
    if k > 0 {
      BodyIsWritten(items, sizes, k - 1);
      assert items[..k][..k - 1] == items[..k - 1];
    }
  }
}
