/**
  The body of one synchronization, over the coordinator's own fields. Its every execution is a
  path of the machine that the run properties are about.
*/
module CatalogExecutor {
  import opened Wrappers
  import opened CatalogSync

  // The acts lead from one point of a synchronization to another.
  ghost function Walk(c: Catalog, p: Phase, acts: seq<Act>): Option<(Catalog, Phase)>
    decreases |acts|
  {
    if acts == [] then Some((c, p))
    else if !Fits(p, acts[0]) then None
    else Walk(Advance(c, p, acts[0]).0, Advance(c, p, acts[0]).1, acts[1..])
  }

  lemma {:induction false} WalkOn(c: Catalog, p: Phase, acts: seq<Act>, a: Act)
    requires Walk(c, p, acts).Some? && Fits(Walk(c, p, acts).value.1, a)
    ensures var (d, q) := Walk(c, p, acts).value; Walk(c, p, acts + [a]) == Some(Advance(d, q, a))
    decreases |acts|
  {
    if acts != [] {
      assert (acts + [a])[1..] == acts[1..] + [a];
      WalkOn(Advance(c, p, acts[0]).0, Advance(c, p, acts[0]).1, acts[1..], a);
    }
  }

  // Walking keeps what the phases promise.
  lemma {:induction false} WalkHolds(c: Catalog, p: Phase, acts: seq<Act>)
    requires PhaseHolds(c, p) && Sound(c) && Walk(c, p, acts).Some?
    ensures var (d, q) := Walk(c, p, acts).value; PhaseHolds(d, q) && Sound(d)
    decreases |acts|
  {
    if acts != [] {
      AdvanceHolds(c, p, acts[0]);
      WalkHolds(Advance(c, p, acts[0]).0, Advance(c, p, acts[0]).1, acts[1..]);
    }
  }

  // ---- what a whole synchronization does -------------------------------------------------

  // A generation that is being made the one served: it is recorded with its own validators, or stays pending.
  predicate Applied(c: Catalog, g: Generation, ok: bool, after: Catalog, o: Outcome) {
    && after.cache == c.cache && after.issued == c.issued && after.fetches == c.fetches
    && if ok then
         && after.published == Some(g.snapshot) && after.metadata == g.metadata && after.hasLKG && after.pending.None?
         && o == Succeeded(g.metadata)
       else
         && after.published == c.published && after.metadata == c.metadata && after.hasLKG == c.hasLKG
         && after.pending == Some(g) && o == Failed
  }

  // What the request alone changes.
  ghost function Asked(c: Catalog, r: Response): Catalog {
    Catalog(c.metadata, c.hasLKG, c.pending, c.published, c.cache,
            if r.Full? then c.issued + {(r.generation.metadata.validators, r.generation.snapshot)} else c.issued, c.fetches + 1)
  }

  // A full response: cached and then made the one served, or the call fails with what the cache has left.
  predicate SavedAs(asked: Catalog, g: Generation, acts: seq<Act>, after: Catalog, o: Outcome) {
    acts != [] && acts[0].Store? &&
    match acts[0].saved
    case Done =>
      |acts| > 1 && acts[1].Publish? && Applied(asked.(cache := Some(g), pending := Some(g)), g, acts[1].ok, after, o)
    case TooLate => after == asked.(cache := Some(g)) && o == Failed
    case Broken(left) =>
      && after == asked.(cache := after.cache) && o == Failed
      && after.cache == if left == asked.cache || left == Some(g) then left else None
  }

  // From the answer, the fate of the cache write and of the publication to the coordinator's fields.
  ghost predicate AnsweredAs(c: Catalog, r: Response, acts: seq<Act>, after: Catalog, o: Outcome) {
    match r
    case Error => after == Asked(c, r) && o == Failed
    case Unmodified(checkedAt) =>
      if c.hasLKG && c.published.Some? then
        && after == Asked(c, r).(metadata := Metadata(c.metadata.validators, checkedAt, c.metadata.fetchedAt))
        && o == NotModified(after.metadata)
      else after == Asked(c, r) && o == Failed
    case Full(g) => SavedAs(Asked(c, r), g, acts, after, o)
  }

  ghost predicate SyncMeans(c: Catalog, acts: seq<Act>, after: Catalog, o: Outcome) {
    |acts| > 1 &&
    if c.pending.Some? then acts[1].Publish? && Applied(c, c.pending.value, acts[1].ok, after, o)
    else acts[1].Ask? && AnsweredAs(c, acts[1].response, acts[2..], after, o)
  }

  lemma WalkEnds(c: Catalog, o: Outcome, acts: seq<Act>)
    requires Walk(c, Finish(o), acts).Some?
    ensures Walk(c, Finish(o), acts) == Some((c, Finish(o)))
  {
  }

  lemma WalkCommits(c: Catalog, g: Generation, acts: seq<Act>, after: Catalog, o: Outcome)
    requires Walk(c, Commit(g), acts) == Some((after, Finish(o)))
    ensures after == c.(metadata := g.metadata, hasLKG := true, pending := None) && o == Succeeded(g.metadata)
  {
    WalkEnds(Advance(c, Commit(g), acts[0]).0, Succeeded(g.metadata), acts[1..]);
  }

  lemma WalkApplies(c: Catalog, p: Phase, g: Generation, acts: seq<Act>, after: Catalog, o: Outcome)
    requires (p == ApplyPending(g) || p == Apply(g)) && c.pending == Some(g) && Walk(c, p, acts) == Some((after, Finish(o)))
    ensures acts != [] && acts[0].Publish? && Applied(c, g, acts[0].ok, after, o)
  {
    if acts[0].ok {
      WalkCommits(c.(published := Some(g.snapshot)), g, acts[1..], after, o);
    } else {
      WalkEnds(c, Failed, acts[1..]);
    }
  }

  lemma WalkSaves(c: Catalog, g: Generation, acts: seq<Act>, after: Catalog, o: Outcome)
    requires c.pending.None? && Walk(c, Save(g), acts) == Some((after, Finish(o)))
    ensures SavedAs(c, g, acts, after, o)
  {
    var next := Advance(c, Save(g), acts[0]);
    if acts[0].saved == Done {
      WalkApplies(next.0, next.1, g, acts[1..], after, o);
    } else {
      WalkEnds(next.0, Failed, acts[1..]);
    }
  }

  lemma WalkAsks(c: Catalog, acts: seq<Act>, after: Catalog, o: Outcome)
    requires c.pending.None? && Walk(c, Fetch(c.metadata), acts) == Some((after, Finish(o)))
    ensures acts != [] && acts[0].Ask? && AnsweredAs(c, acts[0].response, acts[1..], after, o)
  {
    var r := acts[0].response;
    var next := Advance(c, Fetch(c.metadata), acts[0]);
    if r.Full? {
      assert next.0 == Asked(c, r);
      WalkSaves(next.0, r.generation, acts[1..], after, o);
    } else {
      WalkEnds(next.0, next.1.outcome, acts[1..]);
    }
  }

  // Every path from the beginning of a synchronization to its end: the outcome and every field, from what
  // upstream, the cache and the publication answered.
  lemma WalkMeans(c: Catalog, acts: seq<Act>, after: Catalog, o: Outcome)
    requires Walk(c, Begin, acts) == Some((after, Finish(o)))
    ensures SyncMeans(c, acts, after, o)
  {
    hide Applied, AnsweredAs, Fits;
    assert acts[0] == Look by { assert Fits(Begin, acts[0]); LookFirst(acts[0]); }
    if c.pending.Some? {
      WalkApplies(c, ApplyPending(c.pending.value), c.pending.value, acts[1..], after, o);
    } else {
      WalkAsks(c, acts[1..], after, o);
      assert acts[1..][1..] == acts[2..];
    }
  }

  lemma LookFirst(a: Act)
    requires Fits(Begin, a)
    ensures a == Look
  {
  }

  class Coordinator {
    var metadata: Metadata
    var hasLKG: bool
    var pending: Option<Generation>
    var published: Option<Snapshot>
    var cache: Option<Generation>
    ghost var issued: set<(Validators, Snapshot)>
    ghost var fetches: nat

    ghost function Value(): Catalog
      reads this
    {
      Catalog(metadata, hasLKG, pending, published, cache, issued, fetches)
    }

    // Starts from the embedded catalog, or from the cached generation when there is one.
    constructor (official: Option<Snapshot>, cached: Option<Generation>, ghost issued: set<(Validators, Snapshot)>)
      requires cached.Some? ==> (cached.value.metadata.validators, cached.value.snapshot) in issued
      ensures Value() == Boot(official, cached, issued) && Paired(Value()) && Sound(Value())
    {
      this.issued, fetches := issued, 0;
      pending, cache := None, cached;
      published, metadata, hasLKG := official, NO_METADATA, false;
      if cached.Some? {
        published := Some(cached.value.snapshot);
        metadata := cached.value.metadata;
        hasLKG := true;
      }
    }

    // Making a snapshot the one served either succeeds or changes nothing.
    method ApplySnapshot(snapshot: Snapshot) returns (ok: bool)
      modifies this`published
      ensures published == if ok then Some(snapshot) else old(published)
    {
      ok := *;
      if ok {
        published := Some(snapshot);
      }
    }

    method Ask(sent: Metadata) returns (r: Response)
      modifies this`issued, this`fetches
      ensures fetches == old(fetches) + 1
      ensures issued == if r.Full? then old(issued) + {(r.generation.metadata.validators, r.generation.snapshot)}
                        else old(issued)
    {
      r := *;
      fetches := fetches + 1;
      if r.Full? {
        issued := issued + {(r.generation.metadata.validators, r.generation.snapshot)};
      }
    }

    method StoreCache(g: Generation) returns (saved: Saved)
      modifies this`cache
      ensures cache == match saved
                       case Done => Some(g)
                       case TooLate => Some(g)
                       case Broken(left) => if left == old(cache) || left == Some(g) then left else None
    {
      saved := *;
      match saved {
        case Broken(left) => cache := if left == cache || left == Some(g) then left else None;
        case _ => cache := Some(g);
      }
    }

    method ExecuteSync() returns (outcome: Outcome, ghost acts: seq<Act>)
      modifies this
      ensures Walk(old(Value()), Begin, acts) == Some((Value(), Finish(outcome)))
      ensures old(pending).Some? ==> fetches == old(fetches)
      ensures outcome.Succeeded? && old(pending).Some? ==> published == Some(old(pending).value.snapshot)
      ensures SyncMeans(old(Value()), acts, Value(), outcome)
    {
      outcome, acts := SyncBody();
      WalkMeans(old(Value()), acts, Value(), outcome);
    }

    method SyncBody() returns (outcome: Outcome, ghost acts: seq<Act>)
      modifies this
      ensures Walk(old(Value()), Begin, acts) == Some((Value(), Finish(outcome)))
      ensures old(pending).Some? ==> fetches == old(fetches)
      ensures outcome.Succeeded? && old(pending).Some? ==> published == Some(old(pending).value.snapshot)
    {
      ghost var start := Value();
      acts := [Look];
      if pending.Some? {
        var g := pending.value;
        var applied := ApplySnapshot(g.snapshot);
        WalkOn(start, Begin, acts, Publish(applied));
        acts := acts + [Publish(applied)];
        if !applied {
          return Failed, acts;
        }
        metadata, hasLKG, pending := g.metadata, true, None;
        WalkOn(start, Begin, acts, Record);
        return Succeeded(g.metadata), acts + [Record];
      }
      var sent := metadata;
      var response := Ask(sent);
      WalkOn(start, Begin, acts, Act.Ask(response));
      acts := acts + [Act.Ask(response)];
      match response {
        case Error => return Failed, acts;
        case Unmodified(checkedAt) =>
          if !hasLKG || published.None? {
            return Failed, acts;
          }
          metadata := sent.(checkedAt := checkedAt);
          return NotModified(metadata), acts;
        case Full(g) =>
          var saved := StoreCache(g);
          WalkOn(start, Begin, acts, Store(saved));
          acts := acts + [Store(saved)];
          if saved != Done {
            return Failed, acts;
          }
          pending := Some(g);
          var applied := ApplySnapshot(g.snapshot);
          WalkOn(start, Begin, acts, Publish(applied));
          acts := acts + [Publish(applied)];
          if !applied {
            return Failed, acts;
          }
          metadata, hasLKG, pending := g.metadata, true, None;
          WalkOn(start, Begin, acts, Record);
          return Succeeded(g.metadata), acts + [Record];
      }
    }
  }
}
