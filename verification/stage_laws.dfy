/** What each event does to each row, over every run. */
module StageLaws {
  import opened Wrappers
  import opened StageModel
  import opened StageRuns
  import R = StageReference

  // The event changes this row: by its status, its deadline, and what the caller presents.
  predicate Takes(s: System, e: Event, id: ID, row: Stage) {
    match e
    case TakeBrowser(_, x, hash, now, _, _) => x == id && row.status == Pending && row.stateHash == Some(hash) && now < row.expiresAt
    case TakeDevice(_, x, now) => x == id && row.status == Pending && row.authorization == Device && now < row.expiresAt
    case TakeRefresh(_, x, payload, now) => x == id && row.status == Ready && row.payload == payload && now < row.expiresAt
    case Done(thread, _, _) => thread in s.holds && s.holds[thread].id == id && row.status == Exchanging
    case Fail(x, hash, _, now) => x == id && row.status == Pending && row.stateHash == Some(hash) && now < row.expiresAt
    case Withdraw(x, _) => x == id && (row.status == Pending || row.status == Ready)
    case Lapse(x, observed, _) => x == id && row.status == observed
    case Use(x, _, _) => x == id && row.status == Ready
    case _ => false
  }

  // A claim keeps what the row holds and gives the caller half a minute.
  predicate ClaimedAs(row: Stage, hash: Option<string>, code: string, expiresAt: int, updatedAt: int, next: Stage) {
    next == Stage(Exchanging, row.channel, row.authorization, row.payload, hash, row.identity, expiresAt, updatedAt, code, row.consumedBy)
  }

  predicate Leaves(e: Event, row: Stage, next: Stage) {
    match e
    case TakeBrowser(_, _, _, _, from, later) => ClaimedAs(row, None, row.code, from + 30_000, later, next)
    case TakeDevice(_, _, now) => ClaimedAs(row, row.stateHash, row.code, now + 30_000, now, next)
    case TakeRefresh(_, _, _, now) => ClaimedAs(row, row.stateHash, "", now + 30_000, now, next)
    case Done(_, outcome, now) => R.ResultIn(row, outcome, now, next)
    case Fail(_, _, code, now) => R.GivenUp(row, Failed, code, now, next)
    case Withdraw(_, now) => R.GivenUp(row, Cancelled, row.code, now, next)
    case Lapse(_, observed, now) =>
      if observed == Exchanging then R.GivenUp(row, OutcomeUnknown, "authorization_exchange_interrupted", now, next)
      else R.GivenUp(row, Expired, "", now, next)
    case Use(_, group, now) =>
      next == Stage(Consumed, row.channel, row.authorization, "", None, row.identity, row.expiresAt, now, row.code, Some(group))
    case _ => next == row
  }

  // The row a new stage starts with.
  predicate StartsAs(e: Event, next: Stage) {
    match e
    case BeginBrowser(_, channel, payload, hash, now) =>
      next == Stage(Pending, channel, Browser, payload, Some(hash), "", now + 300_000, now, "", None)
    case BeginDevice(_, channel, payload, expiresAt, now) =>
      next == Stage(Pending, channel, Device, payload, None, "", expiresAt, now, "", None)
    case Import(_, channel, payload, identity, now) =>
      next == Stage(Ready, channel, File, payload, None, identity, now + 1_800_000, now, "", None)
    case _ => false
  }

  lemma TakesMeans(s: System, e: Event, id: ID)
    requires id in s.stages
    ensures Takes(s, e, id, s.stages[id]) <==> Applies(s, e) && Aim(s, e) == id
  {
  }

  lemma LeavesMeans(s: System, e: Event, row: Stage)
    requires Update(s, e, row).Some?
    ensures Leaves(e, row, Update(s, e, row).value)
  {
  }

  predicate Suits(e: Event, kind: Kind) {
    match kind
    case BrowserExchange => e.TakeBrowser?
    case DevicePoll => e.TakeDevice?
    case ReadyRefresh => e.TakeRefresh?
  }

  predicate Begins(e: Event) { e.BeginBrowser? || e.BeginDevice? || e.Import? }

  // What one event does to one row that is there.
  ghost predicate RowMeans(s: System, e: Event, id: ID, after: System)
    requires id in s.stages
  {
    var row := s.stages[id];
    if e.CleanUp? then
      && (id !in after.stages <==> R.Forgotten(row, e.now))
      && (id in after.stages ==> R.SweptTo(row, e.now, after.stages[id]))
    else
      && id in after.stages
      && if e.Restart? then
           if row.status == Exchanging then
             R.GivenUp(row, OutcomeUnknown, "authorization_exchange_interrupted", e.now, after.stages[id])
           else after.stages[id] == row
         else if Takes(s, e, id, row) then Leaves(e, row, after.stages[id])
         else after.stages[id] == row
  }

  lemma StepMeans(s: System, e: Event, id: ID)
    requires Rows(s) && Permitted(s, e) && id in s.stages
    ensures RowMeans(s, e, id, Step(s, e))
  {
    assert id in s.used;
    assert Begins(e) ==> e.id != id;
    hide Takes, Leaves, Update, R.SweptTo, R.Forgotten, R.GivenUp, Cleaned, Interrupted, Rows, Permitted;
    TakesMeans(s, e, id);
    if e.CleanUp? {
      R.CleanMeans(s.stages, e.now);
    } else if e.Restart? {
      R.RestartMeans(s.stages, e.now);
    } else {
      AimedMeans(s, e, id);
    }
  }

  // An event that is aimed at one row changes that row and no other.
  lemma AimedMeans(s: System, e: Event, id: ID)
    requires id in s.stages && !e.CleanUp? && !e.Restart? && (Begins(e) ==> e.id != id)
    ensures id in Step(s, e).stages
    ensures Takes(s, e, id, s.stages[id]) ==> Leaves(e, s.stages[id], Step(s, e).stages[id])
    ensures !Takes(s, e, id, s.stages[id]) ==> Step(s, e).stages[id] == s.stages[id]
  {
    hide Takes, Leaves, Update;
    TakesMeans(s, e, id);
    if Applies(s, e) {
      LeavesMeans(s, e, s.stages[Aim(s, e)]);
    }
  }

  // A row that was not there is the one a new stage starts with.
  lemma StepStarts(s: System, e: Event, id: ID)
    requires id in Step(s, e).stages && id !in s.stages
    ensures Begins(e) && e.id == id && StartsAs(e, Step(s, e).stages[id])
  {
  }

  // Over every run: exactly when each event changes a row, and every field of the row afterwards.
  lemma RowsOverRuns(es: seq<Event>, id: ID)
    requires PermittedRun(es) && es != []
    ensures var s, e := Run(es[..|es| - 1]), es[|es| - 1];
            && (id in s.stages ==> RowMeans(s, e, id, Run(es)))
            && (id !in s.stages && id in Run(es).stages ==> Begins(e) && e.id == id && StartsAs(e, Run(es).stages[id]))
            && (id !in s.stages && Begins(e) && e.id == id ==> id in Run(es).stages)
  {
    var s, e := Run(es[..|es| - 1]), es[|es| - 1];
    RunInvariant(es[..|es| - 1]);
    if id in s.stages {
      StepMeans(s, e, id);
    } else if id in Run(es).stages {
      StepStarts(s, e, id);
    }
  }

  // A claim that takes its stage hands the caller the deadline it replaced; no other event does.
  lemma ClaimHands(s: System, e: Event)
    requires Claims(e) && e.id in s.stages && Takes(s, e, e.id, s.stages[e.id])
    ensures e.thread in Step(s, e).holds
    ensures var h := Step(s, e).holds[e.thread];
            && h.id == e.id && h.expiresAt == s.stages[e.id].expiresAt
            && Suits(e, h.kind)
  {
  }

  // ---- from a claim to its result -----------------------------------------------------------

  // The row after a result, from the row the claim found.
  ghost predicate Resulted(found: Stage, claim: Event, o: Outcome, now: int, next: Stage)
    requires Claims(claim)
  {
    && next.channel == found.channel && next.authorization == found.authorization
    && next.consumedBy.None? && next.stateHash.None? && next.updatedAt == now
    && match o
       case Exchanged(payload, identity) =>
         next.status == Ready && next.payload == payload && next.identity == identity
         && next.expiresAt == now + 1_800_000 && next.code == found.code && found.status == Pending
       case StillPending(payload, _) =>
         next.status == Pending && next.payload == payload && next.identity == found.identity
         && next.expiresAt == found.expiresAt && next.code == found.code && found.status == Pending
       case Refreshed(payload, identity, _) =>
         next.status == Ready && next.payload == payload && next.identity == identity
         && next.expiresAt == found.expiresAt && next.code == "" && found.status == Ready
       case Retry(_) =>
         next.status == Ready && next.payload == found.payload && next.identity == found.identity
         && next.expiresAt == found.expiresAt && next.code == "" && found.status == Ready
       case Rejected(status, code, _) =>
         next.status == status && next.payload == "" && next.identity == found.identity && next.code == code
         && next.expiresAt == 30_000 + if claim.TakeBrowser? then claim.from else claim.now
  }

  lemma ResultFrom(found: Stage, claim: Event, claimed: Stage, h: Hold, o: Outcome, now: int, next: Stage)
    requires Claims(claim) && WellFormed(found) && Leaves(claim, found, claimed)
    requires found.status == if claim.TakeRefresh? then Ready else Pending
    requires claim.TakeDevice? ==> found.authorization == Device
    requires h.expiresAt == found.expiresAt && Reports(h, o)
    requires Suits(claim, h.kind)
    requires R.ResultIn(claimed, o, now, next)
    ensures Resulted(found, claim, o, now, next)
  {
  }

  // Over every run: what a result leaves, from the row its claim found, whatever came between. A result
  // is written exactly if the stage is still there and still exchanging.
  lemma ResultOfClaim(es: seq<Event>, t: Thread)
    requires PermittedRun(es) && es != [] && es[|es| - 1].Done? && es[|es| - 1].thread == t
    requires t in Run(es[..|es| - 1]).holds
    ensures var s, e, id := Run(es[..|es| - 1]), es[|es| - 1], Run(es[..|es| - 1]).holds[t].id;
            var i := ClaimedAt(es[..|es| - 1], t);
            && 0 <= i && Claims(es[i]) && es[i].thread == t && es[i].id == id && id in Run(es[..i]).stages
            && (id in s.stages && s.stages[id].status == Exchanging ==>
                  id in Run(es).stages && Resulted(Run(es[..i]).stages[id], es[i], e.outcome, e.now, Run(es).stages[id]))
            && (!(id in s.stages && s.stages[id].status == Exchanging) ==> Run(es).stages == s.stages)
  {
    var n := |es| - 1;
    var init := es[..n];
    var s, e, id := Run(init), es[n], Run(init).holds[t].id;
    HoldersClaimed(init, t);
    var i := ClaimedAt(init, t);
    assert init[..i] == es[..i];
    if id in s.stages && s.stages[id].status == Exchanging {
      ResultWritten(es, t);
    }
  }

  lemma ResultWritten(es: seq<Event>, t: Thread)
    requires PermittedRun(es) && es != [] && es[|es| - 1].Done? && es[|es| - 1].thread == t
    requires Applies(Run(es[..|es| - 1]), es[|es| - 1])
    ensures var e, id := es[|es| - 1], Run(es[..|es| - 1]).holds[t].id;
            var i := ClaimedAt(es[..|es| - 1], t);
            && 0 <= i && Claims(es[i]) && id in Run(es[..i]).stages && id in Run(es).stages
            && Resulted(Run(es[..i]).stages[id], es[i], e.outcome, e.now, Run(es).stages[id])
  {
    hide Step, Takes, Leaves, Update, Reports, WellFormed, Resulted, R.ResultIn, ClaimedAt, Invariant;
    var n := |es| - 1;
    var init := es[..n];
    var h := Run(init).holds[t];
    HoldersClaimed(init, t);
    var i := ClaimedAt(init, t);
    assert init[..i] == es[..i] && es[..i + 1][..i] == es[..i] && init[..i + 1] == es[..i + 1];
    assert HoldsAt(init, i + 1, t, h);
    ExchangingUntouched(es, t, h.id);
    ClaimStep(es, i);
    ResultStep(es);
    ResultFrom(Run(es[..i]).stages[h.id], es[i], Run(init).stages[h.id], h, es[n].outcome, es[n].now, Run(es).stages[h.id]);
  }

  // What a claim finds and leaves.
  ghost predicate ClaimMeans(s: System, e: Event, after: System)
    requires Claims(e)
  {
    && e.id in s.stages && e.id in after.stages && e.thread in after.holds && WellFormed(s.stages[e.id])
    && Leaves(e, s.stages[e.id], after.stages[e.id])
    && s.stages[e.id].status == (if e.TakeRefresh? then Ready else Pending)
    && (e.TakeDevice? ==> s.stages[e.id].authorization == Device)
    && after.holds[e.thread].expiresAt == s.stages[e.id].expiresAt
    && Suits(e, after.holds[e.thread].kind)
  }

  lemma ClaimRow(s: System, e: Event)
    requires Invariant(s) && Permitted(s, e) && Claims(e) && Applies(s, e)
    ensures ClaimMeans(s, e, Step(s, e))
  {
    TakesMeans(s, e, e.id);
    assert Takes(s, e, e.id, s.stages[e.id]);
    ClaimHands(s, e);
    StepMeans(s, e, e.id);
    hide Step, Leaves, Update, WellFormed, Permitted, Suits, Holders;
  }

  lemma ClaimStep(es: seq<Event>, i: nat)
    requires PermittedRun(es) && i < |es| && Claims(es[i]) && Applies(Run(es[..i]), es[i])
    ensures ClaimMeans(Run(es[..i]), es[i], Run(es[..i + 1]))
  {
    hide Step, ClaimMeans, Applies, Permitted, Invariant;
    assert es[..i + 1][..i] == es[..i];
    PrefixPermitted(es, i);
    PrefixPermitted(es, i + 1);
    RunInvariant(es[..i]);
    ClaimRow(Run(es[..i]), es[i]);
  }

  lemma ResultStep(es: seq<Event>)
    requires PermittedRun(es) && es != [] && es[|es| - 1].Done? && Applies(Run(es[..|es| - 1]), es[|es| - 1])
    ensures var s, e := Run(es[..|es| - 1]), es[|es| - 1];
            var h := s.holds[e.thread];
            && h.id in s.stages && h.id in Run(es).stages && Reports(h, e.outcome)
            && R.ResultIn(s.stages[h.id], e.outcome, e.now, Run(es).stages[h.id])
  {
    var s, e := Run(es[..|es| - 1]), es[|es| - 1];
    RunInvariant(es[..|es| - 1]);
    TakesMeans(s, e, Aim(s, e));
    StepMeans(s, e, Aim(s, e));
  }
}
