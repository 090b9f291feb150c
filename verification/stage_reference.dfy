/** What becomes of a stage row, written out: the reference for the guarded updates. */
module StageReference {
  import opened Wrappers
  import opened StageModel

  predicate Usable(row: Stage) { row.status == Pending || row.status == Ready }

  // What is left of a row that is given up: no payload and no OAuth state.
  predicate GivenUp(row: Stage, status: Status, code: string, now: int, next: Stage) {
    next == Stage(status, row.channel, row.authorization, "", None, row.identity, row.expiresAt, now, code, row.consumedBy)
  }

  // ---- cleanup and restart --------------------------------------------------------------

  predicate SweptTo(row: Stage, now: int, next: Stage) {
    if row.expiresAt <= now && row.status == Exchanging then
      GivenUp(row, OutcomeUnknown, "authorization_exchange_interrupted", now, next)
    else if row.expiresAt <= now && Usable(row) then GivenUp(row, Expired, row.code, now, next)
    else next == row
  }

  // A finished row that nobody touched for a day.
  predicate Forgotten(row: Stage, now: int) {
    row.updatedAt < now - 86_400_000 && row.status != Exchanging && !Usable(row)
  }

  predicate CleanedTo(before: map<string, Stage>, now: int, after: map<string, Stage>) {
    && (forall id :: id in after ==> id in before)
    && forall id :: id in before ==>
         && (id !in after <==> Forgotten(before[id], now))
         && (id in after ==> SweptTo(before[id], now, after[id]))
  }

  lemma CleanMeans(rows: map<string, Stage>, now: int)
    ensures CleanedTo(rows, now, Cleaned(rows, now))
  {
    forall id | id in rows
      ensures Stale(Sweep(rows[id], now), now) <==> Forgotten(rows[id], now)
      ensures !Forgotten(rows[id], now) ==> SweptTo(rows[id], now, Sweep(rows[id], now))
    {
    }
  }

  predicate RestartedTo(before: map<string, Stage>, now: int, after: map<string, Stage>) {
    && after.Keys == before.Keys
    && forall id :: id in before ==>
         if before[id].status == Exchanging then
           GivenUp(before[id], OutcomeUnknown, "authorization_exchange_interrupted", now, after[id])
         else after[id] == before[id]
  }

  lemma RestartMeans(rows: map<string, Stage>, now: int)
    ensures RestartedTo(rows, now, Interrupted(rows, now))
  {
  }

  // ---- the result of an exchange ---------------------------------------------------------

  // The row that an exchange which started from `row` leaves behind.
  predicate ResultIn(row: Stage, o: Outcome, now: int, next: Stage) {
    match o
    case Exchanged(payload, identity) =>
      next == Stage(Ready, row.channel, row.authorization, payload, row.stateHash, identity, now + 1_800_000, now, row.code, row.consumedBy)
    case StillPending(payload, expiresAt) =>
      next == Stage(Pending, row.channel, row.authorization, payload, row.stateHash, row.identity, expiresAt, now, row.code, row.consumedBy)
    case Refreshed(payload, identity, expiresAt) =>
      next == Stage(Ready, row.channel, row.authorization, payload, row.stateHash, identity, expiresAt, now, "", row.consumedBy)
    case Retry(expiresAt) =>
      next == Stage(Ready, row.channel, row.authorization, row.payload, row.stateHash, row.identity, expiresAt, now, "", row.consumedBy)
    case Rejected(status, code, clearsHash) =>
      next == Stage(status, row.channel, row.authorization, "", if clearsHash then None else row.stateHash, row.identity,
                    row.expiresAt, now, code, row.consumedBy)
  }
}
