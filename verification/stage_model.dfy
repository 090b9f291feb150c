/**
  Credential stages: the rows through which an authorization becomes a credential. Every change
  is one guarded update of one row; `None` is an update that matched no row.
*/
module StageModel {
  import opened Wrappers

  // Milliseconds.
  const EXCHANGE_LIMIT: int := 30_000
  const READY_LIFETIME: int := 1_800_000
  const AUTHORIZATION_LIFETIME: int := 300_000
  const TOMBSTONE_LIFETIME: int := 86_400_000

  datatype Status = Pending | Exchanging | Ready | Consumed | Failed | Cancelled | Expired | OutcomeUnknown

  predicate Terminal(s: Status) {
    s.Consumed? || s.Failed? || s.Cancelled? || s.Expired? || s.OutcomeUnknown?
  }

  datatype Method = Browser | Device | File

  datatype Stage = Stage(
    status: Status, channel: string, authorization: Method, payload: string, stateHash: Option<string>, identity: string,
    expiresAt: int, updatedAt: int, code: string, consumedBy: Option<nat>)

  // ---- rows as they are created ------------------------------------------------------

  function NewBrowser(channel: string, payload: string, hash: string, now: int): Stage {
    Stage(Pending, channel, Browser, payload, Some(hash), "", now + AUTHORIZATION_LIFETIME, now, "", None)
  }

  function NewDevice(channel: string, payload: string, expiresAt: int, now: int): Stage {
    Stage(Pending, channel, Device, payload, None, "", expiresAt, now, "", None)
  }

  function NewReady(channel: string, payload: string, identity: string, now: int): Stage {
    Stage(Ready, channel, File, payload, None, identity, now + READY_LIFETIME, now, "", None)
  }

  // ---- claims: one caller wins the right to talk to the provider ----------------------

  // The clock is read for the check, again for the deadline, and again for the time of change.
  function ClaimBrowser(s: Stage, hash: string, now: int, from: int, later: int): Option<Stage> {
    if s.status == Pending && s.stateHash == Some(hash) && now < s.expiresAt then
      Some(s.(status := Exchanging, stateHash := None, expiresAt := from + EXCHANGE_LIMIT, updatedAt := later))
    else None
  }

  function ClaimDevice(s: Stage, now: int): Option<Stage> {
    if s.status == Pending && s.authorization == Device && now < s.expiresAt then
      Some(s.(status := Exchanging, expiresAt := now + EXCHANGE_LIMIT, updatedAt := now))
    else None
  }

  // A refresh claims only the payload it read.
  function ClaimRefresh(s: Stage, payload: string, now: int): Option<Stage> {
    if s.status == Ready && s.payload == payload && now < s.expiresAt then
      Some(s.(status := Exchanging, expiresAt := now + EXCHANGE_LIMIT, code := "", updatedAt := now))
    else None
  }

  // ---- what the owner of an exchange writes when it is over ---------------------------

  datatype Outcome =
    | Exchanged(payload: string, identity: string)
    | StillPending(payload: string, expiresAt: int)
    | Refreshed(payload: string, identity: string, expiresAt: int)
    | Retry(expiresAt: int)
    | Rejected(status: Status, code: string, clearsHash: bool)

  function Finish(s: Stage, o: Outcome, now: int): Option<Stage> {
    if s.status != Exchanging then None
    else
      Some(match o
           case Exchanged(payload, identity) =>
             s.(status := Ready, payload := payload, identity := identity, expiresAt := now + READY_LIFETIME,
                updatedAt := now)
           case StillPending(payload, expiresAt) =>
             s.(status := Pending, payload := payload, expiresAt := expiresAt, updatedAt := now)
           case Refreshed(payload, identity, expiresAt) =>
             s.(status := Ready, payload := payload, identity := identity, expiresAt := expiresAt, code := "",
                updatedAt := now)
           case Retry(expiresAt) =>
             s.(status := Ready, expiresAt := expiresAt, code := "", updatedAt := now)
           case Rejected(status, code, clearsHash) =>
             s.(status := status, payload := "", stateHash := if clearsHash then None else s.stateHash,
                code := code, updatedAt := now))
  }

  // ---- what anyone may do --------------------------------------------------------------

  function FailAuthorization(s: Stage, hash: string, code: string, now: int): Option<Stage> {
    if s.status == Pending && s.stateHash == Some(hash) && now < s.expiresAt then
      Some(s.(status := Failed, payload := "", stateHash := None, code := code, updatedAt := now))
    else None
  }

  function Cancel(s: Stage, now: int): Option<Stage> {
    if s.status == Pending || s.status == Ready then
      Some(s.(status := Cancelled, payload := "", stateHash := None, updatedAt := now))
    else None
  }

  const INTERRUPTED := "authorization_exchange_interrupted"

  // Guarded by the status the caller read, not by the deadline.
  function Expire(s: Stage, observed: Status, now: int): Option<Stage> {
    if s.status == observed then
      Some(if observed == Exchanging then
             s.(status := OutcomeUnknown, payload := "", stateHash := None, code := INTERRUPTED, updatedAt := now)
           else
             s.(status := Expired, payload := "", stateHash := None, code := "", updatedAt := now))
    else None
  }

  // Restart: every exchange under way is over.
  function Interrupt(s: Stage, now: int): Stage {
    if s.status == Exchanging then
      s.(status := OutcomeUnknown, payload := "", stateHash := None, code := INTERRUPTED, updatedAt := now)
    else s
  }

  // Cleanup: what is left of an overdue row.
  function Sweep(s: Stage, now: int): Stage {
    if s.expiresAt > now then s
    else if s.status == Exchanging then
      s.(status := OutcomeUnknown, payload := "", stateHash := None, code := INTERRUPTED, updatedAt := now)
    else if s.status == Pending || s.status == Ready then
      s.(status := Expired, payload := "", stateHash := None, updatedAt := now)
    else s
  }

  predicate Stale(s: Stage, now: int) {
    s.updatedAt < now - TOMBSTONE_LIFETIME && Terminal(s.status)
  }

  function Cleaned(rows: map<string, Stage>, now: int): map<string, Stage> {
    map id | id in rows && !Stale(Sweep(rows[id], now), now) :: Sweep(rows[id], now)
  }

  function Interrupted(rows: map<string, Stage>, now: int): map<string, Stage> {
    map id | id in rows :: Interrupt(rows[id], now)
  }

  function Consume(s: Stage, group: nat, now: int): Option<Stage> {
    if s.status == Ready then
      Some(s.(status := Consumed, payload := "", stateHash := None, consumedBy := Some(group), updatedAt := now))
    else None
  }

  // ---- what is true of every row -------------------------------------------------------

  // Secrets exist exactly while they can still be used; the OAuth state only while pending.
  predicate WellFormed(s: Stage) {
    && (Terminal(s.status) <==> s.payload == "")
    && (s.stateHash.Some? <==> s.status == Pending && s.authorization == Browser)
    && (s.status == Pending ==> s.authorization != File)
    && (s.status == Consumed <==> s.consumedBy.Some?)
    && (s.status == Exchanging ==> s.expiresAt <= s.updatedAt + EXCHANGE_LIMIT)
  }
}
