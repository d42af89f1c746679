/**
 One row of the PostgreSQL table mitigation_check_run and the guarded UPDATE statements of
 api/lifecycle_store.go that act on it.

 Every store method is one SQL statement (or one short transaction holding the row lock), so it is
 one atomic step: the WHERE clause is the predicate Matches, the SET clause is the function Written,
 and a statement whose WHERE clause does not hold changes nothing.
 */
module Ledger {
  import opened Wrappers

  /** Values drawn from newID: opaque, compared only for equality. */
  type Id = nat

  /** now(): the database clock. */
  type Time = nat

  datatype Status = Queued | Running | Completed | Failed | Canceled {
    predicate Terminal() {
      Completed? || Failed? || Canceled?
    }
  }

  datatype ResultRef = ResultRef(databricks: bool, key: Id)

  /** The canonical result. validateCanonicalResultPayload accepts exactly the bytes obtained by
      marshalling the decoded outcome again, so an outcome also stands for its canonical bytes. */
  datatype Outcome = Outcome(runId: Id, resultId: Id, malfunction: bool, resultRef: Option<ResultRef>, content: Id)
  {
    /** The reference CompletePublished and Publish insist on. */
    predicate Authoritative() {
      resultRef.Some? && resultRef.value.databricks && resultRef.value.key == resultId
    }
  }

  datatype Failure =
    | ExecutionFailed
    | CheckMalfunction
    | ResultStoreUnavailable
    | WorkerAttemptsExhausted
    | PublicationVerificationFailed
    | ResultPublicationConflict

  /** worker_id, lease_token and lease_expires_at are always written and cleared together. */
  datatype Lease = Lease(worker: Id, token: Id, expiresAt: Time)

  datatype CallbackState = Waiting | Pending | Delivering | Retry | Delivered | ConfigurationFailed

  datatype CallbackLease = CallbackLease(token: Id, expiresAt: Time)

  /** The callback columns of a row whose callback_url is not NULL. */
  datatype Callback = Callback(
    url: Id, eventId: Id, state: CallbackState, attempt: nat, nextAt: Time, lease: Option<CallbackLease>)

  datatype Row = Row(
    runId: Id,
    requestId: Id,
    resultId: Id,
    createdAt: Time,
    status: Status,
    lease: Option<Lease>,
    attempt: nat,
    cancelRequested: bool,
    publicationPending: bool,
    verificationAttempt: nat,
    retryAt: Option<Time>,
    response: Option<Outcome>,
    resultPayload: Option<Outcome>,
    completion: Option<Outcome>,
    failure: Option<Failure>,
    callback: Option<Callback>)
  {
    /** worker_id=$w AND lease_token=$t AND status='running' */
    predicate HeldBy(worker: Id, token: Id) {
      status.Running? && lease.Some? && lease.value.worker == worker && lease.value.token == token
    }

    /** HeldBy AND lease_expires_at>now() */
    predicate HeldLive(worker: Id, token: Id, now: Time) {
      HeldBy(worker, token) && lease.value.expiresAt > now
    }

    /** status='running' AND lease_expires_at<=now() */
    predicate LeaseExpired(now: Time) {
      status.Running? && lease.Some? && lease.value.expiresAt <= now
    }

    /** COALESCE(publication_retry_at,created_at)<=now() */
    predicate Due(now: Time) {
      match retryAt
      case Some(at) => at <= now
      case None => createdAt <= now
    }

    /** callback_state='pending', callback_next_at=now() when callback_url is not NULL. */
    function Announced(now: Time): Row {
      match callback
      case None => this
      case Some(c) => this.(callback := Some(c.(state := Pending, nextAt := now)))
    }

    /** What the terminal statements of a leased run share. */
    function Finished(s: Status, now: Time): Row {
      Announced(now).(status := s, lease := None)
    }
  }

  /** What CreateOrGet inserts for a new request. */
  function NewRow(runId: Id, requestId: Id, resultId: Id, createdAt: Time, callback: Option<(Id, Id)>): Row {
    Row(runId, requestId, resultId, createdAt, Queued, None, 0, false, false, 0, None, None, None, None, None,
        match callback
        case None => None
        case Some((url, eventId)) => Some(Callback(url, eventId, Waiting, 0, createdAt, None)))
  }

  datatype Settlement = Accepted | Refused | Postponed(delay: Time)

  datatype Statement =
    | LeaseNext(worker: Id, token: Id, lease: Time, maxAttempts: nat)
    | Heartbeat(worker: Id, token: Id, lease: Time)
    | StageOutcome(worker: Id, token: Id, outcome: Outcome)
    | MarkPublicationPending(worker: Id, token: Id)
    | CompletePublished(worker: Id, token: Id, outcome: Outcome)
    | Fail(worker: Id, token: Id, failure: Failure)
    | FailOutcome(worker: Id, token: Id, outcome: Outcome, failure: Failure)
    | MarkCanceled(worker: Id, token: Id)
    | RetryVerification(worker: Id, token: Id, maxVerification: nat, delay: Time)
    | FailPublicationConflict(worker: Id, token: Id)
    | FailExhausted(maxAttempts: nat)
    | RecoverCanceled
    | Cancel
    | ClaimNextCallback(token: Id, lease: Time)
    | SettleCallback(token: Id, settlement: Settlement)
  {
    /** The statements of the outbox; all others belong to the lifecycle. */
    predicate Outbox() {
      ClaimNextCallback? || SettleCallback?
    }

    /** The statements fenced by a worker's lease token. */
    predicate Fenced() {
      Heartbeat? || StageOutcome? || MarkPublicationPending? || CompletePublished? || Fail? || FailOutcome?
      || MarkCanceled? || RetryVerification? || FailPublicationConflict?
    }
  }

  /** The WHERE clause (and, for CompletePublished, the checks made before the statement is sent). */
  predicate Matches(st: Statement, row: Row, now: Time) {
    match st
    case LeaseNext(worker, token, lease, max) =>
      && (!row.cancelRequested || row.publicationPending)
      && (row.attempt < max || row.response.Some?)
      && row.Due(now)
      && (row.status.Queued? || row.LeaseExpired(now))
    case Heartbeat(w, t, _) => row.HeldLive(w, t, now)
    case StageOutcome(w, t, _) => row.HeldLive(w, t, now) && !row.cancelRequested && row.response.None?
    case MarkPublicationPending(w, t) => row.HeldLive(w, t, now) && !row.cancelRequested && !row.publicationPending
    case CompletePublished(w, t, out) => row.HeldLive(w, t, now) && out.Authoritative()
    case Fail(w, t, _) => row.HeldLive(w, t, now)
    case FailOutcome(w, t, _, _) => row.HeldLive(w, t, now) && !row.cancelRequested
    case MarkCanceled(w, t) => row.HeldBy(w, t) && row.cancelRequested && !row.publicationPending
    case RetryVerification(w, t, _, _) => row.HeldLive(w, t, now) && row.publicationPending
    case FailPublicationConflict(w, t) => row.HeldLive(w, t, now)
    case FailExhausted(max) =>
      row.LeaseExpired(now) && !row.cancelRequested && row.response.None? && row.attempt >= max
    case RecoverCanceled => row.LeaseExpired(now) && row.cancelRequested && !row.publicationPending
    case Cancel => row.status.Queued? || row.status.Running?
    case ClaimNextCallback(_, _) =>
      && row.status.Terminal() && row.callback.Some?
      && var c := row.callback.value;
      && (c.state.Pending? || c.state.Retry? || c.state.Delivering?)
      && c.nextAt <= now
      && (c.lease.None? || c.lease.value.expiresAt <= now)
    case SettleCallback(t, _) =>
      && row.callback.Some?
      && var c := row.callback.value;
      && c.state.Delivering? && c.lease.Some? && c.lease.value.token == t
  }

  /** The SET clause. */
  function Written(st: Statement, row: Row, now: Time): Row
    requires Matches(st, row, now)
  {
    match st
    case LeaseNext(worker, token, lease, _) =>
      row.(status := Running, lease := Some(Lease(worker, token, now + lease)),
           attempt := row.attempt + 1, retryAt := None)
    case Heartbeat(w, t, lease) => row.(lease := Some(Lease(w, t, now + lease)))
    case StageOutcome(_, _, out) => row.(response := Some(out), resultPayload := Some(out))
    case MarkPublicationPending(_, _) => row.(publicationPending := true, retryAt := None)
    case CompletePublished(_, _, out) =>
      row.Finished(Completed, now).(response := Some(out), resultPayload := Some(out), completion := Some(out),
                                    publicationPending := false, retryAt := None)
    case Fail(_, _, f) => row.Finished(Failed, now).(failure := Some(f))
    case FailOutcome(_, _, out, f) => row.Finished(Failed, now).(response := Some(out), failure := Some(f))
    case MarkCanceled(_, _) => row.Finished(Canceled, now).(publicationPending := false)
    case RetryVerification(_, _, max, delay) =>
      if row.verificationAttempt + 1 >= max then
        row.Finished(Failed, now).(verificationAttempt := row.verificationAttempt + 1,
                                   failure := Some(PublicationVerificationFailed),
                                   publicationPending := false, retryAt := None)
      else
        row.(status := Queued, lease := None, verificationAttempt := row.verificationAttempt + 1,
             failure := None, publicationPending := true, retryAt := Some(now + delay))
    case FailPublicationConflict(_, _) =>
      row.Finished(Failed, now).(failure := Some(ResultPublicationConflict), publicationPending := false)
    case FailExhausted(_) => row.Finished(Failed, now).(failure := Some(WorkerAttemptsExhausted))
    case RecoverCanceled => row.Finished(Canceled, now).(publicationPending := false)
    case Cancel =>
      if row.status.Queued? && !row.publicationPending then
        row.Announced(now).(status := Canceled, cancelRequested := true)
      else
        row.(cancelRequested := true)
    case ClaimNextCallback(token, lease) =>
      row.(callback := Some(row.callback.value.(state := Delivering, lease := Some(CallbackLease(token, now + lease)))))
    case SettleCallback(_, settlement) =>
      var c := row.callback.value.(attempt := row.callback.value.attempt + 1, lease := None);
      row.(callback := Some(match settlement
                            case Accepted => c.(state := Delivered)
                            case Refused => c.(state := ConfigurationFailed)
                            case Postponed(delay) => c.(state := Retry, nextAt := now + delay)))
  }

  function Execute(st: Statement, row: Row, now: Time): Row {
    if Matches(st, row, now) then Written(st, row, now) else row
  }

  // ----- who may be picked, in terms of the columns and the clock -------------------------------

  /** The retry time, or without one the time of creation, is reached. */
  predicate TimeHasCome(row: Row, now: Time) {
    (row.retryAt.Some? ==> row.retryAt.value <= now) && (row.retryAt.None? ==> row.createdAt <= now)
  }

  /** Nobody holds the row: it is queued, or its lease has run out. */
  predicate NobodyHolds(row: Row, now: Time) {
    row.status.Queued? || (row.status.Running? && row.lease.Some? && row.lease.value.expiresAt <= now)
  }

  /** A run that may be handed out: not asked to stop before its cutoff, with an attempt or a result left. */
  predicate MayLease(row: Row, now: Time, maxAttempts: nat) {
    && TimeHasCome(row, now) && NobodyHolds(row, now)
    && (row.cancelRequested ==> row.publicationPending) && (row.response.None? ==> row.attempt < maxAttempts)
  }

  /** An event that may be claimed: of a finished run, waiting for a delivery whose time has come, not being
      delivered. */
  predicate MayClaim(row: Row, now: Time) {
    && row.status.Terminal() && row.callback.Some?
    && var c := row.callback.value;
    && (c.state.Pending? || c.state.Retry? || c.state.Delivering?) && c.nextAt <= now
    && (c.lease.Some? ==> c.lease.value.expiresAt <= now)
  }
}
