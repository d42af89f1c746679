/** RunStore of api/lifecycle_store.go: the table, and one method for each guarded statement. */
module RunStores {
  import opened Wrappers
  import opened Ledger

  /** The rows LeaseNext may pick. */
  ghost predicate Leasable(rows: map<Id, Row>, id: Id, now: Time, maxAttempts: nat) {
    id in rows && Matches(LeaseNext(0, 0, 0, maxAttempts), rows[id], now)
  }

  lemma {:induction false} OldestExists(rows: map<Id, Row>, candidates: set<Id>)
    requires candidates != {} && candidates <= rows.Keys
    ensures exists id :: id in candidates
                      && forall other :: other in candidates ==> rows[id].createdAt <= rows[other].createdAt
    decreases candidates
  {
    var some :| some in candidates;
    var rest := candidates - {some};
    if rest == {} {
      assert candidates == {some};
    } else {
      OldestExists(rows, rest);
      var best :| best in rest && forall other :: other in rest ==> rows[best].createdAt <= rows[other].createdAt;
      var oldest := if rows[some].createdAt < rows[best].createdAt then some else best;
      assert oldest in candidates;
      forall other | other in candidates ensures rows[oldest].createdAt <= rows[other].createdAt {
        if other != some {
          assert other in rest;
        }
      }
    }
  }

  /** The row has an event ClaimNextCallback may claim. */
  predicate Claimable(row: Row, now: Time) {
    Matches(ClaimNextCallback(0, 0), row, now)
  }

  /** ORDER BY callback_next_at, created_at. */
  predicate DueBefore(row: Row, other: Row)
    requires row.callback.Some? && other.callback.Some?
  {
    var next, otherNext := row.callback.value.nextAt, other.callback.value.nextAt;
    next < otherNext || (next == otherNext && row.createdAt <= other.createdAt)
  }

  class RunStore {
    var rows: map<Id, Row>
    var now: Time

    constructor ()
      ensures rows == map[] && now == 0
    {
      rows := map[];
      now := 0;
    }

    /** ON CONFLICT (request_id) DO NOTHING: a repeated request returns the stored run unchanged. */
    method CreateOrGet(runId: Id, requestId: Id, resultId: Id, createdAt: Time, callback: Option<(Id, Id)>)
      returns (stored: Row, created: bool)
      requires runId !in rows
      modifies this`rows
      ensures created <==> forall id :: id in old(rows) ==> old(rows)[id].requestId != requestId
      ensures stored.requestId == requestId
      ensures created ==> stored == NewRow(runId, requestId, resultId, createdAt, callback)
                          && rows == old(rows)[runId := stored]
      ensures !created ==> rows == old(rows) && stored in rows.Values
    {
      if id :| id in rows && rows[id].requestId == requestId {
        return rows[id], false;
      }
      stored := NewRow(runId, requestId, resultId, createdAt, callback);
      rows := rows[runId := stored];
      created := true;
    }

    /** SELECT ... ORDER BY created_at FOR UPDATE SKIP LOCKED LIMIT 1, then the guarded UPDATE of that row. */
    method LeaseNext(worker: Id, token: Id, lease: Time, maxAttempts: nat) returns (leased: Option<Row>)
      modifies this`rows
      ensures leased.None? ==> rows == old(rows) && forall id :: id in rows ==> !Leasable(rows, id, now, maxAttempts)
      ensures leased.None? ==> forall id :: id in rows ==> !MayLease(rows[id], now, maxAttempts)
      ensures leased.Some? ==>
                exists id ::
                  && Leasable(old(rows), id, now, maxAttempts) && MayLease(old(rows)[id], now, maxAttempts)
                  && (forall other :: Leasable(old(rows), other, now, maxAttempts) ==>
                        old(rows)[id].createdAt <= old(rows)[other].createdAt)
                  && leased.value == Execute(Statement.LeaseNext(worker, token, lease, maxAttempts), old(rows)[id], now)
                  && rows == old(rows)[id := leased.value]
    {
      var candidates := set id | id in rows && Matches(Statement.LeaseNext(0, 0, 0, maxAttempts), rows[id], now);
      if candidates == {} {
        forall id | id in rows
          ensures !Leasable(rows, id, now, maxAttempts) && !MayLease(rows[id], now, maxAttempts)
        {
          assert id !in candidates;
        }
        return None;
      }
      OldestExists(rows, candidates);
      var id :| id in candidates && forall other :: other in candidates ==> rows[id].createdAt <= rows[other].createdAt;
      var row := rows[id];
      var next := row.(status := Running, lease := Some(Lease(worker, token, now + lease)),
                       attempt := row.attempt + 1, retryAt := None);
      assert Leasable(rows, id, now, maxAttempts);
      forall other | Leasable(rows, other, now, maxAttempts) ensures row.createdAt <= rows[other].createdAt {
        assert other in candidates;
      }
      rows := rows[id := next];
      leased := Some(next);
    }

    method Heartbeat(id: Id, worker: Id, token: Id, lease: Time) returns (cancel: bool, owned: bool)
      requires id in rows
      modifies this`rows
      ensures owned == Matches(Statement.Heartbeat(worker, token, lease), old(rows)[id], now)
      ensures cancel == (owned && old(rows)[id].cancelRequested)
      ensures rows == old(rows)[id := Execute(Statement.Heartbeat(worker, token, lease), old(rows)[id], now)]
    {
      var row := rows[id];
      owned := row.HeldLive(worker, token, now);
      cancel := owned && row.cancelRequested;
      if owned {
        row := row.(lease := Some(Lease(worker, token, now + lease)));
      }
      rows := rows[id := row];
    }

    method StageOutcome(id: Id, worker: Id, token: Id, outcome: Outcome) returns (written: bool)
      requires id in rows
      modifies this`rows
      ensures written == Matches(Statement.StageOutcome(worker, token, outcome), old(rows)[id], now)
      ensures rows == old(rows)[id := Execute(Statement.StageOutcome(worker, token, outcome), old(rows)[id], now)]
    {
      var row := rows[id];
      written := row.HeldLive(worker, token, now) && !row.cancelRequested && row.response.None?;
      if written {
        row := row.(response := Some(outcome), resultPayload := Some(outcome));
      }
      rows := rows[id := row];
    }

    method MarkPublicationPending(id: Id, worker: Id, token: Id) returns (written: bool)
      requires id in rows
      modifies this`rows
      ensures written == Matches(Statement.MarkPublicationPending(worker, token), old(rows)[id], now)
      ensures rows == old(rows)[id := Execute(Statement.MarkPublicationPending(worker, token), old(rows)[id], now)]
    {
      var row := rows[id];
      written := row.HeldLive(worker, token, now) && !row.cancelRequested && !row.publicationPending;
      if written {
        row := row.(publicationPending := true, retryAt := None);
      }
      rows := rows[id := row];
    }

    method CompletePublished(id: Id, worker: Id, token: Id, outcome: Outcome) returns (written: bool)
      requires id in rows
      modifies this`rows
      ensures written == Matches(Statement.CompletePublished(worker, token, outcome), old(rows)[id], now)
      ensures rows == old(rows)[id := Execute(Statement.CompletePublished(worker, token, outcome), old(rows)[id], now)]
    {
      var row := rows[id];
      written := outcome.Authoritative() && row.HeldLive(worker, token, now);
      if written {
        row := row.Announced(now).(
          status := Completed, response := Some(outcome), resultPayload := Some(outcome), completion := Some(outcome),
          publicationPending := false, retryAt := None, lease := None);
      }
      rows := rows[id := row];
    }

    method Fail(id: Id, worker: Id, token: Id, failure: Failure) returns (written: bool)
      requires id in rows
      modifies this`rows
      ensures written == Matches(Statement.Fail(worker, token, failure), old(rows)[id], now)
      ensures rows == old(rows)[id := Execute(Statement.Fail(worker, token, failure), old(rows)[id], now)]
    {
      var row := rows[id];
      written := row.HeldLive(worker, token, now);
      if written {
        row := row.Announced(now).(status := Failed, failure := Some(failure), lease := None);
      }
      rows := rows[id := row];
    }

    method FailOutcome(id: Id, worker: Id, token: Id, outcome: Outcome, failure: Failure) returns (written: bool)
      requires id in rows
      modifies this`rows
      ensures written == Matches(Statement.FailOutcome(worker, token, outcome, failure), old(rows)[id], now)
      ensures rows == old(rows)[id := Execute(Statement.FailOutcome(worker, token, outcome, failure), old(rows)[id],
                                              now)]
    {
      var row := rows[id];
      written := row.HeldLive(worker, token, now) && !row.cancelRequested;
      if written {
        row := row.Announced(now).(status := Failed, response := Some(outcome), failure := Some(failure),
                                   lease := None);
      }
      rows := rows[id := row];
    }

    method MarkCanceled(id: Id, worker: Id, token: Id) returns (written: bool)
      requires id in rows
      modifies this`rows
      ensures written == Matches(Statement.MarkCanceled(worker, token), old(rows)[id], now)
      ensures rows == old(rows)[id := Execute(Statement.MarkCanceled(worker, token), old(rows)[id], now)]
    {
      var row := rows[id];
      written := row.HeldBy(worker, token) && row.cancelRequested && !row.publicationPending;
      if written {
        row := row.Announced(now).(status := Canceled, publicationPending := false, lease := None);
      }
      rows := rows[id := row];
    }

    method RetryVerification(id: Id, worker: Id, token: Id, maxAttempts: nat, delay: Time) returns (written: bool)
      requires id in rows
      modifies this`rows
      ensures written == Matches(Statement.RetryVerification(worker, token, maxAttempts, delay), old(rows)[id], now)
      ensures rows
           == old(rows)[id := Execute(Statement.RetryVerification(worker, token, maxAttempts, delay), old(rows)[id],
                                      now)]
    {
      var row := rows[id];
      written := row.HeldLive(worker, token, now) && row.publicationPending;
      if written {
        var exhausted := row.verificationAttempt + 1 >= maxAttempts;
        if exhausted {
          row := row.Announced(now);
        }
        row := row.(
          verificationAttempt := row.verificationAttempt + 1,
          status := if exhausted then Failed else Queued,
          failure := if exhausted then Some(PublicationVerificationFailed) else None,
          publicationPending := !exhausted,
          retryAt := if exhausted then None else Some(now + delay),
          lease := None);
      }
      rows := rows[id := row];
    }

    method FailPublicationConflict(id: Id, worker: Id, token: Id) returns (written: bool)
      requires id in rows
      modifies this`rows
      ensures written == Matches(Statement.FailPublicationConflict(worker, token), old(rows)[id], now)
      ensures rows == old(rows)[id := Execute(Statement.FailPublicationConflict(worker, token), old(rows)[id], now)]
    {
      var row := rows[id];
      written := row.HeldLive(worker, token, now);
      if written {
        row := row.Announced(now).(status := Failed, failure := Some(ResultPublicationConflict),
                                   publicationPending := false, lease := None);
      }
      rows := rows[id := row];
    }

    /** One UPDATE over the table: expired, uncancelled runs without a result and without attempts left. */
    method FailExhausted(maxAttempts: nat)
      modifies this`rows
      ensures rows == map id | id in old(rows) :: Execute(Statement.FailExhausted(maxAttempts), old(rows)[id], now)
    {
      rows := map id | id in rows ::
        if rows[id].LeaseExpired(now) && !rows[id].cancelRequested && rows[id].response.None?
           && rows[id].attempt >= maxAttempts
        then rows[id].Announced(now).(status := Failed, failure := Some(WorkerAttemptsExhausted), lease := None)
        else rows[id];
    }

    /** One UPDATE over the table: expired runs whose cancellation came before the cutoff. */
    method RecoverCanceled()
      modifies this`rows
      ensures rows == map id | id in old(rows) :: Execute(Statement.RecoverCanceled, old(rows)[id], now)
    {
      rows := map id | id in rows ::
        if rows[id].LeaseExpired(now) && rows[id].cancelRequested && !rows[id].publicationPending
        then rows[id].Announced(now).(status := Canceled, publicationPending := false, lease := None)
        else rows[id];
    }

    /** Sets cancel_requested on an unfinished run, ends one that is queued before the cutoff, returns the row. */
    method Cancel(id: Id) returns (stored: Option<Row>)
      modifies this`rows
      ensures id !in old(rows) ==> stored.None? && rows == old(rows)
      ensures id in old(rows) ==>
                stored == Some(Execute(Statement.Cancel, old(rows)[id], now)) && rows == old(rows)[id := stored.value]
    {
      if id !in rows {
        return None;
      }
      var row := rows[id];
      if row.status.Queued? || row.status.Running? {
        if row.status.Queued? && !row.publicationPending {
          row := row.Announced(now).(status := Canceled);
        }
        row := row.(cancelRequested := true);
      }
      rows := rows[id := row];
      stored := Some(row);
    }

    /** Claims one due outbox event of a finished run; attempt is the count before this delivery. */
    method ClaimNextCallback(token: Id, lease: Time) returns (claimed: Option<Row>)
      modifies this`rows
      ensures claimed.None? ==> rows == old(rows) && forall id :: id in rows ==> !Claimable(rows[id], now)
      ensures claimed.None? ==> forall id :: id in rows ==> !MayClaim(rows[id], now)
      ensures claimed.Some? ==>
                exists id ::
                  && id in old(rows) && Claimable(old(rows)[id], now) && MayClaim(old(rows)[id], now)
                  && (forall other :: other in old(rows) && Claimable(old(rows)[other], now) ==>
                        DueBefore(old(rows)[id], old(rows)[other]))
                  && claimed.value == Execute(Statement.ClaimNextCallback(token, lease), old(rows)[id], now)
                  && rows == old(rows)[id := claimed.value]
    {
      var earliest := EarliestDue();
      if earliest.None? {
        return None;
      }
      var id := earliest.value;
      var row := rows[id];
      var claim := row.callback.value.(state := Delivering, lease := Some(CallbackLease(token, now + lease)));
      var next := row.(callback := Some(claim));
      rows := rows[id := next];
      claimed := Some(next);
    }

    /** The claimable row that has been due longest, the oldest of several. */
    method EarliestDue() returns (earliest: Option<Id>)
      ensures earliest.None? ==> forall id :: id in rows ==> !Claimable(rows[id], now)
      ensures earliest.Some? ==>
                && earliest.value in rows && Claimable(rows[earliest.value], now)
                && forall other :: other in rows && Claimable(rows[other], now) ==>
                     DueBefore(rows[earliest.value], rows[other])
    {
      var due := set id | id in rows && Claimable(rows[id], now);
      if due == {} {
        forall id | id in rows ensures !Claimable(rows[id], now) {
          assert id !in due;
        }
        return None;
      }
      EarliestExists(rows, due);
      var id :| id in due && forall other :: other in due ==> DueBefore(rows[id], rows[other]);
      assert forall other :: other in rows && Claimable(rows[other], now) ==> other in due;
      return Some(id);
    }

    // The three settlements are guarded by the delivery lease; when it is no longer owned they are errors.

    method CallbackSucceeded(id: Id, token: Id) returns (owned: bool)
      requires id in rows
      modifies this`rows
      ensures owned == Matches(SettleCallback(token, Accepted), old(rows)[id], now)
      ensures rows == old(rows)[id := Execute(SettleCallback(token, Accepted), old(rows)[id], now)]
    {
      var row := rows[id];
      owned := row.callback.Some? && row.callback.value.state.Delivering?
               && row.callback.value.lease.Some? && row.callback.value.lease.value.token == token;
      if owned {
        var c := row.callback.value;
        row := row.(callback := Some(c.(state := Delivered, attempt := c.attempt + 1, lease := None)));
      }
      assert row == Execute(SettleCallback(token, Accepted), rows[id], now);
      rows := rows[id := row];
    }

    method CallbackFailed(id: Id, token: Id, delay: Time) returns (owned: bool)
      requires id in rows
      modifies this`rows
      ensures owned == Matches(SettleCallback(token, Postponed(delay)), old(rows)[id], now)
      ensures rows == old(rows)[id := Execute(SettleCallback(token, Postponed(delay)), old(rows)[id], now)]
    {
      var row := rows[id];
      owned := row.callback.Some? && row.callback.value.state.Delivering?
               && row.callback.value.lease.Some? && row.callback.value.lease.value.token == token;
      if owned {
        var c := row.callback.value;
        row := row.(callback := Some(c.(state := Retry, nextAt := now + delay, attempt := c.attempt + 1,
                                        lease := None)));
      }
      assert row == Execute(SettleCallback(token, Postponed(delay)), rows[id], now);
      rows := rows[id := row];
    }

    method CallbackConfigurationFailed(id: Id, token: Id) returns (owned: bool)
      requires id in rows
      modifies this`rows
      ensures owned == Matches(SettleCallback(token, Refused), old(rows)[id], now)
      ensures rows == old(rows)[id := Execute(SettleCallback(token, Refused), old(rows)[id], now)]
    {
      var row := rows[id];
      owned := row.callback.Some? && row.callback.value.state.Delivering?
               && row.callback.value.lease.Some? && row.callback.value.lease.value.token == token;
      if owned {
        var c := row.callback.value;
        row := row.(callback := Some(c.(state := ConfigurationFailed, attempt := c.attempt + 1, lease := None)));
      }
      assert row == Execute(SettleCallback(token, Refused), rows[id], now);
      rows := rows[id := row];
    }
  }

  lemma {:induction false} EarliestExists(rows: map<Id, Row>, due: set<Id>)
    requires due != {} && forall id :: id in due ==> id in rows && rows[id].callback.Some?
    ensures exists id :: id in due && forall other :: other in due ==> DueBefore(rows[id], rows[other])
    decreases due
  {
    var some :| some in due;
    var rest := due - {some};
    if rest == {} {
      assert due == {some};
    } else {
      EarliestExists(rows, rest);
      var best :| best in rest && forall other :: other in rest ==> DueBefore(rows[best], rows[other]);
      var first := if DueBefore(rows[some], rows[best]) then some else best;
      assert first in due;
      forall other | other in due ensures DueBefore(rows[first], rows[other]) {
        if other != some {
          assert other in rest;
        }
      }
    }
  }
}
