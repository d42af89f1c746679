/**
 Why a row changes: each way a run is staged, passes its cutoff or ends has its exact occasion, in terms of the columns
 before the step, the clock and who takes the step.
 */
module Reasons {
  import opened Wrappers
  import opened Ledger
  import Sink
  import opened Protocol
  import opened Invariant
  import opened Preservation
  import opened Safety

  /** The step is the next one of the activation that holds the row, with a lease that has not run out. */
  predicate ByHolder(s: System, a: Action, id: Id)
    requires id in s.rows
  {
    && ByNamed(s, a, id) && s.rows[id].lease.value.expiresAt > s.now
  }

  /** The same, whether or not its lease has run out. */
  predicate ByNamed(s: System, a: Action, id: Id)
    requires id in s.rows
  {
    var row := s.rows[id];
    && a.Work? && a.token in s.sessions && s.sessions[a.token].runId == id
    && row.status.Running? && row.lease.Some? && row.lease.value.token == a.token
    && row.lease.value.worker == s.sessions[a.token].worker
  }

  predicate HasExpired(row: Row, now: Time) {
    row.status.Running? && row.lease.Some? && row.lease.value.expiresAt <= now
  }

  // ----- cancellation and recovery, exactly ----------------------------------------------------

  /** The event of a run that ends now, if it has one. */
  function Announce(callback: Option<Callback>, now: Time): Option<Callback> {
    match callback
    case None => None
    case Some(c) => Some(c.(state := Pending, nextAt := now))
  }

  /** A cancellation ends a queued run before the cutoff at once, flags any other open run, and leaves a finished one.
      */
  lemma {:induction false} CancelsExactly(cfg: Config, s: System, id: Id)
    requires WellFormed(s) && id in s.rows
    ensures var row, row' := s.rows[id], Apply(cfg, s, RequestCancel(id)).rows[id];
            row' == if row.status.Queued? && !row.publicationPending then
                      row.(status := Canceled, cancelRequested := true, callback := Announce(row.callback, s.now))
                    else if row.status.Queued? || row.status.Running? then row.(cancelRequested := true)
                    else row
  {
  }

  /** Recovery cancels exactly the runs asked to stop before their cutoff whose lease has run out. */
  lemma {:induction false} RecoversExactly(cfg: Config, s: System, id: Id)
    requires WellFormed(s) && id in s.rows
    ensures var row, row' := s.rows[id], Apply(cfg, s, Recover).rows[id];
            row' == if HasExpired(row, s.now) && row.cancelRequested && !row.publicationPending then
                      row.(status := Canceled, lease := None, callback := Announce(row.callback, s.now))
                    else row
  {
  }

  /** And fails exactly the ones whose lease has run out with no attempt and no result left, unless asked to stop. */
  lemma {:induction false} ExhaustsExactly(cfg: Config, s: System, id: Id)
    requires WellFormed(s) && id in s.rows
    ensures var row, row' := s.rows[id], Apply(cfg, s, Exhaust).rows[id];
            row' == if HasExpired(row, s.now) && !row.cancelRequested && row.response.None?
                       && cfg.maxAttempts <= row.attempt then
                      row.(status := Failed, lease := None, failure := Some(WorkerAttemptsExhausted),
                           callback := Announce(row.callback, s.now))
                    else row
  {
  }

  /** So a run that is asked to stop before its cutoff never completes and never reaches the sink. */
  lemma {:induction false} CancelWins(cfg: Config, s: System, trace: seq<Action>, id: Id)
    requires cfg.Valid() && Reachable(cfg, s) && WellFormed(s) && id in s.rows
    requires (s.rows[id].status.Queued? || s.rows[id].status.Running?) && !s.rows[id].publicationPending
    ensures var s' := Run(cfg, Apply(cfg, s, RequestCancel(id)), trace);
            && id in s'.rows && !s'.rows[id].status.Completed? && s'.effects[id].merges == 0
            && forall k :: 0 <= k < |s'.table| ==> s'.table[k].resultId != s.rows[id].resultId
  {
    hide Inv, RowOk, Reachable;
    var a := RequestCancel(id);
    var s1 := Apply(cfg, s, a);
    CancelsExactly(cfg, s, id);
    assert s1.effects == s.effects;
    hide Apply;
    ReachableInv(cfg, s);
    InvGivesRow(cfg, s, id);
    UncutWhileOpen(cfg, s, id);
    StepKeepsInv(cfg, s, a);
    CanceledBeforeCutoffStays(cfg, s1, trace, id);
    RunKeepsInv(cfg, s1, trace);
    var s' := Run(cfg, s1, trace);
    CutoffBeforeSink(cfg, s', id);
    IdentityStays(cfg, s1, trace, id);
    InvGivesRow(cfg, s', id);
    NotCompletedWithoutCutoff(cfg, s', id);
    Sink.StoredNonempty(s'.table, s.rows[id].resultId);
  }

  lemma {:induction false} UncutWhileOpen(cfg: Config, s: System, id: Id)
    requires WellFormed(s) && id in s.rows && RowOk(cfg, s.now, s.issued, s.rows[id], s.effects[id])
    requires !s.rows[id].status.Terminal() && !s.rows[id].publicationPending
    ensures s.effects[id].cutoff.None?
  {
  }

  lemma {:induction false} NotCompletedWithoutCutoff(cfg: Config, s: System, id: Id)
    requires WellFormed(s) && id in s.rows && RowOk(cfg, s.now, s.issued, s.rows[id], s.effects[id])
    requires s.effects[id].cutoff.None?
    ensures !s.rows[id].status.Completed? && s.effects[id].merges == 0
  {
  }

  // ----- staging and cutoff --------------------------------------------------------------------

  /** A result is staged only by the holder of a live lease, of a run not asked to stop and with no result yet, and it
      is the sound outcome of that very activation. */
  lemma {:induction false} StagedForAReason(cfg: Config, s: System, a: Action, id: Id)
    requires cfg.Valid() && Reachable(cfg, s) && WellFormed(s) && id in s.rows && s.rows[id].resultPayload.None?
    requires Apply(cfg, s, a).rows[id].resultPayload.Some?
    ensures ByHolder(s, a, id) && !s.rows[id].cancelRequested && s.rows[id].response.None?
    ensures var sess := s.sessions[a.token];
            && sess.recovered.None? && sess.outcome == Apply(cfg, s, a).rows[id].resultPayload
            && !sess.outcome.value.malfunction
  {
    hide Inv, RowOk, StatementOn, Apply, Reachable, Matches, Execute;
    RowsChangeByStatements(cfg, s, a, id);
    var st := StatementOn(cfg, s, a, id).value;
    StagesOrCompletes(st, s.rows[id], s.now);
    Sender(cfg, s, a, id);
  }

  lemma {:induction false} StagesOrCompletes(st: Statement, row: Row, now: Time)
    requires row.resultPayload.None? && Execute(st, row, now).resultPayload.Some?
    ensures st.Fenced() && row.HeldLive(st.worker, st.token, now)
    ensures st.StageOutcome? || st.CompletePublished?
    ensures st.StageOutcome? ==> !row.cancelRequested && row.response.None?
    ensures Execute(st, row, now).resultPayload == Some(st.outcome)
  {
  }

  /** Who sends a fenced statement to the row it holds, and what the invariant says of it. */
  lemma {:induction false} Sender(cfg: Config, s: System, a: Action, id: Id)
    requires cfg.Valid() && Reachable(cfg, s) && WellFormed(s) && id in s.rows
    requires StatementOn(cfg, s, a, id).Some? && StatementOn(cfg, s, a, id).value.Fenced()
    requires var st := StatementOn(cfg, s, a, id).value; s.rows[id].HeldBy(st.worker, st.token)
    ensures var st := StatementOn(cfg, s, a, id).value;
            && a.token in s.sessions && s.sessions[a.token].runId == id
            && (!st.Heartbeat? ==> ByNamed(s, a, id))
            && (!st.Heartbeat? && s.rows[id].lease.value.expiresAt > s.now ==> ByHolder(s, a, id))
            && SendsAs(cfg, st, s.sessions[a.token]) && HolderIs(s.sessions[a.token], s.rows[id])
  {
    hide StatementOn, Reachable, Inv, InvAt;
    SendsFor(cfg, s, a, id);
    ReachableInv(cfg, s);
    InvGivesInvAt(cfg, s, a.token);
    HolderFacts(cfg, s, a.token);
  }

  /** What the statement of an activation says about it. */
  lemma {:induction false} SendsFor(cfg: Config, s: System, a: Action, id: Id)
    requires WellFormed(s) && id in s.rows && StatementOn(cfg, s, a, id).Some?
    requires StatementOn(cfg, s, a, id).value.Fenced()
    ensures var st := StatementOn(cfg, s, a, id).value;
            && (a.Work? || a.Beat?) && a.token in s.sessions && s.sessions[a.token].runId == id
            && st.token == a.token && st.worker == s.sessions[a.token].worker
            && (!st.Heartbeat? ==> a.Work?) && SendsAs(cfg, st, s.sessions[a.token])
  {
  }

  /** Where an activation stands that sends the statement, and what it sends. */
  predicate SendsAs(cfg: Config, st: Statement, sess: Session) {
    && (st.StageOutcome? ==> sess.pc.ToStage? && sess.outcome == Some(st.outcome))
    && (st.CompletePublished? ==> sess.pc.ToComplete? && sess.outcome == Some(st.outcome))
    && (st.MarkPublicationPending? ==> sess.pc.ToMarkPending?)
    && (st.FailOutcome? ==> sess.pc == ToFailOutcome(st.failure))
    && (st.Fail? ==> sess.pc.ToFail? && st.failure.ExecutionFailed?)
    && (st.RetryVerification? ==> st.maxVerification == cfg.maxVerification)
    && (st.FailPublicationConflict? ==> sess.pc.ToFailConflict?)
  }

  /** What the invariant says of an activation and the row it holds. */
  predicate HolderIs(sess: Session, row: Row) {
    && !sess.pc.ToFailConflict?
    && (sess.pc.ToStage? ==> sess.recovered.None? && sess.outcome.Some? && !sess.outcome.value.malfunction)
    && (sess.pc.ToMarkPending? ==> row.resultPayload.Some?)
    && (sess.pc.ToComplete? ==> row.publicationPending && row.resultPayload.Some? && sess.outcome == row.resultPayload)
    && (sess.pc.ToFail? ==> row.resultPayload.None?)
    && (sess.pc.ToFailOutcome? ==>
          && !row.publicationPending && (sess.pc.failure.CheckMalfunction? || sess.pc.failure.ResultStoreUnavailable?)
          && (sess.pc.failure.CheckMalfunction? <==> row.resultPayload.None?))
  }

  lemma {:induction false} HolderFacts(cfg: Config, s: System, token: Id)
    requires InvAt(cfg, s, token) && HasToken(s.rows[s.sessions[token].runId], token)
    ensures HolderIs(s.sessions[token], s.rows[s.sessions[token].runId])
  {
    hide CountersOk, TokensOk, OutboxOk;
  }

  /** The cutoff is passed only by the holder of a live lease, of a run not asked to stop, with its result staged. */
  lemma {:induction false} CutoffForAReason(cfg: Config, s: System, a: Action, id: Id)
    requires cfg.Valid() && Reachable(cfg, s) && WellFormed(s) && id in s.rows && !s.rows[id].publicationPending
    requires Apply(cfg, s, a).rows[id].publicationPending
    ensures ByHolder(s, a, id) && !s.rows[id].cancelRequested && s.rows[id].resultPayload.Some?
  {
    hide Inv, RowOk, StatementOn, Apply, Reachable, Matches, Execute;
    RowsChangeByStatements(cfg, s, a, id);
    var st := StatementOn(cfg, s, a, id).value;
    OnlyMarks(st, s.rows[id], s.now);
    Sender(cfg, s, a, id);
  }

  lemma {:induction false} OnlyMarks(st: Statement, row: Row, now: Time)
    requires !row.publicationPending && Execute(st, row, now).publicationPending
    ensures st.MarkPublicationPending? && row.HeldLive(st.worker, st.token, now) && !row.cancelRequested
  {
  }

  // ----- endings -------------------------------------------------------------------------------

  /** The occasion of an ending. */
  predicate HasReason(cfg: Config, s: System, a: Action, id: Id, row': Row)
    requires id in s.rows
  {
    var row := s.rows[id];
    match row'.status
    case Completed =>
      && ByHolder(s, a, id) && row.publicationPending && row.resultPayload.Some?
      && row'.resultPayload == row'.response == row'.completion == row.resultPayload
      && row.resultPayload.value.resultRef == Some(ResultRef(true, row.resultId))
    case Canceled =>
      && !row.publicationPending
      && (|| (a == RequestCancel(id) && row.status.Queued?)
          || (row.cancelRequested && ((a.Recover? && HasExpired(row, s.now)) || ByNamed(s, a, id))))
    case Failed =>
      && row'.failure.Some?
      && (match row'.failure.value
          case WorkerAttemptsExhausted =>
            && a.Exhaust? && HasExpired(row, s.now) && !row.cancelRequested && row.resultPayload.None?
            && cfg.maxAttempts <= row.attempt
          case ExecutionFailed => ByHolder(s, a, id) && row.resultPayload.None?
          case CheckMalfunction => ByHolder(s, a, id) && !row.cancelRequested && row.resultPayload.None?
          case ResultStoreUnavailable =>
            ByHolder(s, a, id) && !row.cancelRequested && row.resultPayload.Some? && !row.publicationPending
          case PublicationVerificationFailed =>
            ByHolder(s, a, id) && row.publicationPending && row.verificationAttempt + 1 == cfg.maxVerification
          case ResultPublicationConflict => false)
    case _ => true
  }

  lemma {:induction false} EndsByStatement(st: Statement, row: Row, now: Time)
    requires !row.status.Terminal() && Execute(st, row, now).status.Terminal()
    ensures Matches(st, row, now)
    ensures st.CompletePublished? || st.Fail? || st.FailOutcome? || st.MarkCanceled? || st.RetryVerification?
            || st.FailPublicationConflict? || st.FailExhausted? || st.RecoverCanceled? || st.Cancel?
    ensures st.MarkCanceled? ==> row.HeldBy(st.worker, st.token) && row.cancelRequested && !row.publicationPending
    ensures st.Fenced() && !st.MarkCanceled? ==> row.HeldLive(st.worker, st.token, now)
    ensures st.FailOutcome? ==> !row.cancelRequested
    ensures st.RetryVerification? ==> row.publicationPending && row.verificationAttempt + 1 >= st.maxVerification
    ensures st.FailExhausted? ==>
              HasExpired(row, now) && !row.cancelRequested && row.response.None? && st.maxAttempts <= row.attempt
    ensures st.RecoverCanceled? ==> HasExpired(row, now) && row.cancelRequested && !row.publicationPending
    ensures st.Cancel? ==> row.status.Queued? && !row.publicationPending
    ensures var row' := Execute(st, row, now);
            match row'.status
            case Completed =>
              && st.CompletePublished? && row'.resultPayload == row'.response == row'.completion == Some(st.outcome)
              && st.outcome.resultRef == Some(ResultRef(true, st.outcome.resultId))
            case Canceled => st.MarkCanceled? || st.RecoverCanceled? || st.Cancel?
            case _ =>
              && row'.failure.Some?
              && (row'.failure.value == if st.Fail? || st.FailOutcome? then st.failure
                                        else if st.FailExhausted? then WorkerAttemptsExhausted
                                        else if st.RetryVerification? then PublicationVerificationFailed
                                        else ResultPublicationConflict)
              && (st.Fail? || st.FailOutcome? || st.FailExhausted? || st.RetryVerification?
                  || st.FailPublicationConflict?)
  {
  }

  /** Every ending has its occasion; a conflict is none, as nobody else writes the result table. */
  lemma {:induction false} EndsForAReason(cfg: Config, s: System, a: Action, id: Id)
    requires cfg.Valid() && Reachable(cfg, s) && WellFormed(s) && id in s.rows
    requires !s.rows[id].status.Terminal() && Apply(cfg, s, a).rows[id].status.Terminal()
    ensures HasReason(cfg, s, a, id, Apply(cfg, s, a).rows[id])
  {
    hide Inv, RowOk, StatementOn, Apply, Reachable, Matches, Execute;
    RowsChangeByStatements(cfg, s, a, id);
    var st := StatementOn(cfg, s, a, id).value;
    EndsByStatement(st, s.rows[id], s.now);
    ExhaustLimit(cfg, s, a, id);
    WhoSends(cfg, s, a, id);
    ReachableInv(cfg, s);
    InvGivesRow(cfg, s, id);
    RowFacts(cfg, s, id);
    if st.Fenced() {
      Sender(cfg, s, a, id);
    }
  }

  lemma {:induction false} ExhaustLimit(cfg: Config, s: System, a: Action, id: Id)
    requires WellFormed(s) && id in s.rows && StatementOn(cfg, s, a, id).Some?
    ensures StatementOn(cfg, s, a, id).value.FailExhausted? ==>
              StatementOn(cfg, s, a, id).value.maxAttempts == cfg.maxAttempts
  {
  }

  lemma {:induction false} RowFacts(cfg: Config, s: System, id: Id)
    requires WellFormed(s) && id in s.rows && RowOk(cfg, s.now, s.issued, s.rows[id], s.effects[id])
    requires !s.rows[id].status.Terminal()
    ensures s.rows[id].response == s.rows[id].resultPayload && s.rows[id].verificationAttempt < cfg.maxVerification
    ensures s.rows[id].resultPayload.Some? ==> s.rows[id].resultPayload.value.resultId == s.rows[id].resultId
  {
  }

  /** A new request inserts a queued run that has not been tried, is not pending and waits for its first lease since its
      creation, with its event waiting, unless one of its identifiers is taken; nothing else changes. */
  lemma {:induction false} SubmitsExactly(cfg: Config, s: System, a: Action, id: Id)
    requires WellFormed(s) && a.Submit?
    ensures var s' := Apply(cfg, s, a);
            var taken := exists k :: k in s.rows && (k == a.runId || s.rows[k].requestId == a.requestId
                                                     || s.rows[k].resultId == a.resultId);
            && (taken ==> s' == s)
            && (!taken ==> s'.rows.Keys == s.rows.Keys + {a.runId} && (id in s.rows ==> s'.rows[id] == s.rows[id]))
            && (!taken ==>
                  var row := s'.rows[a.runId];
                  && row.runId == a.runId && row.requestId == a.requestId && row.resultId == a.resultId
                  && row.createdAt == a.createdAt && row.status.Queued? && row.lease.None? && row.attempt == 0
                  && !row.cancelRequested && !row.publicationPending && row.verificationAttempt == 0
                  && row.retryAt.None? && row.response.None? && row.resultPayload.None? && row.completion.None?
                  && row.failure.None? && (row.callback.Some? <==> a.callback.Some?)
                  && (row.callback.Some? ==>
                        row.callback.value == Callback(a.callback.value.0, a.callback.value.1, Waiting, 0, a.createdAt,
                                                       None)))
  {
    hide WorkStep, BeatStep, AcquireStep, Execute;
  }

  /** A MERGE is put on its way only by the step of an activation past the cutoff, with the result it holds, which
      carries its reference in the result store. */
  lemma {:induction false} MergesForAReason(cfg: Config, s: System, a: Action, source: Sink.SinkRow)
    requires WellFormed(s) && source in Apply(cfg, s, a).merges && source !in s.merges
    ensures a.Work? && a.token in s.sessions && s.sessions[a.token].pc.ToPublish?
    ensures s.sessions[a.token].outcome == Some(source.payload)
    ensures source.runId == source.payload.runId && source.resultId == source.payload.resultId
    ensures source.payload.resultRef == Some(ResultRef(true, source.resultId))
  {
    hide Execute, StatementOf, BeatStep, AcquireStep, SubmitStep;
    match a
    case Work(token, oracle) =>
    case Beat(token, fault) => IssuesNothing(cfg, s, a);
    case Acquire(id, worker, token) => IssuesNothing(cfg, s, a);
    case Submit(_, _, _, _, _) => IssuesNothing(cfg, s, a);
    case _ =>
  }

  lemma {:induction false} IssuesNothing(cfg: Config, s: System, a: Action)
    requires WellFormed(s) && (a.Beat? || a.Acquire? || a.Submit?)
    ensures Apply(cfg, s, a).merges == s.merges
  {
    hide Execute, WorkStep;
  }
}
