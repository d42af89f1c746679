/**
 The inductive invariant of the run lifecycle. Several guards that safety depends on are not in the
 SQL but in executeOne (MarkPublicationPending does not look for a staged result, CompletePublished
 does not look at publication_pending), so the invariant has to tie what each activation remembers,
 however stale, to the row it was leased from.
 */
module Invariant {
  import opened Collections
  import opened Wrappers
  import opened Ledger
  import opened Sink
  import opened Protocol

  /** The row names this token as its current lease. */
  predicate HasToken(row: Row, token: Id) {
    row.status.Running? && row.lease.Some? && row.lease.value.token == token
  }

  /** Result, cutoff and cancellation columns of one row, against what has happened outside. */
  ghost predicate LifecycleOk(row: Row, seen: Effects) {
    && (row.status.Running? <==> row.lease.Some?)
    && (!row.status.Terminal() ==> row.response == row.resultPayload)
    && (!row.status.Terminal() ==> (row.publicationPending <==> seen.cutoff.Some?))
    && (row.status.Terminal() ==> !row.publicationPending)
    && (seen.cutoff.Some? ==> row.resultPayload.Some?)
    && (row.resultPayload.Some? ==>
          && row.resultPayload.value.runId == row.runId
          && row.resultPayload.value.resultId == row.resultId
          && !row.resultPayload.value.malfunction)
    && (row.status.Queued? ==>
          if row.resultPayload.Some? then row.publicationPending
          else row.attempt == 0 && row.retryAt.None? && !row.cancelRequested)
    && (row.status.Completed? ==> seen.cutoff.Some? && row.completion == row.resultPayload && row.failure.None?)
    && (!row.status.Completed? ==> row.completion.None?)
    && (row.status.Canceled? ==> seen.cutoff.None? && row.cancelRequested)
    && (!row.status.Terminal() ==> row.failure.None?)
  }

  /** Attempt counters and how often the executor and the MERGE have been used. */
  ghost predicate CountersOk(cfg: Config, now: Time, row: Row, seen: Effects) {
    && (row.status.Running? ==> row.attempt > 0 && row.retryAt.None?)
    && (row.retryAt.Some? ==> row.attempt > 0)
    && (row.attempt > 0 ==> row.createdAt <= now)
    && row.verificationAttempt <= cfg.maxVerification
    && (!row.status.Terminal() ==> row.verificationAttempt < cfg.maxVerification)
    && (row.verificationAttempt == cfg.maxVerification ==>
          row.status.Failed? && row.failure == Some(PublicationVerificationFailed))
    && |seen.freshLeases| <= cfg.maxAttempts
    && (!row.status.Terminal() && row.resultPayload.None? ==> |seen.freshLeases| == row.attempt)
    && Distinct(seen.executions)
    && (forall t :: t in seen.executions ==> t in seen.freshLeases)
    && (row.resultPayload.Some? ==> seen.executions != [])
    && seen.merges <= 1
    && (seen.cutoff.None? ==> seen.merges == 0)
  }

  /** The callback columns. */
  ghost predicate OutboxOk(row: Row) {
    row.callback.Some? ==>
      && (row.callback.value.state.Waiting? <==> !row.status.Terminal())
      && (row.callback.value.lease.Some? <==> row.callback.value.state.Delivering?)
  }

  /** Every identifier a row refers to has been drawn. */
  ghost predicate TokensOk(issued: set<Id>, row: Row, seen: Effects) {
    && (row.lease.Some? ==> row.lease.value.token in issued)
    && (row.callback.Some? && row.callback.value.lease.Some? ==> row.callback.value.lease.value.token in issued)
    && seen.freshLeases <= issued
  }

  ghost predicate RowOk(cfg: Config, now: Time, issued: set<Id>, row: Row, seen: Effects) {
    && LifecycleOk(row, seen)
    && CountersOk(cfg, now, row, seen)
    && OutboxOk(row)
    && TokensOk(issued, row, seen)
  }

  /** What an activation remembers, tied to its row; true of stale activations too. */
  ghost predicate SessionOk(token: Id, sess: Session, row: Row, seen: Effects) {
    && (sess.recovered.None? && sess.pc.Unstaged() ==>
          !sess.pending && (HasToken(row, token) ==> row.resultPayload.None?))
    && (sess.recovered.None? && sess.pc.Leased? ==> token in seen.freshLeases && token !in seen.executions)
    && (sess.recovered.None? && (sess.pc.Executing? || sess.pc.Judging? || sess.pc.ToStage?) ==>
          token in seen.executions)
    && (sess.recovered.Some? ==>
          && row.resultPayload == sess.recovered
          && !sess.pc.Executing? && !sess.pc.ToFail? && !sess.pc.ToStage? && !sess.pc.StageRefused?
          && sess.pc != ToFailOutcome(CheckMalfunction)
          && (sess.pc.Judging? ==> sess.outcome == sess.recovered))
    && (sess.pc.Judging? || sess.pc.ToStage? ==>
          sess.outcome.Some? ==> sess.outcome.value.runId == row.runId && sess.outcome.value.resultId == row.resultId)
    && (sess.pc.ToStage? ==> sess.outcome.Some? && !sess.outcome.value.malfunction)
    && (sess.pc.ToFailOutcome? ==>
          && !sess.pending && sess.outcome.Some?
          && (sess.pc.failure == CheckMalfunction || sess.pc.failure == ResultStoreUnavailable))
    && (sess.pc.Staged() ==> sess.outcome.Some? && row.resultPayload == sess.outcome)
    && (sess.pc.Published() ==> sess.pending)
    && (sess.pending ==> seen.cutoff.Some?)
    && (HasToken(row, token) && !sess.pending ==> !row.publicationPending)
    && (HasToken(row, token) ==> sess.verificationAttempt == row.verificationAttempt)
    && (sess.cancelSeen ==> row.cancelRequested)
    && (sess.pc.ToPublish? ==> seen.cutoff == Some(token) && seen.merges == 0)
    && !sess.pc.ToFailConflict?
  }

  /** A row of the sink that exactly publishes a ledger row. */
  function Publication(row: Row): SinkRow
    requires row.resultPayload.Some?
  {
    SinkRow(row.runId, row.resultId, row.resultPayload.value)
  }

  ghost predicate IdentitiesOk(rows: map<Id, Row>) {
    && (forall id :: id in rows ==> rows[id].runId == id)
    && (forall i, j :: i in rows && j in rows && i != j ==> rows[i].resultId != rows[j].resultId)
    && (forall i, j :: i in rows && j in rows && i != j ==> rows[i].requestId != rows[j].requestId)
  }

  /** Every issued MERGE carries the staged result of a run past its cutoff. */
  ghost predicate MergesOk(s: System)
    requires WellFormed(s)
  {
    forall m :: m in s.merges ==>
      && m.runId in s.rows
      && s.effects[m.runId].cutoff.Some?
      && s.rows[m.runId].resultPayload.Some?
      && m == Publication(s.rows[m.runId])
  }

  /** The sink holds only what was issued, one row a key, and every completed run's row. */
  ghost predicate TableOk(s: System) {
    && (forall i :: 0 <= i < |s.table| ==> s.table[i] in s.merges)
    && (forall key :: |Stored(s.table, key)| <= 1)
    && (forall id :: id in s.rows && s.rows[id].status.Completed? ==>
          s.rows[id].resultPayload.Some? && Stored(s.table, s.rows[id].resultId) == [Publication(s.rows[id])])
    && (forall t :: t in s.sessions && s.sessions[t].pc.ToComplete? && s.sessions[t].outcome.Some? ==>
          Stored(s.table, s.sessions[t].outcome.value.resultId) == [Protocol.Published(s.sessions[t])])
  }

  ghost predicate RowsOk(cfg: Config, s: System)
    requires WellFormed(s)
  {
    forall id :: id in s.rows ==> RowOk(cfg, s.now, s.issued, s.rows[id], s.effects[id])
  }

  ghost predicate SessionsOk(s: System)
    requires WellFormed(s)
  {
    forall t :: t in s.sessions ==>
      && t in s.issued
      && SessionOk(t, s.sessions[t], s.rows[s.sessions[t].runId], s.effects[s.sessions[t].runId])
  }

  ghost predicate Inv(cfg: Config, s: System) {
    && WellFormed(s)
    && IdentitiesOk(s.rows)
    && RowsOk(cfg, s)
    && SessionsOk(s)
    && MergesOk(s)
    && TableOk(s)
  }
}
