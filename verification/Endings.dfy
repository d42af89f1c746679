/**
 How an activation that is left alone ends a run other than by completing it: a cancellation is honoured wherever it is
 noticed before the cutoff, a failed or malfunctioning check and a missing publisher fail the run with the reason, and a
 lost lease makes it stop.
 */
module Endings {
  import opened Wrappers
  import opened Ledger
  import opened Protocol
  import opened Invariant
  import opened Preservation
  import opened Safety
  import opened Activations

  /** The activation stands at pc and holds the running row, with a lease that has not run out. */
  ghost predicate Holding(s: System, token: Id, pc: Pc, id: Id) {
    && WellFormed(s) && token in s.sessions && id in s.rows
    && s.sessions[token].pc == pc && s.sessions[token].runId == id
    && var row := s.rows[id];
    row.status.Running? && row.lease.Some? && row.lease.value.worker == s.sessions[token].worker
    && row.lease.value.token == token && row.lease.value.expiresAt > s.now
  }

  /** The same, whether or not the lease has run out. */
  ghost predicate Named(s: System, token: Id, pc: Pc, id: Id) {
    && WellFormed(s) && token in s.sessions && id in s.rows
    && s.sessions[token].pc == pc && s.sessions[token].runId == id
    && var row := s.rows[id];
    row.status.Running? && row.lease.Some? && row.lease.value.worker == s.sessions[token].worker
    && row.lease.value.token == token
  }

  // ----- cancellation --------------------------------------------------------------------------

  /** Canceled, with nothing else changed but the lease and the announcement. */
  predicate CanceledFrom(row: Row, row': Row, now: Time) {
    && row'.status.Canceled? && row'.lease.None? && row'.cancelRequested && !row'.publicationPending
    && row'.resultPayload == row.resultPayload && row'.response == row.response && row'.completion == row.completion
    && row'.failure == row.failure && row'.attempt == row.attempt
  }

  lemma {:induction false} CommitsCancellation(cfg: Config, s: System, token: Id, o: Oracle, id: Id)
    requires Named(s, token, ToMarkCanceled, id) && s.rows[id].cancelRequested && !s.rows[id].publicationPending
    ensures var s' := Apply(cfg, s, Work(token, o));
            id in s'.rows && CanceledFrom(s.rows[id], s'.rows[id], s.now) && s'.table == s.table
  {
    WritingStep(cfg, s, token, o, Statement.MarkCanceled(s.sessions[token].worker, token));
    hide Apply;
  }

  /** From every reachable state in which an activation with a cancellation noticed before the cutoff has its outcome
      and still holds its row, its next two steps cancel the run, whatever that outcome is. */
  lemma {:induction false} SeenCancellationCancels(cfg: Config, s: System, token: Id, o1: Oracle, o2: Oracle, id: Id)
    requires cfg.Valid() && Reachable(cfg, s) && Named(s, token, Judging, id)
    requires s.sessions[token].cancelSeen && !s.sessions[token].pending
    ensures var s' := Apply(cfg, Apply(cfg, s, Work(token, o1)), Work(token, o2));
            id in s'.rows && CanceledFrom(s.rows[id], s'.rows[id], s.now) && s'.table == s.table
  {
    ReachableInv(cfg, s);
    InvGivesInvAt(cfg, s, token);
    hide Inv, Reachable;
    ThinkingStep(cfg, s, token, o1);
    var s1 := Apply(cfg, s, Work(token, o1));
    assert Named(s1, token, ToMarkCanceled, id) by {
      hide RowOk, SessionOk;
    }
    hide Apply;
    CommitsCancellation(cfg, s1, token, o2, id);
  }

  /** A heartbeat of a holder extends its lease to a full one from now, notices whether the run has been asked to stop,
      and changes nothing else. */
  lemma {:induction false} HeartbeatNotices(cfg: Config, s: System, token: Id, pc: Pc, id: Id)
    requires Holding(s, token, pc, id) && !pc.Done? && !s.sessions[token].leaseLost
    ensures var s' := Apply(cfg, s, Beat(token, false));
            && Named(s', token, pc, id)
            && s'.sessions[token]
               == s.sessions[token].(cancelSeen := s.sessions[token].cancelSeen || s.rows[id].cancelRequested)
            && s'.rows[id] == s.rows[id].(lease := Some(Lease(s.sessions[token].worker, token, s.now + cfg.lease)))
            && s'.now == s.now && s'.table == s.table
  {
    hide WorkStep, AcquireStep, SubmitStep, StatementOf;
  }

  /** Together: a run asked to stop while its first result is being computed is canceled by its holder, three steps
      after the next heartbeat, whatever the executor reports; nothing is staged or published. */
  lemma {:induction false} CancellationDuringExecution(cfg: Config, s: System, token: Id, o1: Oracle, o2: Oracle,
                                                       o3: Oracle, id: Id)
    requires cfg.Valid() && Reachable(cfg, s) && Holding(s, token, Executing, id)
    requires !s.sessions[token].leaseLost && s.rows[id].cancelRequested
    ensures var s1 := Apply(cfg, Apply(cfg, s, Beat(token, false)), Work(token, o1));
            var s' := Apply(cfg, Apply(cfg, s1, Work(token, o2)), Work(token, o3));
            id in s'.rows && CanceledFrom(s.rows[id], s'.rows[id], s.now) && s'.table == s.table
            && s'.rows[id].resultPayload.None?
  {
    ReachableInv(cfg, s);
    InvGivesInvAt(cfg, s, token);
    assert !s.sessions[token].pending && s.rows[id].resultPayload.None? by {
      hide Inv, Reachable;
    }
    hide Inv, RowOk, SessionOk, InvAt;
    HeartbeatNotices(cfg, s, token, Executing, id);
    var s0 := Apply(cfg, s, Beat(token, false));
    var s1 := Apply(cfg, s0, Work(token, o1));
    ThinkingStep(cfg, s0, token, o1);
    OneMore(cfg, s, Beat(token, false));
    OneMore(cfg, s0, Work(token, o1));
    assert Named(s1, token, Judging, id) by {
      hide Reachable, Apply;
    }
    hide Apply, Reachable;
    SeenCancellationCancels(cfg, s1, token, o2, o3, id);
  }

  lemma {:induction false} OneMore(cfg: Config, s: System, a: Action)
    requires cfg.Valid() && Reachable(cfg, s) && WellFormed(s)
    ensures Reachable(cfg, Apply(cfg, s, a))
  {
    hide Apply;
    ReachableOn(cfg, s, [a]);
    RunNothing(cfg, s);
    RunOne(cfg, s, [], a);
    assert [] + [a] == [a];
  }

  /** A cancellation that no heartbeat noticed is noticed when the staging is refused. */
  lemma {:induction false} CancellationAtStaging(cfg: Config, s: System, token: Id, o1: Oracle, o2: Oracle, o3: Oracle,
                                                 id: Id)
    requires cfg.lease > 0 && Holding(s, token, ToStage, id) && s.sessions[token].outcome.Some?
    requires s.rows[id].cancelRequested && !s.rows[id].publicationPending
    ensures var s' := Apply(cfg, Apply(cfg, Apply(cfg, s, Work(token, o1)), Work(token, o2)), Work(token, o3));
            id in s'.rows && CanceledFrom(s.rows[id], s'.rows[id], s.now) && s'.table == s.table
  {
    var sess := s.sessions[token];
    WritingStep(cfg, s, token, o1, Statement.StageOutcome(sess.worker, token, sess.outcome.value));
    var s1 := Apply(cfg, s, Work(token, o1));
    HeartbeatFinds(cfg, s1, token, o2, StageRefused, id);
    hide Apply;
    CommitsCancellation(cfg, Apply(cfg, s1, Work(token, o2)), token, o3, id);
  }

  /** The heartbeats executeOne sends itself extend the lease, and a requested cancellation comes first. */
  lemma {:induction false} HeartbeatFinds(cfg: Config, s: System, token: Id, o: Oracle, pc: Pc, id: Id)
    requires Holding(s, token, pc, id) && (pc.StageRefused? || pc.Fence?)
    ensures var s' := Apply(cfg, s, Work(token, o));
            && Named(s', token, if s.rows[id].cancelRequested then ToMarkCanceled
                                else if pc.Fence? then ToMarkPending else Done, id)
            && s'.rows[id] == s.rows[id].(lease := Some(Lease(s.sessions[token].worker, token, s.now + cfg.lease)))
            && s'.now == s.now && s'.table == s.table
  {
    WritingStep(cfg, s, token, o, Statement.Heartbeat(s.sessions[token].worker, token, cfg.lease));
    hide Apply;
  }

  /** And at the latest by the heartbeat before the cutoff. */
  lemma {:induction false} CancellationAtFence(cfg: Config, s: System, token: Id, o1: Oracle, o2: Oracle, id: Id)
    requires Holding(s, token, Fence, id) && s.rows[id].cancelRequested && !s.rows[id].publicationPending
    ensures var s' := Apply(cfg, Apply(cfg, s, Work(token, o1)), Work(token, o2));
            id in s'.rows && CanceledFrom(s.rows[id], s'.rows[id], s.now) && s'.table == s.table
  {
    HeartbeatFinds(cfg, s, token, o1, Fence, id);
    hide Apply;
    CommitsCancellation(cfg, Apply(cfg, s, Work(token, o1)), token, o2, id);
  }

  // ----- failure -------------------------------------------------------------------------------

  /** Failed for this reason, with this response and nothing staged or published. */
  predicate FailedFrom(row: Row, row': Row, failure: Failure, response: Option<Outcome>) {
    && row'.status.Failed? && row'.failure == Some(failure) && row'.lease.None? && row'.response == response
    && row'.resultPayload == row.resultPayload && row'.completion == row.completion && row'.attempt == row.attempt
    && row'.cancelRequested == row.cancelRequested
  }

  lemma {:induction false} CommitsFailure(cfg: Config, s: System, token: Id, o: Oracle, id: Id)
    requires Holding(s, token, ToFail, id)
    ensures var s' := Apply(cfg, s, Work(token, o));
            && id in s'.rows && s'.table == s.table
            && FailedFrom(s.rows[id], s'.rows[id], ExecutionFailed, s.rows[id].response)
  {
    WritingStep(cfg, s, token, o, Statement.Fail(s.sessions[token].worker, token, ExecutionFailed));
    hide Apply;
  }

  lemma {:induction false} CommitsOutcome(cfg: Config, s: System, token: Id, o: Oracle, failure: Failure, id: Id)
    requires Holding(s, token, ToFailOutcome(failure), id) && s.sessions[token].outcome.Some?
    requires !s.rows[id].cancelRequested
    ensures var s' := Apply(cfg, s, Work(token, o));
            && id in s'.rows && s'.table == s.table
            && FailedFrom(s.rows[id], s'.rows[id], failure, s.sessions[token].outcome)
  {
    var sess := s.sessions[token];
    WritingStep(cfg, s, token, o, Statement.FailOutcome(sess.worker, token, sess.outcome.value, failure));
    hide Apply;
  }

  lemma {:induction false} ReportArrives(cfg: Config, s: System, token: Id, o1: Oracle, o2: Oracle, id: Id)
    requires Holding(s, token, Executing, id) && !s.sessions[token].cancelSeen && !s.sessions[token].leaseLost
    ensures var s' := Apply(cfg, Apply(cfg, s, Work(token, o1)), Work(token, o2));
            && s'.rows == s.rows && s'.now == s.now && s'.table == s.table
            && token in s'.sessions && Holding(s', token, s'.sessions[token].pc, id)
            && var report := ReportOf(s, s.sessions[token], o1);
            s'.sessions[token] == s.sessions[token].(
              outcome := report,
              pc := if report.None? then ToFail
                    else if report.value.malfunction then ToFailOutcome(CheckMalfunction)
                    else if s.sessions[token].recovered.None? then ToStage else CheckPublisher)
  {
    ThinkingStep(cfg, s, token, o1);
    ThinkingStep(cfg, Apply(cfg, s, Work(token, o1)), token, o2);
    hide Apply;
  }

  /** An executor that returns an error or panics fails the run, without a response. */
  lemma {:induction false} ExecutorErrorFails(cfg: Config, s: System, token: Id, o1: Oracle, o2: Oracle, o3: Oracle,
                                              id: Id)
    requires Holding(s, token, Executing, id) && !s.sessions[token].cancelSeen && !s.sessions[token].leaseLost
    requires o1.report.None?
    ensures var s' := Apply(cfg, Apply(cfg, Apply(cfg, s, Work(token, o1)), Work(token, o2)), Work(token, o3));
            && id in s'.rows && s'.table == s.table
            && FailedFrom(s.rows[id], s'.rows[id], ExecutionFailed, s.rows[id].response)
  {
    ReportArrives(cfg, s, token, o1, o2, id);
    var s2 := Apply(cfg, Apply(cfg, s, Work(token, o1)), Work(token, o2));
    hide Apply, Holding;
    CommitsFailure(cfg, s2, token, o3, id);
  }

  /** A malfunctioning check fails the run and leaves its outcome as the response. */
  lemma {:induction false} MalfunctionFails(cfg: Config, s: System, token: Id, o1: Oracle, o2: Oracle, o3: Oracle,
                                            id: Id)
    requires Holding(s, token, Executing, id) && !s.sessions[token].cancelSeen && !s.sessions[token].leaseLost
    requires o1.report.Some? && o1.report.value.malfunction && !s.rows[id].cancelRequested
    ensures var s' := Apply(cfg, Apply(cfg, Apply(cfg, s, Work(token, o1)), Work(token, o2)), Work(token, o3));
            && id in s'.rows && s'.table == s.table
            && FailedFrom(s.rows[id], s'.rows[id], CheckMalfunction,
                          Some(o1.report.value.(runId := id, resultId := s.rows[id].resultId)))
  {
    ReportArrives(cfg, s, token, o1, o2, id);
    var s2 := Apply(cfg, Apply(cfg, s, Work(token, o1)), Work(token, o2));
    hide Apply, FailedFrom;
    CommitsOutcome(cfg, s2, token, o3, CheckMalfunction, id);
  }

  /** Without a publisher, or for an outcome without a reference, a first publication fails the run; the staged bytes
      stay. */
  lemma {:induction false} NoPublisherFails(cfg: Config, s: System, token: Id, o1: Oracle, o2: Oracle, id: Id)
    requires Holding(s, token, CheckPublisher, id) && s.sessions[token].outcome.Some? && !s.sessions[token].pending
    requires !o1.ok || s.sessions[token].outcome.value.resultRef.None?
    requires !s.rows[id].cancelRequested
    ensures var s' := Apply(cfg, Apply(cfg, s, Work(token, o1)), Work(token, o2));
            && id in s'.rows && s'.table == s.table
            && FailedFrom(s.rows[id], s'.rows[id], ResultStoreUnavailable, s.sessions[token].outcome)
  {
    ThinkingStep(cfg, s, token, o1);
    var s1 := Apply(cfg, s, Work(token, o1));
    hide Apply, FailedFrom;
    CommitsOutcome(cfg, s1, token, o2, ResultStoreUnavailable, id);
  }

  // ----- a lost lease --------------------------------------------------------------------------

  /** An activation that has noticed the loss of its lease, and no cancellation it has to commit, stops. */
  lemma {:induction false} LostLeaseStops(cfg: Config, s: System, token: Id, o: Oracle)
    requires WellFormed(s) && token in s.sessions && s.sessions[token].pc.Judging? && s.sessions[token].leaseLost
    requires !s.sessions[token].cancelSeen || s.sessions[token].pending
    ensures var s' := Apply(cfg, s, Work(token, o));
            s' == s.(sessions := s.sessions[token := s.sessions[token].(pc := Done)])
  {
    ThinkingStep(cfg, s, token, o);
  }

  /** A heartbeat that finds the row no longer held notices it, and touches nothing. */
  lemma {:induction false} HeartbeatMisses(cfg: Config, s: System, token: Id, id: Id)
    requires WellFormed(s) && token in s.sessions && s.sessions[token].runId == id && !s.sessions[token].pc.Done?
    requires !Holding(s, token, s.sessions[token].pc, id)
    ensures var s' := Apply(cfg, s, Beat(token, false));
            s'.rows == s.rows && s'.sessions == s.sessions[token := s.sessions[token].(leaseLost := true)]
  {
    hide WorkStep, AcquireStep, SubmitStep, StatementOf;
  }
}
