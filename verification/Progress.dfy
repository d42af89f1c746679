/**
 An undisturbed activation gets its run published: from any reachable state in which it is about to execute, or has
 recovered a staged result, with a live lease and no cancellation before the cutoff, a fixed number of steps leads to
 completed; one that has recovered a result past its cutoff verifies it and nothing else. So the guarantees of Safety
 are not met by never completing anything.
 */
module Progress {
  import opened Wrappers
  import opened Ledger
  import opened Sink
  import opened Backoff
  import opened Protocol
  import opened Invariant
  import opened Preservation
  import opened Safety
  import opened LateExecution
  import Activations

  /** The activation holds the row, has staged this result, and stands at pc. */
  ghost predicate Standing(s: System, token: Id, pc: Pc, pending: bool, out: Outcome) {
    && WellFormed(s) && token in s.sessions
    && var sess := s.sessions[token];
    && sess.runId == out.runId && sess.pc == pc && sess.pending == pending && sess.outcome == Some(out)
    && var row := s.rows[sess.runId];
    && row.HeldLive(sess.worker, token, s.now) && (pending || !row.cancelRequested) && row.publicationPending == pending
    && row.resultPayload == Some(out) && row.resultId == out.resultId && out.Authoritative()
  }

  /** How often the executor has been entered and a MERGE issued for the run. */
  predicate Spent(s: System, id: Id, executions: seq<Id>, merges: nat) {
    id in s.effects && s.effects[id].executions == executions && s.effects[id].merges == merges
  }

  /** Nothing has been executed or merged in between. */
  predicate SameEffort(s: System, s': System, id: Id) {
    id in s.effects && Spent(s', id, s.effects[id].executions, s.effects[id].merges)
  }

  /** A step that leaves ledger and sink alone. */
  predicate OnlyThinks(s: System, s': System, token: Id, out: Outcome) {
    && s'.rows == s.rows && s'.now == s.now && s'.table == s.table && SameEffort(s, s', out.runId)
    && token in s.sessions && token in s'.sessions
    && s'.sessions[token].verificationAttempt == s.sessions[token].verificationAttempt
    && s'.sessions[token].runId == s.sessions[token].runId
  }

  /** Every answer is the favourable one. */
  function Favourable(out: Outcome): Oracle {
    Oracle(Some(out), true, true)
  }

  function Go(token: Id, out: Outcome): Action {
    Work(token, Favourable(out))
  }

  function SourceRow(out: Outcome): SinkRow {
    SinkRow(out.runId, out.resultId, out)
  }

  /** What the twelve steps are. */
  function Undisturbed12(token: Id, out: Outcome): seq<Action> {
    var go := Go(token, out);
    [go, go, go, go] + [go, go, go, go] + [Land(SourceRow(out)), go, go, go]
  }

  lemma {:induction false} StagedStanding(cfg: Config, s: System, token: Id, out: Outcome)
    requires WellFormed(s) && AboutToExecute(s, token) && OnItsWay(s, token) && !out.malfunction && out.Authoritative()
    requires var sess := s.sessions[token];
             var row := s.rows[sess.runId];
             && row.HeldLive(sess.worker, token, s.now) && !row.cancelRequested && row.response.None?
             && !row.publicationPending && !sess.pending
             && out.runId == sess.runId && out.resultId == row.resultId
    ensures var s' := Run(cfg, s, [Go(token, out), Go(token, out), Go(token, out), Go(token, out)]);
            && Standing(s', token, CheckPublisher, false, out) && s'.table == s.table
            && Spent(s', out.runId, s.effects[out.runId].executions + [token], s.effects[out.runId].merges)
  {
    var oracle := Favourable(out);
    var go := Go(token, out);
    var s1 := Apply(cfg, s, go);
    FreshStep(cfg, s, token, oracle);
    var s2 := Apply(cfg, s1, go);
    FreshStep(cfg, s1, token, oracle);
    Reported(cfg, s, token, out);
    Reported(cfg, s1, token, out);
    var s3 := Apply(cfg, s2, go);
    FreshStep(cfg, s2, token, oracle);
    Reported(cfg, s2, token, out);
    Activations.WritingStep(cfg, s3, token, oracle, Statement.StageOutcome(s3.sessions[token].worker, token, out));
    hide Apply, Run;
    RunFour(cfg, s, go);
  }

  /** What the executor reports is what is then staged. */
  lemma {:induction false} Reported(cfg: Config, s: System, token: Id, out: Outcome)
    requires WellFormed(s) && OnItsWay(s, token) && !s.sessions[token].pc.ToStage? && !s.sessions[token].pending
    requires out.runId == s.sessions[token].runId && out.resultId == s.rows[s.sessions[token].runId].resultId
    ensures var s' := Apply(cfg, s, Go(token, out));
            && s'.table == s.table && token in s'.sessions && !s'.sessions[token].pending
            && (s.sessions[token].pc.Executing? ==> s'.sessions[token].outcome == Some(out))
            && (s.sessions[token].pc.Judging? ==> s'.sessions[token].outcome == s.sessions[token].outcome)
            && Spent(s', out.runId,
                     s.effects[out.runId].executions + (if s.sessions[token].pc.Leased? then [token] else []),
                     s.effects[out.runId].merges)
  {
  }

  lemma {:induction false} ToTheFence(cfg: Config, s: System, token: Id, out: Outcome)
    requires Standing(s, token, CheckPublisher, false, out)
    ensures var s' := Apply(cfg, s, Go(token, out));
            && Standing(s', token, Fence, false, out) && s'.table == s.table
            && SameEffort(s, s', out.runId)
  {
    Activations.ThinkingStep(cfg, s, token, Favourable(out));
    hide Apply;
  }

  lemma {:induction false} OverTheFence(cfg: Config, s: System, token: Id, out: Outcome)
    requires Standing(s, token, Fence, false, out) && cfg.lease > 0
    ensures var s' := Apply(cfg, s, Go(token, out));
            && Standing(s', token, ToMarkPending, false, out) && s'.table == s.table
            && SameEffort(s, s', out.runId)
  {
    Activations.WritingStep(cfg, s, token, Favourable(out),
                            Statement.Heartbeat(s.sessions[token].worker, token, cfg.lease));
    hide Apply;
  }

  lemma {:induction false} OverTheCutoff(cfg: Config, s: System, token: Id, out: Outcome)
    requires Standing(s, token, ToMarkPending, false, out)
    ensures var s' := Apply(cfg, s, Go(token, out));
            && Standing(s', token, ToPublish, true, out) && s'.table == s.table
            && SameEffort(s, s', out.runId)
  {
    Activations.WritingStep(cfg, s, token, Favourable(out),
                            Statement.MarkPublicationPending(s.sessions[token].worker, token));
    hide Apply;
  }

  lemma {:induction false} MergeIssued(cfg: Config, s: System, token: Id, out: Outcome)
    requires Standing(s, token, ToPublish, true, out)
    ensures var s' := Apply(cfg, s, Go(token, out));
            Standing(s', token, AwaitingMerge, true, out) && s'.table == s.table && SourceRow(out) in s'.merges
            && Spent(s', out.runId, s.effects[out.runId].executions, s.effects[out.runId].merges + 1)
  {
    Activations.ThinkingStep(cfg, s, token, Favourable(out));
    hide Apply;
  }

  lemma {:induction false} MergeLands(cfg: Config, s: System, token: Id, out: Outcome)
    requires Standing(s, token, AwaitingMerge, true, out) && SourceRow(out) in s.merges
             && Stored(s.table, out.resultId) == []
    ensures var s' := Apply(cfg, s, Land(SourceRow(out)));
            Standing(s', token, AwaitingMerge, true, out) && Stored(s'.table, out.resultId) == [SourceRow(out)]
            && SameEffort(s, s', out.runId)
  {
    hide WorkStep, BeatStep, AcquireStep, SubmitStep, Execute, Stored;
    MergeInsertsOnce(s.table, SourceRow(out), out.resultId);
  }

  lemma {:induction false} MergeAnswered(cfg: Config, s: System, token: Id, out: Outcome)
    requires Standing(s, token, AwaitingMerge, true, out) && Stored(s.table, out.resultId) == [SourceRow(out)]
    ensures var s' := Apply(cfg, s, Go(token, out));
            && Standing(s', token, ReadingBack, true, out) && s'.table == s.table
            && SameEffort(s, s', out.runId)
  {
    Activations.ThinkingStep(cfg, s, token, Favourable(out));
    hide Apply, Stored;
  }

  lemma {:induction false} ReadBackExactly(cfg: Config, s: System, token: Id, out: Outcome)
    requires Standing(s, token, ReadingBack, true, out) && Stored(s.table, out.resultId) == [SourceRow(out)]
    ensures var s' := Apply(cfg, s, Go(token, out));
            && Standing(s', token, ToComplete, true, out) && s'.table == s.table
            && SameEffort(s, s', out.runId)
  {
    Activations.ThinkingStep(cfg, s, token, Favourable(out));
    hide Apply, Stored;
  }

  lemma {:induction false} Committed(cfg: Config, s: System, token: Id, out: Outcome)
    requires Standing(s, token, ToComplete, true, out)
    ensures var s' := Apply(cfg, s, Go(token, out));
            && out.runId in s'.rows && s'.rows[out.runId].status.Completed?
            && s'.rows[out.runId].resultPayload == Some(out)
            && s'.table == s.table && SameEffort(s, s', out.runId)
  {
    Activations.WritingStep(cfg, s, token, Favourable(out),
                            Statement.CompletePublished(s.sessions[token].worker, token, out));
    hide Apply;
  }

  /** From the staged result to completed. */
  lemma {:induction false} StagedCompletes(cfg: Config, s: System, token: Id, out: Outcome)
    requires Standing(s, token, CheckPublisher, false, out) && cfg.lease > 0 && Stored(s.table, out.resultId) == []
    ensures var go := Go(token, out);
            var s' := Run(cfg, Run(cfg, s, [go, go, go, go]), [Land(SourceRow(out)), go, go, go]);
            && out.runId in s'.rows && s'.rows[out.runId].status.Completed?
            && s'.rows[out.runId].resultPayload == Some(out)
            && Stored(s'.table, out.resultId) == [SourceRow(out)]
            && Spent(s', out.runId, s.effects[out.runId].executions, s.effects[out.runId].merges + 1)
  {
    hide Apply, Standing, Stored;
    var go := Go(token, out);
    StandingIsWellFormed(s, token, CheckPublisher, false, out);
    var s1 := Apply(cfg, s, go);
    ToTheFence(cfg, s, token, out);
    var s2 := Apply(cfg, s1, go);
    OverTheFence(cfg, s1, token, out);
    var s3 := Apply(cfg, s2, go);
    OverTheCutoff(cfg, s2, token, out);
    var s4 := Apply(cfg, s3, go);
    MergeIssued(cfg, s3, token, out);
    RunFour(cfg, s, go);
    LandedCompletes(cfg, s4, token, out);
  }

  lemma {:induction false} LandedCompletes(cfg: Config, s: System, token: Id, out: Outcome)
    requires Standing(s, token, AwaitingMerge, true, out) && SourceRow(out) in s.merges
             && Stored(s.table, out.resultId) == []
    ensures var go := Go(token, out);
            var s' := Run(cfg, s, [Land(SourceRow(out)), go, go, go]);
            && out.runId in s'.rows && s'.rows[out.runId].status.Completed?
            && s'.rows[out.runId].resultPayload == Some(out)
            && Stored(s'.table, out.resultId) == [SourceRow(out)]
            && SameEffort(s, s', out.runId)
  {
    hide Apply, Standing, Stored, Run;
    var go := Go(token, out);
    var land := Land(SourceRow(out));
    StandingIsWellFormed(s, token, AwaitingMerge, true, out);
    var s1 := Apply(cfg, s, land);
    MergeLands(cfg, s, token, out);
    var s2 := Apply(cfg, s1, go);
    MergeAnswered(cfg, s1, token, out);
    var s3 := Apply(cfg, s2, go);
    ReadBackExactly(cfg, s2, token, out);
    Committed(cfg, s3, token, out);
    assert [land, go, go, go] == [] + [land] + [go] + [go] + [go];
    RunNothing(cfg, s);
    RunOne(cfg, s, [], land);
    RunOne(cfg, s, [] + [land], go);
    RunOne(cfg, s, [] + [land] + [go], go);
    RunOne(cfg, s, [] + [land] + [go] + [go], go);
  }

  lemma {:induction false} StandingIsWellFormed(s: System, token: Id, pc: Pc, pending: bool, out: Outcome)
    requires Standing(s, token, pc, pending, out)
    ensures WellFormed(s) && out.runId in s.effects
  {
  }

  /** An activation with a live lease on an uncancelled run, about to execute for the first time, completes it in
      twelve undisturbed steps: the executor reports, the result is staged, the cutoff passed, the MERGE lands and
      reads back. */
  lemma {:induction false} UndisturbedRunCompletes(cfg: Config, s: System, token: Id, out: Outcome)
    requires cfg.Valid() && cfg.lease > 0 && Reachable(cfg, s) && WellFormed(s)
    requires AboutToExecute(s, token) && OnItsWay(s, token) && !out.malfunction && out.Authoritative()
    requires var sess := s.sessions[token];
             var row := s.rows[sess.runId];
             && row.HeldLive(sess.worker, token, s.now) && !row.cancelRequested
             && HasToken(row, token) && out.runId == sess.runId && out.resultId == row.resultId
    ensures var s' := Run(cfg, s, Undisturbed12(token, out));
            && out.runId in s'.rows && s'.rows[out.runId].status.Completed?
            && s'.rows[out.runId].resultPayload == Some(out)
            && Stored(s'.table, out.resultId) == [SourceRow(out)]
            && Spent(s', out.runId, s.effects[out.runId].executions + [token], 1)
  {
    hide Apply, Run, Standing, Stored;
    ReachableInv(cfg, s);
    HolderIsUnstaged(cfg, s, token);
    CutoffBeforeSink(cfg, s, out.runId);
    var go := Go(token, out);
    var four := [go, go, go, go];
    var last := [Land(SourceRow(out)), go, go, go];
    StagedStanding(cfg, s, token, out);
    StagedCompletes(cfg, Run(cfg, s, four), token, out);
    RunAppend(cfg, Run(cfg, s, four), four, last);
    RunAppend(cfg, s, four, four + last);
    assert Undisturbed12(token, out) == four + (four + last);
  }

  /** A fresh activation that holds its row holds an unstaged one. */
  lemma {:induction false} HolderIsUnstaged(cfg: Config, s: System, token: Id)
    requires Inv(cfg, s) && AboutToExecute(s, token) && HasToken(s.rows[s.sessions[token].runId], token)
    ensures var sess := s.sessions[token];
            var row := s.rows[sess.runId];
            && row.response.None? && row.resultPayload.None? && !row.publicationPending && !sess.pending
            && s.effects[sess.runId].cutoff.None? && s.effects[sess.runId].merges == 0
  {
    hide MergesOk, TableOk, IdentitiesOk, OutboxOk, TokensOk;
    InvGivesInvAt(cfg, s, token);
    assert RowOk(cfg, s.now, s.issued, s.rows[s.sessions[token].runId], s.effects[s.sessions[token].runId]);
  }

  // ----- recovered activations -----------------------------------------------------------------

  /** The activation has just leased a run whose result was staged before, undisturbed so far. */
  ghost predicate Recovers(s: System, token: Id, pending: bool, out: Outcome) {
    && WellFormed(s) && token in s.sessions
    && var sess := s.sessions[token];
    && sess.pc.Leased? && sess.recovered == Some(out) && sess.pending == pending
    && !sess.leaseLost && (pending || !sess.cancelSeen)
    && var row := s.rows[sess.runId];
    && row.HeldLive(sess.worker, token, s.now) && (pending || !row.cancelRequested)
  }

  lemma {:induction false} RecoveredFacts(cfg: Config, s: System, token: Id, pending: bool, out: Outcome)
    requires Inv(cfg, s) && Recovers(s, token, pending, out)
    ensures out.runId == s.sessions[token].runId && out.runId in s.effects && out.runId in s.rows
    ensures var row := s.rows[out.runId];
            row.runId == out.runId && row.resultId == out.resultId && row.resultPayload == Some(out)
            && row.publicationPending == pending
    ensures !pending ==> s.effects[out.runId].cutoff.None? && s.effects[out.runId].merges == 0
    ensures !out.malfunction
  {
    InvGivesInvAt(cfg, s, token);
  }

  /** Its outcome is the staged one. */
  ghost predicate Taken(s: System, token: Id, pending: bool, out: Outcome) {
    && WellFormed(s) && token in s.sessions
    && var sess := s.sessions[token];
    && sess.runId == out.runId && sess.pc.Judging? && sess.recovered == Some(out) && sess.pending == pending
    && sess.outcome == Some(out) && !sess.leaseLost && (pending || !sess.cancelSeen) && !out.malfunction
    && var row := s.rows[sess.runId];
    && row.HeldLive(sess.worker, token, s.now) && (pending || !row.cancelRequested) && row.publicationPending == pending
    && row.resultPayload == Some(out) && row.resultId == out.resultId && out.Authoritative()
  }

  lemma {:induction false} Takes(cfg: Config, s: System, token: Id, pending: bool, out: Outcome)
    requires Inv(cfg, s) && Recovers(s, token, pending, out) && out.Authoritative()
    ensures var s' := Apply(cfg, s, Go(token, out)); Taken(s', token, pending, out) && OnlyThinks(s, s', token, out)
  {
    RecoveredFacts(cfg, s, token, pending, out);
    Activations.ThinkingStep(cfg, s, token, Favourable(out));
    hide Inv, Apply;
  }

  lemma {:induction false} JudgedSound(cfg: Config, s: System, token: Id, pending: bool, out: Outcome)
    requires Taken(s, token, pending, out)
    ensures var s' := Apply(cfg, s, Go(token, out));
            Standing(s', token, CheckPublisher, pending, out) && OnlyThinks(s, s', token, out)
  {
    Activations.ThinkingStep(cfg, s, token, Favourable(out));
    hide Apply;
  }

  /** It skips the executor and the staging. */
  lemma {:induction false} RecoveredStanding(cfg: Config, s: System, token: Id, pending: bool, out: Outcome)
    requires Inv(cfg, s) && Recovers(s, token, pending, out) && out.Authoritative()
    ensures var s' := Run(cfg, s, [Go(token, out), Go(token, out)]);
            && Standing(s', token, CheckPublisher, pending, out) && OnlyThinks(s, s', token, out)
  {
    hide Inv, Apply, Run, Standing;
    Takes(cfg, s, token, pending, out);
    JudgedSound(cfg, Apply(cfg, s, Go(token, out)), token, pending, out);
    RunTwo(cfg, s, Go(token, out));
  }

  lemma {:induction false} RunTwo(cfg: Config, s: System, a: Action)
    requires WellFormed(s)
    ensures Run(cfg, s, [a, a]) == Apply(cfg, Apply(cfg, s, a), a)
  {
    hide Apply;
    assert [a, a] == [] + [a] + [a];
    RunNothing(cfg, s);
    RunOne(cfg, s, [], a);
    RunOne(cfg, s, [] + [a], a);
  }

  /** A recovered result that is not yet pending is published without another execution: ten undisturbed steps, one
      MERGE. */
  lemma {:induction false} StagedRunCompletes(cfg: Config, s: System, token: Id, out: Outcome)
    requires cfg.Valid() && cfg.lease > 0 && Reachable(cfg, s) && Recovers(s, token, false, out) && out.Authoritative()
    ensures var go := Go(token, out);
            var s' := Run(cfg, s, [go, go] + ([go, go, go, go] + [Land(SourceRow(out)), go, go, go]));
            && out.runId in s'.rows && s'.rows[out.runId].status.Completed?
            && s'.rows[out.runId].resultPayload == Some(out)
            && Stored(s'.table, out.resultId) == [SourceRow(out)]
            && out.runId in s.effects && Spent(s', out.runId, s.effects[out.runId].executions, 1)
  {
    hide Apply, Run, Standing, Stored;
    ReachableInv(cfg, s);
    RecoveredFacts(cfg, s, token, false, out);
    CutoffBeforeSink(cfg, s, out.runId);
    var go := Go(token, out);
    RecoveredStanding(cfg, s, token, false, out);
    var s1 := Run(cfg, s, [go, go]);
    StagedCompletes(cfg, s1, token, out);
    RunAppend(cfg, s1, [go, go, go, go], [Land(SourceRow(out)), go, go, go]);
    RunAppend(cfg, s, [go, go], [go, go, go, go] + [Land(SourceRow(out)), go, go, go]);
  }

  /** An ambiguous answer to the MERGE, or a readback inside Publish that is not exact or not answered, is verified when
      the publisher can verify, and otherwise tried again later; an answered MERGE that is in the sink is read back. */
  lemma {:induction false} AmbiguityIsVerified(cfg: Config, s: System, token: Id, out: Outcome, o: Oracle)
    requires Standing(s, token, AwaitingMerge, true, out) || Standing(s, token, ReadingBack, true, out)
    ensures var s' := Apply(cfg, s, Work(token, o));
            var next := if o.verifier then Verifying else ToRetry;
            var reading := s.sessions[token].pc.ReadingBack?;
            var exact := ReadbackOf(s.table, SourceRow(out)).Exact?;
            && s'.rows == s.rows && s'.table == s.table && SameEffort(s, s', out.runId)
            && (reading && o.ok && exact ==> Standing(s', token, ToComplete, true, out))
            && (reading && !(o.ok && exact) ==> Standing(s', token, next, true, out))
            && (!reading && !o.ok ==> Standing(s', token, next, true, out))
            && (!reading && o.ok && Stored(s.table, out.resultId) != [] ==> Standing(s', token, ReadingBack, true, out))
  {
    Activations.ThinkingStep(cfg, s, token, o);
    hide Apply, ReadbackOf, Stored;
  }

  /** A publisher that refuses before the MERGE, or one that cannot verify what a recovered run needs verified, leaves
      the run to a later retry. */
  lemma {:induction false} RefusalIsRetried(cfg: Config, s: System, token: Id, out: Outcome, o: Oracle)
    requires Standing(s, token, ToPublish, true, out) || Standing(s, token, CheckPublisher, true, out)
    requires !o.ok || (s.sessions[token].pc.CheckPublisher? && !o.verifier)
    ensures var s' := Apply(cfg, s, Work(token, o));
            s'.rows == s.rows && s'.table == s.table && s'.merges == s.merges && SameEffort(s, s', out.runId)
            && Standing(s', token, ToRetry, true, out)
  {
    Activations.ThinkingStep(cfg, s, token, o);
    hide Apply;
  }

  /** What verification alone leaves of a row whose publication is not in the sink. */
  function Requeued(cfg: Config, row: Row, now: Time): Row {
    if row.verificationAttempt + 1 >= cfg.maxVerification then
      row.Announced(now).(status := Failed, lease := None, verificationAttempt := row.verificationAttempt + 1,
                          failure := Some(PublicationVerificationFailed), publicationPending := false, retryAt := None)
    else
      row.(status := Queued, lease := None, verificationAttempt := row.verificationAttempt + 1, failure := None,
           retryAt := Some(now + Delay(cfg.verificationBackoff, row.verificationAttempt)))
  }

  lemma {:induction false} VerificationStarts(cfg: Config, s: System, token: Id, out: Outcome)
    requires Standing(s, token, CheckPublisher, true, out)
    ensures var s' := Apply(cfg, s, Go(token, out));
            Standing(s', token, Verifying, true, out) && OnlyThinks(s, s', token, out)
  {
    Activations.ThinkingStep(cfg, s, token, Favourable(out));
    hide Apply;
  }

  lemma {:induction false} VerificationAnswers(cfg: Config, s: System, token: Id, out: Outcome)
    requires Standing(s, token, Verifying, true, out) && !ReadbackOf(s.table, SourceRow(out)).Conflict?
    ensures var s' := Apply(cfg, s, Go(token, out));
            && var pc := if ReadbackOf(s.table, SourceRow(out)).Exact? then ToComplete else ToRetry;
            Standing(s', token, pc, true, out) && OnlyThinks(s, s', token, out)
  {
    Activations.ThinkingStep(cfg, s, token, Favourable(out));
    hide Apply, ReadbackOf;
  }

  lemma {:induction false} RetrySent(cfg: Config, s: System, token: Id, out: Outcome)
    requires Standing(s, token, ToRetry, true, out) && KnowsItsRetries(s, token)
    ensures var s' := Apply(cfg, s, Go(token, out));
            && out.runId in s'.rows && s'.table == s.table && SameEffort(s, s', out.runId)
            && s'.rows[out.runId] == Requeued(cfg, s.rows[out.runId], s.now)
  {
    var sess := s.sessions[token];
    Activations.WritingStep(cfg, s, token, Favourable(out),
      Statement.RetryVerification(sess.worker, token, cfg.maxVerification,
                                  Delay(cfg.verificationBackoff, sess.verificationAttempt)));
    hide Apply;
  }

  /** The activation remembers the number of retries that is in its row. */
  predicate KnowsItsRetries(s: System, token: Id) {
    && token in s.sessions && s.sessions[token].runId in s.rows
    && s.sessions[token].verificationAttempt == s.rows[s.sessions[token].runId].verificationAttempt
  }

  /** What verification alone comes to. */
  ghost predicate VerifiedTo(cfg: Config, s: System, s': System, out: Outcome) {
    && out.runId in s.rows && out.runId in s'.rows && s'.table == s.table && SameEffort(s, s', out.runId)
    && if Stored(s.table, out.resultId) != [] then
         && Stored(s.table, out.resultId) == [SourceRow(out)]
         && s'.rows[out.runId].status.Completed? && s'.rows[out.runId].resultPayload == Some(out)
       else
         s'.rows[out.runId] == Requeued(cfg, s.rows[out.runId], s.now)
  }

  lemma {:induction false} Verified(cfg: Config, s: System, token: Id, out: Outcome)
    requires Standing(s, token, CheckPublisher, true, out) && !ReadbackOf(s.table, SourceRow(out)).Conflict?
    requires KnowsItsRetries(s, token)
    ensures VerifiedTo(cfg, s, Run(cfg, s, [Go(token, out), Go(token, out), Go(token, out)]), out)
  {
    hide Apply, Run, Standing, Stored, Requeued;
    var go := Go(token, out);
    StandingIsWellFormed(s, token, CheckPublisher, true, out);
    var s1 := Apply(cfg, s, go);
    VerificationStarts(cfg, s, token, out);
    var s2 := Apply(cfg, s1, go);
    StandingIsWellFormed(s1, token, Verifying, true, out);
    VerificationAnswers(cfg, s1, token, out);
    if ReadbackOf(s.table, SourceRow(out)).Exact? {
      Committed(cfg, s2, token, out);
    } else {
      RetrySent(cfg, s2, token, out);
    }
    assert [go, go, go] == [go, go] + [go];
    RunTwo(cfg, s, go);
    RunOne(cfg, s, [go, go], go);
  }

  /** A recovered result past its cutoff is never executed or merged again: in five undisturbed steps the run completes
      when its row is in the sink; when it is not, it is queued for another verification, or fails when none is left.
      A cancellation that came after the cutoff changes nothing in that. */
  lemma {:induction false} PendingRunVerifies(cfg: Config, s: System, token: Id, out: Outcome)
    requires cfg.Valid() && Reachable(cfg, s) && Recovers(s, token, true, out) && out.Authoritative()
    ensures var go := Go(token, out);
            VerifiedTo(cfg, s, Run(cfg, s, [go, go] + [go, go, go]), out)
  {
    hide Apply, Run, Standing, Stored, Requeued;
    ReachableInv(cfg, s);
    var go := Go(token, out);
    RecoveredStanding(cfg, s, token, true, out);
    ReachableOn(cfg, s, [go, go]);
    var s1 := Run(cfg, s, [go, go]);
    NoConflict(cfg, s1, token, out);
    HolderIsStanding(s1, token, CheckPublisher, true, out);
    HolderKnowsItsRetries(cfg, s1, token);
    Verified(cfg, s1, token, out);
    RunAppend(cfg, s, [go, go], [go, go, go]);
  }

  lemma {:induction false} HolderIsStanding(s: System, token: Id, pc: Pc, pending: bool, out: Outcome)
    requires Standing(s, token, pc, pending, out)
    ensures WellFormed(s) && token in s.sessions && HasToken(s.rows[s.sessions[token].runId], token)
  {
  }

  lemma {:induction false} NoConflict(cfg: Config, s: System, token: Id, out: Outcome)
    requires cfg.Valid() && Reachable(cfg, s) && Standing(s, token, CheckPublisher, true, out)
    ensures !ReadbackOf(s.table, SourceRow(out)).Conflict?
  {
    ReachableInv(cfg, s);
    hide Inv, ReadbackOf, Reachable;
    ReadbackNeverConflicts(cfg, s, token);
  }

  /** In particular, with a positive lease, some run of the system completes a run of the worker. */
  lemma {:induction false} SomeRunCompletes(cfg: Config)
    requires cfg.Valid() && cfg.lease > 0
    ensures exists s :: Reachable(cfg, s) && 1 in s.rows && s.rows[1].status.Completed?
  {
    hide Apply, Standing, Stored;
    var submit, acquire := Submit(1, 10, 20, 0, None), Acquire(1, 7, 100);
    var s1 := Apply(cfg, INIT, submit);
    var s2 := Apply(cfg, s1, acquire);
    FirstLease(cfg);
    RunNothing(cfg, INIT);
    RunOne(cfg, INIT, [], submit);
    RunOne(cfg, INIT, [] + [submit], acquire);
    assert Reachable(cfg, s2);
    var out := Outcome(1, 20, false, Some(ResultRef(true, 20)), 0);
    UndisturbedRunCompletes(cfg, s2, 100, out);
    ReachableOn(cfg, s2, Undisturbed12(100, out));
    var s' := Run(cfg, s2, Undisturbed12(100, out));
    assert s'.rows[1].status.Completed?;
  }
}
