/**
 What the run lifecycle guarantees over whole runs of the system: every interleaving of activations,
 crashes, lease expiries, cancellations and late MERGEs.
 */
module Safety {
  import opened Collections
  import opened Wrappers
  import opened Ledger
  import opened Sink
  import opened Backoff
  import opened Protocol
  import opened Invariant
  import opened Preservation

  ghost predicate Reachable(cfg: Config, s: System) {
    exists trace :: Run(cfg, INIT, trace) == s
  }

  lemma {:induction false} ReachableInv(cfg: Config, s: System)
    requires cfg.Valid() && Reachable(cfg, s)
    ensures Inv(cfg, s)
  {
    var trace :| Run(cfg, INIT, trace) == s;
    InitInv(cfg);
    RunKeepsInv(cfg, INIT, trace);
  }

  lemma {:induction false} ReachableOn(cfg: Config, s: System, trace: seq<Action>)
    requires cfg.Valid() && Reachable(cfg, s)
    ensures WellFormed(s) && Reachable(cfg, Run(cfg, s, trace))
  {
    var past :| Run(cfg, INIT, past) == s;
    RunAppend(cfg, INIT, past, trace);
  }

  // ----- how a row changes ---------------------------------------------------------------------

  /** The statement an action sends against the row of one run, if any. */
  function StatementOn(cfg: Config, s: System, a: Action, id: Id): Option<Statement> {
    match a
    case RequestCancel(i) => if i == id then Some(Cancel) else None
    case Recover => Some(RecoverCanceled)
    case Exhaust => Some(FailExhausted(cfg.maxAttempts))
    case Acquire(i, worker, token) =>
      if i == id && token !in s.issued then Some(LeaseNext(worker, token, cfg.lease, cfg.maxAttempts)) else None
    case Work(token, _) =>
      if token in s.sessions && s.sessions[token].runId == id then StatementOf(cfg, token, s.sessions[token]) else None
    case Beat(token, fault) =>
      if token in s.sessions && s.sessions[token].runId == id && !fault
         && !s.sessions[token].pc.Done? && !s.sessions[token].leaseLost
      then Some(Heartbeat(s.sessions[token].worker, token, cfg.lease)) else None
    case Claim(i, token) =>
      if i == id && token !in s.issued then Some(ClaimNextCallback(token, cfg.callbackLease)) else None
    case Settle(i, token, settlement) => if i == id then Some(SettleCallback(token, settlement)) else None
    case _ => None
  }

  function RowAfter(st: Option<Statement>, row: Row, now: Time): Row {
    match st
    case None => row
    case Some(statement) => Execute(statement, row, now)
  }

  /** A row changes by nothing but the statement of the action. */
  lemma {:induction false} RowsChangeByStatements(cfg: Config, s: System, a: Action, id: Id)
    requires WellFormed(s) && id in s.rows
    ensures Apply(cfg, s, a).rows[id] == RowAfter(StatementOn(cfg, s, a, id), s.rows[id], s.now)
  {
    match a
    case Work(token, oracle) =>
    case _ =>
  }

  /** The cutoff column of the effects moves only when MarkPublicationPending writes the row. */
  lemma {:induction false} CutoffMovesByMarking(cfg: Config, s: System, a: Action, id: Id)
    requires WellFormed(s) && id in s.rows
    ensures Apply(cfg, s, a).effects[id].cutoff
         == match StatementOn(cfg, s, a, id)
            case None => s.effects[id].cutoff
            case Some(st) =>
              if st.MarkPublicationPending? && Matches(st, s.rows[id], s.now) then Some(st.token)
              else s.effects[id].cutoff
  {
    match a
    case Work(token, oracle) =>
    case _ =>
  }

  // ----- the documented status graph -----------------------------------------------------------

  /** README: queued -> running -> completed|failed|canceled, queued -> canceled, running -> queued for a
      fenced publication retry. */
  predicate DocumentedEdge(from: Status, to: Status) {
    match from
    case Queued => to.Running? || to.Canceled?
    case Running => to.Completed? || to.Failed? || to.Canceled? || to.Queued?
    case _ => false
  }

  /** The columns no lifecycle step may touch once the run is over. */
  predicate SameVerdict(row: Row, row': Row) {
    && row'.status == row.status && row'.resultPayload == row.resultPayload && row'.response == row.response
    && row'.completion == row.completion && row'.failure == row.failure
    && row'.verificationAttempt == row.verificationAttempt && row'.cancelRequested == row.cancelRequested
    && row'.publicationPending == row.publicationPending
  }

  lemma {:induction false} StatementFollowsGraph(st: Statement, row: Row, now: Time)
    ensures var row' := Execute(st, row, now);
            && (row'.status != row.status ==> DocumentedEdge(row.status, row'.status))
            && (row.status.Terminal() ==> SameVerdict(row, row'))
            && (row.status.Running? && row'.status.Queued? ==>
                  st.RetryVerification? && row'.publicationPending
                      && row'.verificationAttempt == row.verificationAttempt + 1)
            && (row.status.Running? && row'.status.Terminal() && !st.Fenced() ==> row.LeaseExpired(now))
  {
  }

  /** Every status change of every run is a documented edge; recovery ends a run only when its lease is over. */
  lemma {:induction false} StatusFollowsGraph(cfg: Config, s: System, a: Action, id: Id)
    requires WellFormed(s) && id in s.rows
    ensures var row, row' := s.rows[id], Apply(cfg, s, a).rows[id];
            && (row'.status != row.status ==> DocumentedEdge(row.status, row'.status))
            && (row.status.Running? && row'.status.Terminal() && (a.Recover? || a.Exhaust?) ==> row.LeaseExpired(s.now))
  {
    RowsChangeByStatements(cfg, s, a, id);
    match StatementOn(cfg, s, a, id)
    case None =>
    case Some(st) => StatementFollowsGraph(st, s.rows[id], s.now);
  }

  /** A finished run keeps its status, result bytes, completion and failure for ever. */
  lemma {:induction false} TerminalIsFinal(cfg: Config, s: System, trace: seq<Action>, id: Id)
    requires WellFormed(s) && id in s.rows && s.rows[id].status.Terminal()
    ensures SameVerdict(s.rows[id], Run(cfg, s, trace).rows[id])
    decreases |trace|
  {
    if trace != [] {
      var mid := Run(cfg, s, trace[..|trace| - 1]);
      TerminalIsFinal(cfg, s, trace[..|trace| - 1], id);
      RowsChangeByStatements(cfg, mid, trace[|trace| - 1], id);
      match StatementOn(cfg, mid, trace[|trace| - 1], id)
      case None =>
      case Some(st) => StatementFollowsGraph(st, mid.rows[id], mid.now);
    }
  }

  // ----- completed means published -------------------------------------------------------------

  /** In every reachable system a completed run has exactly one sink row for its result_id; it carries the
      run's id and exactly the bytes staged in the ledger. */
  lemma {:induction false} CompletedMeansPublishedExactly(cfg: Config, s: System, id: Id)
    requires cfg.Valid() && Reachable(cfg, s) && id in s.rows && s.rows[id].status.Completed?
    ensures s.rows[id].resultPayload.Some?
    ensures Stored(s.table, s.rows[id].resultId) == [SinkRow(id, s.rows[id].resultId, s.rows[id].resultPayload.value)]
    ensures s.rows[id].completion == s.rows[id].resultPayload
  {
    ReachableInv(cfg, s);
    assert RowOk(cfg, s.now, s.issued, s.rows[id], s.effects[id]);
  }

  /** The sink never holds two rows for one result_id, nor a row that differs from the staged bytes. */
  lemma {:induction false} SinkHoldsOnlyStagedResults(cfg: Config, s: System, row: SinkRow)
    requires cfg.Valid() && Reachable(cfg, s) && row in s.table
    ensures row.runId in s.rows && s.rows[row.runId].resultPayload == Some(row.payload)
    ensures s.rows[row.runId].resultId == row.resultId && Stored(s.table, row.resultId) == [row]
  {
    hide Run, RowOk, SessionOk;
    ReachableInv(cfg, s);
    var i :| 0 <= i < |s.table| && s.table[i] == row;
    assert s.table[i] in s.merges;
    assert row in Stored(s.table, row.resultId);
  }

  lemma {:induction false} OnlyTwoStatementsWriteResults(st: Statement, row: Row, now: Time)
    requires !st.StageOutcome? && !st.CompletePublished?
    ensures Execute(st, row, now).resultPayload == row.resultPayload
  {
  }

  lemma {:induction false} ResultStaysByStep(cfg: Config, s: System, a: Action, id: Id)
    requires cfg.Valid() && Inv(cfg, s) && id in s.rows && s.rows[id].resultPayload.Some?
    ensures Apply(cfg, s, a).rows[id].resultPayload == s.rows[id].resultPayload
  {
    RowsChangeByStatements(cfg, s, a, id);
    match StatementOn(cfg, s, a, id)
    case None =>
    case Some(st) =>
      if st.StageOutcome? || st.CompletePublished? {
        InvGivesInvAt(cfg, s, a.token);
        AnyStatement(cfg, s.now, s.issued, s.rows[id], s.effects[id], a.token, s.sessions[a.token]);
      } else {
        OnlyTwoStatementsWriteResults(st, s.rows[id], s.now);
      }
  }

  lemma {:induction false} CutoffStaysByStep(cfg: Config, s: System, a: Action, id: Id)
    requires cfg.Valid() && WellFormed(s) && id in s.rows && s.effects[id].cutoff.Some?
    requires RowOk(cfg, s.now, s.issued, s.rows[id], s.effects[id])
    ensures Apply(cfg, s, a).effects[id].cutoff == s.effects[id].cutoff
  {
    CutoffMovesByMarking(cfg, s, a, id);
  }

  /** The bytes first staged are the bytes of the run from then on, and the cutoff is passed for good. */
  lemma {:induction false} StagedForGood(cfg: Config, s: System, trace: seq<Action>, id: Id)
    requires cfg.Valid() && Inv(cfg, s) && id in s.rows
    ensures s.rows[id].resultPayload.Some? ==> Run(cfg, s, trace).rows[id].resultPayload == s.rows[id].resultPayload
    ensures s.effects[id].cutoff.Some? ==> Run(cfg, s, trace).effects[id].cutoff == s.effects[id].cutoff
    decreases |trace|
  {
    if trace != [] {
      StagedForGood(cfg, s, trace[..|trace| - 1], id);
      RunKeepsInv(cfg, s, trace[..|trace| - 1]);
      var mid := Run(cfg, s, trace[..|trace| - 1]);
      RowsChangeByStatements(cfg, mid, trace[|trace| - 1], id);
      assert RowOk(cfg, mid.now, mid.issued, mid.rows[id], mid.effects[id]);
      if s.rows[id].resultPayload.Some? { ResultStaysByStep(cfg, mid, trace[|trace| - 1], id); }
      if s.effects[id].cutoff.Some? { CutoffStaysByStep(cfg, mid, trace[|trace| - 1], id); }
    }
  }

  /** Once a run is completed, its one sink row is there for ever, whatever lands later. */
  lemma {:induction false} CompletedStaysPublished(cfg: Config, s: System, trace: seq<Action>, id: Id)
    requires cfg.Valid() && Reachable(cfg, s) && id in s.rows && s.rows[id].status.Completed?
    ensures var s' := Run(cfg, s, trace);
            && id in s'.rows && s'.rows[id].status.Completed?
            && Stored(s'.table, s.rows[id].resultId) == Stored(s.table, s.rows[id].resultId)
            && |Stored(s'.table, s.rows[id].resultId)| == 1
  {
    TerminalIsFinal(cfg, s, trace, id);
    ReachableOn(cfg, s, trace);
    ReachableInv(cfg, s);
    ReachableInv(cfg, Run(cfg, s, trace));
    CompletedMeansPublishedExactly(cfg, s, id);
    CompletedMeansPublishedExactly(cfg, Run(cfg, s, trace), id);
    IdentityStays(cfg, s, trace, id);
  }

  lemma {:induction false} StatementsKeepIdentity(st: Statement, row: Row, now: Time)
    ensures var row' := Execute(st, row, now);
            row'.runId == row.runId && row'.requestId == row.requestId && row'.resultId == row.resultId
  {
  }

  lemma {:induction false} IdentityStays(cfg: Config, s: System, trace: seq<Action>, id: Id)
    requires WellFormed(s) && id in s.rows
    ensures Run(cfg, s, trace).rows[id].resultId == s.rows[id].resultId
    ensures Run(cfg, s, trace).rows[id].requestId == s.rows[id].requestId
    decreases |trace|
  {
    if trace != [] {
      var mid, a := Run(cfg, s, trace[..|trace| - 1]), trace[|trace| - 1];
      IdentityStays(cfg, s, trace[..|trace| - 1], id);
      RowsChangeByStatements(cfg, mid, a, id);
      match StatementOn(cfg, mid, a, id)
      case None =>
      case Some(st) => StatementsKeepIdentity(st, mid.rows[id], mid.now);
    }
  }

  // ----- effects happen at most so often -------------------------------------------------------

  lemma {:induction false} DistinctWithin(xs: seq<Id>, bound: set<Id>)
    requires Distinct(xs) && forall x :: x in xs ==> x in bound
    ensures |xs| <= |bound|
    decreases |xs|
  {
    if xs != [] {
      var init, last := xs[..|xs| - 1], xs[|xs| - 1];
      forall x | x in init ensures x in bound - {last} {
        var i :| 0 <= i < |init| && init[i] == x;
        assert xs[i] != xs[|xs| - 1];
      }
      DistinctWithin(init, bound - {last});
    }
  }

  /** Over all workers and recoveries: the executor is entered at most maxAttempts times, by different
      activations, and the MERGE is issued at most once, after the cutoff. */
  lemma {:induction false} EffectsAreBounded(cfg: Config, s: System, id: Id)
    requires cfg.Valid() && Reachable(cfg, s) && id in s.rows
    ensures Distinct(s.effects[id].executions) && |s.effects[id].executions| <= cfg.maxAttempts
    ensures s.effects[id].merges <= 1
    ensures s.effects[id].merges == 1 ==> s.effects[id].cutoff.Some? && s.rows[id].resultPayload.Some?
  {
    ReachableInv(cfg, s);
    assert RowOk(cfg, s.now, s.issued, s.rows[id], s.effects[id]);
    DistinctWithin(s.effects[id].executions, s.effects[id].freshLeases);
  }

  /** publication_pending is made durable at most once: after the cutoff the statement never matches again. */
  lemma {:induction false} CutoffHappensOnce(cfg: Config, s: System, trace: seq<Action>, id: Id, worker: Id, token: Id)
    requires cfg.Valid() && Reachable(cfg, s) && id in s.rows && s.effects[id].cutoff.Some?
    ensures var s' := Run(cfg, s, trace);
            id in s'.rows && !Matches(MarkPublicationPending(worker, token), s'.rows[id], s'.now)
  {
    ReachableInv(cfg, s);
    StagedForGood(cfg, s, trace, id);
    ReachableOn(cfg, s, trace);
    var s' := Run(cfg, s, trace);
    ReachableInv(cfg, s');
    assert RowOk(cfg, s'.now, s'.issued, s'.rows[id], s'.effects[id]);
  }

  /** An activation that still holds its lease only ever starts the executor while nothing is staged. */
  lemma {:induction false} HolderExecutesUnstagedOnly(cfg: Config, s: System, token: Id)
    requires cfg.Valid() && Reachable(cfg, s) && token in s.sessions
    requires s.sessions[token].pc.Leased? && s.sessions[token].recovered.None?
    requires HasToken(s.rows[s.sessions[token].runId], token)
    ensures s.rows[s.sessions[token].runId].resultPayload.None?
    ensures !s.rows[s.sessions[token].runId].publicationPending
  {
    ReachableInv(cfg, s);
    InvGivesInvAt(cfg, s, token);
  }

  // ----- no stuck run --------------------------------------------------------------------------

  /** A run that is not finished, whose lease (if any) is over and whose retry time has come, enables exactly
      one of the three recovery statements, whoever sends it. */
  lemma {:induction false} ExactlyOneRecovery(cfg: Config, s: System, id: Id, worker: Id, token: Id)
    requires cfg.Valid() && Reachable(cfg, s) && id in s.rows
    requires !s.rows[id].status.Terminal() && s.rows[id].Due(s.now)
    requires s.rows[id].lease.Some? ==> s.rows[id].lease.value.expiresAt <= s.now
    ensures var row := s.rows[id];
            var recover := Matches(RecoverCanceled, row, s.now);
            var exhaust := Matches(FailExhausted(cfg.maxAttempts), row, s.now);
            var lease := Matches(LeaseNext(worker, token, cfg.lease, cfg.maxAttempts), row, s.now);
            && (recover || exhaust || lease)
            && !(recover && exhaust) && !(recover && lease) && !(exhaust && lease)
            && (recover <==> row.cancelRequested && !row.publicationPending)
            && (exhaust <==> !row.cancelRequested && row.resultPayload.None? && row.attempt >= cfg.maxAttempts)
  {
    ReachableInv(cfg, s);
    assert RowOk(cfg, s.now, s.issued, s.rows[id], s.effects[id]);
  }

  /** Once it is finished, before its time has come, or while its lease is live, a run is left alone by all three. */
  lemma {:induction false} NoRecoveryBeforeTime(cfg: Config, s: System, id: Id, worker: Id, token: Id)
    requires cfg.Valid() && Reachable(cfg, s) && id in s.rows
    requires var row := s.rows[id];
             row.status.Terminal() || !row.Due(s.now) || (row.lease.Some? && row.lease.value.expiresAt > s.now)
    ensures var row := s.rows[id];
            && !Matches(RecoverCanceled, row, s.now) && !Matches(FailExhausted(cfg.maxAttempts), row, s.now)
            && !Matches(LeaseNext(worker, token, cfg.lease, cfg.maxAttempts), row, s.now)
  {
    ReachableInv(cfg, s);
    InvGivesRow(cfg, s, id);
    hide Inv, Reachable, TokensOk, OutboxOk;
  }

  // ----- cancellation --------------------------------------------------------------------------

  lemma {:induction false} CancelStays(st: Statement, row: Row, now: Time)
    requires row.cancelRequested
    ensures Execute(st, row, now).cancelRequested
  {
  }

  lemma {:induction false} CanceledBeforeCutoffStep(cfg: Config, s: System, a: Action, id: Id)
    requires WellFormed(s) && id in s.rows && s.rows[id].cancelRequested && s.effects[id].cutoff.None?
    ensures var s' := Apply(cfg, s, a); s'.rows[id].cancelRequested && s'.effects[id].cutoff.None?
  {
    RowsChangeByStatements(cfg, s, a, id);
    CutoffMovesByMarking(cfg, s, a, id);
    match StatementOn(cfg, s, a, id)
    case None =>
    case Some(st) => CancelStays(st, s.rows[id], s.now);
  }

  lemma {:induction false} CanceledBeforeCutoffStays(cfg: Config, s: System, trace: seq<Action>, id: Id)
    requires WellFormed(s) && id in s.rows && s.rows[id].cancelRequested && s.effects[id].cutoff.None?
    ensures var s' := Run(cfg, s, trace); s'.rows[id].cancelRequested && s'.effects[id].cutoff.None?
    decreases |trace|
  {
    if trace != [] {
      CanceledBeforeCutoffStays(cfg, s, trace[..|trace| - 1], id);
      CanceledBeforeCutoffStep(cfg, Run(cfg, s, trace[..|trace| - 1]), trace[|trace| - 1], id);
    }
  }

  /** A run cancelled while publication is not pending never completes and is never published. */
  lemma {:induction false} CancelBeforeCutoffWins(cfg: Config, s: System, trace: seq<Action>, id: Id)
    requires cfg.Valid() && Reachable(cfg, s) && id in s.rows
    requires s.rows[id].cancelRequested && !s.rows[id].publicationPending && !s.rows[id].status.Terminal()
    ensures var s' := Run(cfg, s, trace);
            && id in s'.rows && !s'.rows[id].status.Completed? && s'.effects[id].merges == 0
            && (s'.rows[id].status.Terminal() ==> s'.rows[id].status.Canceled? || s'.rows[id].status.Failed?)
            && Stored(s'.table, s.rows[id].resultId) == []
  {
    ReachableInv(cfg, s);
    assert RowOk(cfg, s.now, s.issued, s.rows[id], s.effects[id]);
    CanceledBeforeCutoffStays(cfg, s, trace, id);
    ReachableOn(cfg, s, trace);
    var s' := Run(cfg, s, trace);
    ReachableInv(cfg, s');
    assert RowOk(cfg, s'.now, s'.issued, s'.rows[id], s'.effects[id]);
    IdentityStays(cfg, s, trace, id);
    CutoffBeforeSink(cfg, s', id);
  }

  /** Before the cutoff the sink holds nothing for the run. */
  lemma {:induction false} CutoffBeforeSink(cfg: Config, s: System, id: Id)
    requires Inv(cfg, s) && id in s.rows && s.effects[id].cutoff.None?
    ensures Stored(s.table, s.rows[id].resultId) == []
  {
    forall i | 0 <= i < |s.table| ensures s.table[i].resultId != s.rows[id].resultId {
      assert s.table[i] in s.merges;
    }
    StoredNonempty(s.table, s.rows[id].resultId);
  }

  /** Once publication is pending the run can never end canceled: the cancellation came too late. */
  lemma {:induction false} CutoffBeatsCancel(cfg: Config, s: System, trace: seq<Action>, id: Id)
    requires cfg.Valid() && Reachable(cfg, s) && id in s.rows && s.rows[id].publicationPending
    ensures var s' := Run(cfg, s, trace); id in s'.rows && !s'.rows[id].status.Canceled?
  {
    ReachableInv(cfg, s);
    assert RowOk(cfg, s.now, s.issued, s.rows[id], s.effects[id]);
    StagedForGood(cfg, s, trace, id);
    ReachableOn(cfg, s, trace);
    var s' := Run(cfg, s, trace);
    ReachableInv(cfg, s');
    assert RowOk(cfg, s'.now, s'.issued, s'.rows[id], s'.effects[id]);
  }

  // ----- lease fencing -------------------------------------------------------------------------

  function TokenOf(st: Statement): Id
    requires st.Fenced()
  {
    st.token
  }

  /** Only LeaseNext hands a row to a token that did not hold it. */
  lemma {:induction false} TokensComeFromLeases(st: Statement, row: Row, now: Time, token: Id)
    requires !HasToken(row, token)
    requires st.LeaseNext? ==> st.token != token
    ensures !HasToken(Execute(st, row, now), token)
  {
  }

  lemma {:induction false} IdentifiersStayDrawn(cfg: Config, s: System, a: Action)
    requires WellFormed(s)
    ensures s.issued <= Apply(cfg, s, a).issued
  {
    match a
    case Work(token, oracle) =>
    case _ =>
  }

  lemma {:induction false} StaleTokenStep(cfg: Config, s: System, a: Action, id: Id, token: Id)
    requires WellFormed(s) && id in s.rows && token in s.issued && !HasToken(s.rows[id], token)
    ensures var s' := Apply(cfg, s, a); token in s'.issued && !HasToken(s'.rows[id], token)
  {
    RowsChangeByStatements(cfg, s, a, id);
    IdentifiersStayDrawn(cfg, s, a);
    match StatementOn(cfg, s, a, id)
    case None =>
    case Some(st) => TokensComeFromLeases(st, s.rows[id], s.now, token);
  }

  lemma {:induction false} StaleTokenStays(cfg: Config, s: System, trace: seq<Action>, id: Id, token: Id)
    requires WellFormed(s) && id in s.rows && token in s.issued && !HasToken(s.rows[id], token)
    ensures var s' := Run(cfg, s, trace); token in s'.issued && !HasToken(s'.rows[id], token)
    decreases |trace|
  {
    if trace != [] {
      StaleTokenStays(cfg, s, trace[..|trace| - 1], id, token);
      StaleTokenStep(cfg, Run(cfg, s, trace[..|trace| - 1]), trace[|trace| - 1], id, token);
    }
  }

  lemma {:induction false} HoldersOnly(st: Statement, row: Row, now: Time)
    requires st.Fenced() && Matches(st, row, now)
    ensures HasToken(row, TokenOf(st))
  {
  }

  /** Once a token that has been drawn does not hold a row, it never holds it again: every later statement that
      carries it reports not-written and changes nothing. */
  lemma {:induction false} StaleTokenIsFenced(cfg: Config, s: System, trace: seq<Action>, id: Id, st: Statement)
    requires WellFormed(s) && id in s.rows && st.Fenced()
    requires TokenOf(st) in s.issued && !HasToken(s.rows[id], TokenOf(st))
    ensures var s' := Run(cfg, s, trace);
            !Matches(st, s'.rows[id], s'.now) && Execute(st, s'.rows[id], s'.now) == s'.rows[id]
  {
    StaleTokenStays(cfg, s, trace, id, TokenOf(st));
    var s' := Run(cfg, s, trace);
    if Matches(st, s'.rows[id], s'.now) {
      HoldersOnly(st, s'.rows[id], s'.now);
    }
  }

  /** Handing out a new lease makes the previous holder stale. */
  lemma {:induction false} NewLeaseMakesStale(cfg: Config, s: System, id: Id, worker: Id, token: Id, previous: Id)
    requires Inv(cfg, s) && id in s.rows && HasToken(s.rows[id], previous)
    requires Apply(cfg, s, Acquire(id, worker, token)) != s
    ensures var s' := Apply(cfg, s, Acquire(id, worker, token));
            previous in s'.issued && HasToken(s'.rows[id], token) && !HasToken(s'.rows[id], previous)
  {
    assert RowOk(cfg, s.now, s.issued, s.rows[id], s.effects[id]);
  }

  lemma {:induction false} WhoWritesARunningRow(st: Statement, row: Row, now: Time)
    requires row.status.Running? && row.lease.Some? && Matches(st, row, now)
    ensures || (st.Fenced() && TokenOf(st) == row.lease.value.token)
            || st.Cancel?
            || ((st.LeaseNext? || st.RecoverCanceled? || st.FailExhausted?) && row.LeaseExpired(now))
            || st.SettleCallback?
  {
  }

  /** Between two leases a running row changes only by its holder, by Cancel, or by recovery of an expired lease. */
  lemma {:induction false} WhoChangesARunningRow(cfg: Config, s: System, a: Action, id: Id)
    requires WellFormed(s) && id in s.rows && s.rows[id].status.Running?
    requires RowOk(cfg, s.now, s.issued, s.rows[id], s.effects[id])
    requires Apply(cfg, s, a).rows[id] != s.rows[id]
    ensures var row := s.rows[id];
            && row.lease.Some?
            && (|| ((a.Work? || a.Beat?) && a.token == row.lease.value.token
                    && a.token in s.sessions && s.sessions[a.token].runId == id)
                || a == RequestCancel(id)
                || (((a.Acquire? && a.runId == id) || a.Recover? || a.Exhaust?) && row.LeaseExpired(s.now)))
  {
    RowsChangeByStatements(cfg, s, a, id);
    var st := StatementOn(cfg, s, a, id).value;
    WhoWritesARunningRow(st, s.rows[id], s.now);
  }

  /** From the lease of one token on, the row is running under that token or not running at all. */
  predicate HeldOrOver(row: Row, token: Id) {
    row.status.Running? ==> HasToken(row, token)
  }

  /** Who may change the row after the token was given the lease and before the next lease is handed out. */
  predicate MayChange(s: System, a: Action, id: Id, token: Id)
    requires id in s.rows
  {
    var row := s.rows[id];
    match row.status
    case Running =>
      || ((a.Work? || a.Beat?) && a.token == token && token in s.sessions && s.sessions[token].runId == id)
      || a == RequestCancel(id)
      || ((a.Recover? || a.Exhaust?) && row.LeaseExpired(s.now))
    case Queued => a == RequestCancel(id)
    case _ => (a.Claim? || a.Settle?) && a.runId == id
  }

  lemma {:induction false} WhoWritesAnOpenRow(cfg: Config, now: Time, issued: set<Id>, row: Row, seen: Effects,
                                              st: Statement)
    requires RowOk(cfg, now, issued, row, seen) && Matches(st, row, now) && !st.LeaseNext?
    ensures match row.status
            case Running =>
              || (st.Fenced() && HasToken(row, TokenOf(st))) || st.Cancel?
              || ((st.RecoverCanceled? || st.FailExhausted?) && row.LeaseExpired(now))
            case Queued => st.Cancel?
            case _ => st.Outbox()
    ensures var row' := Execute(st, row, now); row'.status.Running? ==> row'.lease.Some? && row.status.Running?
    ensures var row' := Execute(st, row, now);
            row'.status.Running? && row.lease.Some? ==> row'.lease.value.token == row.lease.value.token
  {
    hide CountersOk, TokensOk;
  }

  /** Which action sends a statement. */
  lemma {:induction false} WhoSends(cfg: Config, s: System, a: Action, id: Id)
    requires WellFormed(s) && id in s.rows && StatementOn(cfg, s, a, id).Some?
    ensures var st := StatementOn(cfg, s, a, id).value;
            && (st.Fenced() ==> (a.Work? || a.Beat?) && a.token == TokenOf(st) && a.token in s.sessions
                                && s.sessions[a.token].runId == id)
            && (st.Cancel? ==> a == RequestCancel(id)) && (st.LeaseNext? ==> a.Acquire? && a.runId == id)
            && (st.RecoverCanceled? ==> a.Recover?) && (st.FailExhausted? ==> a.Exhaust?)
            && (st.Outbox() ==> (a.Claim? || a.Settle?) && a.runId == id)
  {
  }

  /** One step of anybody between two leases. */
  lemma {:induction false} LeasePeriodStep(cfg: Config, s: System, a: Action, id: Id, token: Id)
    requires WellFormed(s) && id in s.rows && RowOk(cfg, s.now, s.issued, s.rows[id], s.effects[id])
    requires HeldOrOver(s.rows[id], token) && !(a.Acquire? && a.runId == id)
    ensures var s' := Apply(cfg, s, a);
            HeldOrOver(s'.rows[id], token) && (s'.rows[id] != s.rows[id] ==> MayChange(s, a, id, token))
  {
    RowsChangeByStatements(cfg, s, a, id);
    if StatementOn(cfg, s, a, id).Some? {
      WhoSends(cfg, s, a, id);
    }
    hide RowOk, Apply, Matches, Execute, StatementOn;
    match StatementOn(cfg, s, a, id)
    case None =>
    case Some(st) =>
      if Matches(st, s.rows[id], s.now) {
        WhoWritesAnOpenRow(cfg, s.now, s.issued, s.rows[id], s.effects[id], st);
      } else {
        NotMatching(st, s.rows[id], s.now);
      }
  }

  lemma {:induction false} NotMatching(st: Statement, row: Row, now: Time)
    requires !Matches(st, row, now)
    ensures Execute(st, row, now) == row
  {
  }

  /** Over every run from the lease of a token to the next lease of the same row: each change of the row is a step of
      the holder's activation or its heartbeat, a cancellation request, or recovery after expiry; while the row is
      queued again only a cancellation request, and once it is finished only the outbox. */
  lemma {:induction false} WhoChangesBetweenLeases(cfg: Config, s: System, trace: seq<Action>, k: nat, id: Id,
                                                   token: Id)
    requires cfg.Valid() && Reachable(cfg, s) && id in s.rows && HasToken(s.rows[id], token)
    requires forall i :: 0 <= i < |trace| ==> !(trace[i].Acquire? && trace[i].runId == id)
    requires k < |trace|
    ensures WellFormed(s)
    ensures var before := Run(cfg, s, trace[..k]);
            && id in before.rows && HeldOrOver(before.rows[id], token)
            && (Apply(cfg, before, trace[k]).rows[id] != before.rows[id] ==> MayChange(before, trace[k], id, token))
  {
    hide Apply, Inv, MayChange, RowOk;
    ReachableInv(cfg, s);
    InvGivesRow(cfg, s, id);
    HeldThroughout(cfg, s, trace[..k], id, token);
    var before := Run(cfg, s, trace[..k]);
    ReachableOn(cfg, s, trace[..k]);
    ReachableInv(cfg, before);
    InvGivesRow(cfg, before, id);
    LeasePeriodStep(cfg, before, trace[k], id, token);
  }

  lemma {:induction false} HeldThroughout(cfg: Config, s: System, trace: seq<Action>, id: Id, token: Id)
    requires cfg.Valid() && Reachable(cfg, s) && WellFormed(s) && id in s.rows && HeldOrOver(s.rows[id], token)
    requires forall i :: 0 <= i < |trace| ==> !(trace[i].Acquire? && trace[i].runId == id)
    ensures HeldOrOver(Run(cfg, s, trace).rows[id], token)
    decreases |trace|
  {
    hide Apply, Inv, MayChange, RowOk;
    if trace != [] {
      var init := trace[..|trace| - 1];
      HeldThroughout(cfg, s, init, id, token);
      ReachableOn(cfg, s, init);
      ReachableInv(cfg, Run(cfg, s, init));
      InvGivesRow(cfg, Run(cfg, s, init), id);
      LeasePeriodStep(cfg, Run(cfg, s, init), trace[|trace| - 1], id, token);
    }
  }

  // ----- verification retries ------------------------------------------------------------------

  lemma {:induction false} StatementsCountVerifications(st: Statement, row: Row, now: Time)
    ensures var row' := Execute(st, row, now);
            row'.verificationAttempt
            == row.verificationAttempt + (if st.RetryVerification? && Matches(st, row, now) then 1 else 0)
  {
  }

  /** How many of a run's RetryVerification statements wrote the row. */
  ghost function EffectiveRetries(cfg: Config, s: System, trace: seq<Action>, id: Id): nat
    requires WellFormed(s) && id in s.rows
    decreases |trace|
  {
    if trace == [] then 0
    else
      var mid, a := Run(cfg, s, trace[..|trace| - 1]), trace[|trace| - 1];
      var st := StatementOn(cfg, mid, a, id);
      EffectiveRetries(cfg, s, trace[..|trace| - 1], id)
      + if st.Some? && st.value.RetryVerification? && Matches(st.value, mid.rows[id], mid.now) then 1 else 0
  }

  lemma {:induction false} RetriesAreCounted(cfg: Config, s: System, trace: seq<Action>, id: Id)
    requires WellFormed(s) && id in s.rows
    ensures Run(cfg, s, trace).rows[id].verificationAttempt
         == s.rows[id].verificationAttempt + EffectiveRetries(cfg, s, trace, id)
    decreases |trace|
  {
    if trace != [] {
      var mid, a := Run(cfg, s, trace[..|trace| - 1]), trace[|trace| - 1];
      RetriesAreCounted(cfg, s, trace[..|trace| - 1], id);
      RowsChangeByStatements(cfg, mid, a, id);
      match StatementOn(cfg, mid, a, id)
      case None =>
      case Some(st) => StatementsCountVerifications(st, mid.rows[id], mid.now);
    }
  }

  /** At most maxVerification retries ever take effect for a run, fewer while it is unfinished, and the one
      that reaches the bound fails it. */
  lemma {:induction false} RetriesAreBounded(cfg: Config, s: System, trace: seq<Action>, id: Id)
    requires cfg.Valid() && Reachable(cfg, s) && id in s.rows
    ensures var s' := Run(cfg, s, trace);
            && id in s'.rows
            && EffectiveRetries(cfg, s, trace, id) <= cfg.maxVerification
            && (!s'.rows[id].status.Terminal() ==> EffectiveRetries(cfg, s, trace, id) < cfg.maxVerification)
            && (EffectiveRetries(cfg, s, trace, id) == cfg.maxVerification ==>
                  s'.rows[id].verificationAttempt == cfg.maxVerification)
            && (s'.rows[id].verificationAttempt == cfg.maxVerification ==>
                  s'.rows[id].status.Failed? && s'.rows[id].failure == Some(PublicationVerificationFailed))
  {
    RetriesAreCounted(cfg, s, trace, id);
    ReachableOn(cfg, s, trace);
    var s' := Run(cfg, s, trace);
    ReachableInv(cfg, s');
    assert RowOk(cfg, s'.now, s'.issued, s'.rows[id], s'.effects[id]);
  }

  /** An activation that still holds its lease remembers the number of retries that is in its row. */
  lemma {:induction false} HolderKnowsItsRetries(cfg: Config, s: System, token: Id)
    requires cfg.Valid() && Reachable(cfg, s) && token in s.sessions
    requires HasToken(s.rows[s.sessions[token].runId], token)
    ensures s.sessions[token].verificationAttempt == s.rows[s.sessions[token].runId].verificationAttempt
  {
    ReachableInv(cfg, s);
    InvGivesInvAt(cfg, s, token);
    hide Inv, RowOk;
  }

  lemma {:induction false} RetryStatement(cfg: Config, s: System, a: Action, id: Id)
    requires WellFormed(s) && id in s.rows
    requires StatementOn(cfg, s, a, id).Some? && StatementOn(cfg, s, a, id).value.RetryVerification?
    ensures a.Work? && a.token in s.sessions && s.sessions[a.token].runId == id
    ensures var sess := s.sessions[a.token];
            StatementOn(cfg, s, a, id).value
            == RetryVerification(sess.worker, a.token, cfg.maxVerification,
                                 Delay(cfg.verificationBackoff, sess.verificationAttempt))
  {
  }

  /** Whoever sends it and whatever it remembers, the retry that takes effect after k others waits exactly base times
      two to the k, held at five minutes; the one that reaches the bound fails the run instead. */
  lemma {:induction false} RetryWaitsItsDelay(cfg: Config, s: System, a: Action, id: Id)
    requires cfg.Valid() && Reachable(cfg, s) && WellFormed(s) && id in s.rows
    ensures var row, row' := s.rows[id], Apply(cfg, s, a).rows[id];
            row'.verificationAttempt != row.verificationAttempt ==>
              && row'.verificationAttempt == row.verificationAttempt + 1
              && if row'.verificationAttempt >= cfg.maxVerification then
                   row'.status.Failed? && row'.failure == Some(PublicationVerificationFailed)
                 else
                   && row'.status.Queued? && row'.publicationPending
                   && row'.retryAt == Some(s.now + Delay(cfg.verificationBackoff, row.verificationAttempt))
  {
    hide Reachable, Apply, StatementOn, Delay;
    RowsChangeByStatements(cfg, s, a, id);
    var row := s.rows[id];
    match StatementOn(cfg, s, a, id)
    case None =>
    case Some(st) =>
      StatementsCountVerifications(st, row, s.now);
      if st.RetryVerification? && Matches(st, row, s.now) {
        RetryStatement(cfg, s, a, id);
        HoldersOnly(st, row, s.now);
        HolderKnowsItsRetries(cfg, s, a.token);
      }
  }
}
