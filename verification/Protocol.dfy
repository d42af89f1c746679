/**
 The whole system as a step machine: the ledger, the sink, MERGE statements in flight, and any number
 of executeOne activations (api/worker.go), each identified by the lease token it was given.

 An action names one atomic step together with every choice the environment makes in it (which run
 is leased, what the executor reports, whether a call fails, which fresh identifier is drawn). An
 action that is not possible leaves the system as it is, so a run of the system is any sequence of
 actions. A store call that returns an error makes executeOne return, so it is a Crash before the
 step (the statement was lost) or after it (the reply was lost).
 */
module Protocol {
  import opened Wrappers
  import opened Ledger
  import opened Sink
  import opened Backoff

  datatype Config = Config(
    lease: Time, callbackLease: Time, maxAttempts: nat, maxVerification: nat, verificationBackoff: nat)
  {
    predicate Valid() {
      maxAttempts > 0 && maxVerification > 0
    }
  }

  /** Where an executeOne activation stands; each constructor is the next atomic step. */
  datatype Pc =
    | Leased                     // LeaseNext has returned, nothing done yet
    | Executing                  // inside w.execute
    | Judging                    // the outcome (or error) is known, flags not yet read
    | ToMarkCanceled
    | ToFail
    | ToFailOutcome(failure: Failure)
    | ToStage
    | StageRefused
    | CheckPublisher
    | Fence                      // heartbeat before the publication cutoff
    | ToMarkPending
    | ToPublish                  // publication_pending is durable, MERGE not issued
    | AwaitingMerge
    | ReadingBack                // verifyPayload inside Publish
    | Verifying                  // reconcilePublication
    | ToRetry
    | ToFailConflict
    | ToComplete
    | Done
  {
    /** The steps at which the activation works on a result that is already in the ledger. */
    predicate Staged() {
      CheckPublisher? || Fence? || ToMarkPending? || Published() || this == ToFailOutcome(ResultStoreUnavailable)
    }

    /** The steps after the publication cutoff. */
    predicate Published() {
      ToPublish? || AwaitingMerge? || ReadingBack? || Verifying? || ToRetry? || ToFailConflict? || ToComplete?
    }

    /** The steps of a fresh activation before its result is in the ledger. */
    predicate Unstaged() {
      Leased? || Executing? || Judging? || ToFail? || this == ToFailOutcome(CheckMalfunction) || ToStage?
    }
  }

  /** The local variables of executeOne: recovered is run.Result as leased, pending is
      run.PublicationPending, outcome is None when the executor returned an error or panicked. */
  datatype Session = Session(
    runId: Id, worker: Id, pc: Pc, recovered: Option<Outcome>, pending: bool, verificationAttempt: nat,
    outcome: Option<Outcome>, cancelSeen: bool, leaseLost: bool)

  /** What has happened outside the ledger on behalf of a run, for stating how often it can happen. */
  datatype Effects = Effects(
    freshLeases: set<Id>,        // leases handed out while no result was staged
    executions: seq<Id>,         // activations that entered w.execute, in order
    cutoff: Option<Id>,          // the activation that made publication_pending durable
    merges: nat)                 // MERGE statements issued

  datatype System = System(
    now: Time,
    issued: set<Id>,
    rows: map<Id, Row>,
    effects: map<Id, Effects>,
    sessions: map<Id, Session>,
    merges: set<SinkRow>,
    table: seq<SinkRow>)

  const INIT: System := System(0, {}, map[], map[], map[], {}, [])

  /** The environment's answers to one step of an activation. */
  datatype Oracle = Oracle(report: Option<Outcome>, ok: bool, verifier: bool)

  datatype Action =
    | Tick(elapsed: nat)
    | Submit(runId: Id, requestId: Id, resultId: Id, createdAt: Time, callback: Option<(Id, Id)>)
    | RequestCancel(runId: Id)
    | Recover                                     // RecoverCanceled, all rows at once
    | Exhaust                                     // FailExhausted, all rows at once
    | Acquire(runId: Id, worker: Id, token: Id)   // LeaseNext
    | Work(token: Id, oracle: Oracle)             // the next step of an activation
    | Beat(token: Id, fault: bool)                // one round of the heartbeat goroutine
    | Crash(token: Id)
    | Land(source: SinkRow)                       // an issued MERGE takes effect, possibly late or again
    | Claim(runId: Id, token: Id)                 // ClaimNextCallback
    | Settle(runId: Id, token: Id, settlement: Settlement)

  ghost predicate WellFormed(s: System) {
    && s.effects.Keys == s.rows.Keys
    && forall t :: t in s.sessions ==> s.sessions[t].runId in s.rows
  }

  function Update(s: System, id: Id, st: Statement): System
    requires id in s.rows
  {
    s.(rows := s.rows[id := Execute(st, s.rows[id], s.now)])
  }

  function UpdateAll(s: System, st: Statement): System {
    s.(rows := map id | id in s.rows :: Execute(st, s.rows[id], s.now))
  }

  predicate Wrote(s: System, id: Id, st: Statement) {
    id in s.rows && Matches(st, s.rows[id], s.now)
  }

  function Goto(s: System, token: Id, pc: Pc): System
    requires token in s.sessions
  {
    s.(sessions := s.sessions[token := s.sessions[token].(pc := pc)])
  }

  /** The statement an activation at a writing step sends. */
  function StatementOf(cfg: Config, token: Id, sess: Session): Option<Statement> {
    match sess.pc
    case ToMarkCanceled => Some(MarkCanceled(sess.worker, token))
    case ToFail => Some(Fail(sess.worker, token, ExecutionFailed))
    case ToFailOutcome(f) =>
      if sess.outcome.Some? then Some(FailOutcome(sess.worker, token, sess.outcome.value, f)) else None
    case ToStage =>
      if sess.outcome.Some? then Some(StageOutcome(sess.worker, token, sess.outcome.value)) else None
    case StageRefused => Some(Heartbeat(sess.worker, token, cfg.lease))
    case Fence => Some(Heartbeat(sess.worker, token, cfg.lease))
    case ToMarkPending => Some(MarkPublicationPending(sess.worker, token))
    case ToRetry =>
      Some(RetryVerification(sess.worker, token, cfg.maxVerification,
                             Delay(cfg.verificationBackoff, sess.verificationAttempt)))
    case ToFailConflict => Some(FailPublicationConflict(sess.worker, token))
    case ToComplete =>
      if sess.outcome.Some? then Some(CompletePublished(sess.worker, token, sess.outcome.value)) else None
    case _ => None
  }

  /** Where the activation goes after its statement, given whether a row was written and, for a
      heartbeat, the cancel_requested it returned. */
  function AfterStatement(pc: Pc, written: bool, cancelRequested: bool): Pc {
    match pc
    case ToStage => if written then CheckPublisher else StageRefused
    case StageRefused => if written && cancelRequested then ToMarkCanceled else Done
    case Fence => if !written then Done else if cancelRequested then ToMarkCanceled else ToMarkPending
    case ToMarkPending => if written then ToPublish else Done
    case _ => Done
  }

  function AfterJudging(sess: Session): Pc {
    if sess.cancelSeen && !sess.pending then ToMarkCanceled
    else if sess.leaseLost then Done
    else if sess.outcome.None? then ToFail
    else if sess.outcome.value.malfunction then ToFailOutcome(CheckMalfunction)
    else if sess.recovered.None? then ToStage
    else CheckPublisher
  }

  function AfterCheckPublisher(sess: Session, oracle: Oracle): Pc {
    if !oracle.ok || sess.outcome.None? || sess.outcome.value.resultRef.None? then
      (if sess.pending then ToRetry else ToFailOutcome(ResultStoreUnavailable))
    else if !sess.pending then Fence
    else if oracle.verifier then Verifying
    else ToRetry
  }

  function Ambiguous(oracle: Oracle): Pc {
    if oracle.verifier then Verifying else ToRetry
  }

  function AfterReconciling(readback: Readback, oracle: Oracle): Pc {
    if !oracle.ok then ToRetry
    else match readback
         case Exact => ToComplete
         case Absent => ToRetry
         case Conflict => ToFailConflict
  }

  function Published(sess: Session): SinkRow
    requires sess.outcome.Some?
  {
    SinkRow(sess.outcome.value.runId, sess.outcome.value.resultId, sess.outcome.value)
  }

  function WriteStep(cfg: Config, s: System, token: Id, st: Statement): (s': System)
    requires WellFormed(s) && token in s.sessions
    ensures WellFormed(s') && s'.rows.Keys == s.rows.Keys
  {
    var sess := s.sessions[token];
    var id := sess.runId;
    var written := Wrote(s, id, st);
    var marking := sess.pc.ToMarkPending? && written;
    var next := sess.(pc := AfterStatement(sess.pc, written, s.rows[id].cancelRequested),
                      pending := sess.pending || marking);
    var noted := if marking then s.effects[id].(cutoff := Some(token)) else s.effects[id];
    Update(s, id, st).(sessions := s.sessions[token := next], effects := s.effects[id := noted])
  }

  /** What a step without a statement leaves: the activation, its effects, the issued MERGEs. */
  datatype Local = Local(sess: Session, seen: Effects, merges: set<SinkRow>)

  function Going(s: System, token: Id, pc: Pc): Local
    requires WellFormed(s) && token in s.sessions
  {
    Local(s.sessions[token].(pc := pc), s.effects[s.sessions[token].runId], s.merges)
  }

  function LocalNext(s: System, token: Id, oracle: Oracle): Local
    requires WellFormed(s) && token in s.sessions
  {
    var sess := s.sessions[token];
    var seen := s.effects[sess.runId];
    match sess.pc
    case Leased =>
      if sess.recovered.Some? then Local(sess.(pc := Judging, outcome := sess.recovered), seen, s.merges)
      else Local(sess.(pc := Executing), seen.(executions := seen.executions + [token]), s.merges)
    case Executing =>
      var reported := match oracle.report
                      case None => None
                      case Some(out) => Some(out.(runId := sess.runId, resultId := s.rows[sess.runId].resultId));
      Local(sess.(pc := Judging, outcome := reported), seen, s.merges)
    case Judging => Going(s, token, AfterJudging(sess))
    case CheckPublisher => Going(s, token, AfterCheckPublisher(sess, oracle))
    case ToPublish =>
      if oracle.ok && sess.outcome.Some? && sess.outcome.value.Authoritative() then
        Local(sess.(pc := AwaitingMerge), seen.(merges := seen.merges + 1), s.merges + {Published(sess)})
      else
        Going(s, token, ToRetry)
    case AwaitingMerge =>
      if !oracle.ok then Going(s, token, Ambiguous(oracle))
      else if sess.outcome.Some? && Stored(s.table, sess.outcome.value.resultId) != [] then Going(s, token, ReadingBack)
      else Local(sess, seen, s.merges)
    case ReadingBack =>
      if oracle.ok && sess.outcome.Some? && ReadbackOf(s.table, Published(sess)).Exact? then Going(s, token, ToComplete)
      else Going(s, token, Ambiguous(oracle))
    case Verifying =>
      if sess.outcome.Some? then Going(s, token, AfterReconciling(ReadbackOf(s.table, Published(sess)), oracle))
      else Going(s, token, ToRetry)
    case _ => Local(sess, seen, s.merges)
  }

  function LocalStep(cfg: Config, s: System, token: Id, oracle: Oracle): (s': System)
    requires WellFormed(s) && token in s.sessions
    ensures WellFormed(s') && s'.rows.Keys == s.rows.Keys
  {
    var next := LocalNext(s, token, oracle);
    s.(sessions := s.sessions[token := next.sess],
       effects := s.effects[s.sessions[token].runId := next.seen],
       merges := next.merges)
  }

  function WorkStep(cfg: Config, s: System, token: Id, oracle: Oracle): (s': System)
    requires WellFormed(s) && token in s.sessions
    ensures WellFormed(s') && s'.rows.Keys == s.rows.Keys
  {
    match StatementOf(cfg, token, s.sessions[token])
    case Some(st) => WriteStep(cfg, s, token, st)
    case None => LocalStep(cfg, s, token, oracle)
  }

  /** One round of the heartbeat goroutine; a fault stands for errors lasting a whole lease. */
  function BeatStep(cfg: Config, s: System, token: Id, fault: bool): (s': System)
    requires WellFormed(s) && token in s.sessions
    ensures WellFormed(s') && s'.rows.Keys == s.rows.Keys
  {
    var sess := s.sessions[token];
    var st := Heartbeat(sess.worker, token, cfg.lease);
    if sess.pc.Done? || sess.leaseLost then s
    else if fault || !Wrote(s, sess.runId, st) then
      s.(sessions := s.sessions[token := sess.(leaseLost := true)])
    else
      var seen := sess.(cancelSeen := sess.cancelSeen || s.rows[sess.runId].cancelRequested);
      Update(s, sess.runId, st).(sessions := s.sessions[token := seen])
  }

  /** LeaseNext commits the lease and starts an activation on the row it read back. */
  function AcquireStep(cfg: Config, s: System, id: Id, worker: Id, token: Id): (s': System)
    requires WellFormed(s) && id in s.rows
    ensures WellFormed(s') && s'.rows.Keys == s.rows.Keys
  {
    var st := LeaseNext(worker, token, cfg.lease, cfg.maxAttempts);
    if token in s.issued || !Wrote(s, id, st) then s
    else
      var row := s.rows[id];
      var recovered := if row.resultPayload.Some? then row.resultPayload else row.response;
      var seen := s.effects[id];
      var noted := if row.response.None? then seen.(freshLeases := seen.freshLeases + {token}) else seen;
      Update(s, id, st).(
        issued := s.issued + {token},
        effects := s.effects[id := noted],
        sessions := s.sessions[token := Session(id, worker, Leased, recovered, row.publicationPending,
                                                row.verificationAttempt, None, false, false)])
  }

  function SubmitStep(s: System, a: Action): (s': System)
    requires WellFormed(s) && a.Submit?
    ensures WellFormed(s') && s.rows.Keys <= s'.rows.Keys
  {
    if a.runId in s.rows || (exists id :: id in s.rows && s.rows[id].resultId == a.resultId)
       || (exists id :: id in s.rows && s.rows[id].requestId == a.requestId)
    then s
    else
      s.(rows := s.rows[a.runId := NewRow(a.runId, a.requestId, a.resultId, a.createdAt, a.callback)],
         effects := s.effects[a.runId := Effects({}, [], None, 0)])
  }

  function Apply(cfg: Config, s: System, a: Action): (s': System)
    requires WellFormed(s)
    ensures WellFormed(s') && s.rows.Keys <= s'.rows.Keys
  {
    match a
    case Tick(elapsed) => s.(now := s.now + elapsed)
    case Submit(_, _, _, _, _) => SubmitStep(s, a)
    case RequestCancel(id) => if id in s.rows then Update(s, id, Cancel) else s
    case Recover => UpdateAll(s, RecoverCanceled)
    case Exhaust => UpdateAll(s, FailExhausted(cfg.maxAttempts))
    case Acquire(id, worker, token) => if id in s.rows then AcquireStep(cfg, s, id, worker, token) else s
    case Work(token, oracle) => if token in s.sessions then WorkStep(cfg, s, token, oracle) else s
    case Beat(token, fault) => if token in s.sessions then BeatStep(cfg, s, token, fault) else s
    case Crash(token) => if token in s.sessions then Goto(s, token, Done) else s
    case Land(source) => if source in s.merges then s.(table := Merge(s.table, source)) else s
    case Claim(id, token) =>
      if id in s.rows && token !in s.issued && Wrote(s, id, ClaimNextCallback(token, cfg.callbackLease)) then
        Update(s, id, ClaimNextCallback(token, cfg.callbackLease)).(issued := s.issued + {token})
      else s
    case Settle(id, token, settlement) =>
      if id in s.rows then Update(s, id, SettleCallback(token, settlement)) else s
  }

  /** A run of the system: any sequence of actions, taken in order. */
  function Run(cfg: Config, s: System, trace: seq<Action>): (s': System)
    requires WellFormed(s)
    ensures WellFormed(s') && s.rows.Keys <= s'.rows.Keys
    decreases |trace|
  {
    if trace == [] then s else Apply(cfg, Run(cfg, s, trace[..|trace| - 1]), trace[|trace| - 1])
  }

  lemma {:induction false} RunAppend(cfg: Config, s: System, first: seq<Action>, second: seq<Action>)
    requires WellFormed(s)
    ensures Run(cfg, s, first + second) == Run(cfg, Run(cfg, s, first), second)
    decreases |second|
  {
    if second == [] {
      assert first + second == first;
    } else {
      assert (first + second)[..|first + second| - 1] == first + second[..|second| - 1];
      RunAppend(cfg, s, first, second[..|second| - 1]);
    }
  }

  lemma {:induction false} RunNothing(cfg: Config, s: System)
    requires WellFormed(s)
    ensures Run(cfg, s, []) == s
  {
  }

  lemma {:induction false} RunOne(cfg: Config, s: System, trace: seq<Action>, a: Action)
    requires WellFormed(s)
    ensures Run(cfg, s, trace + [a]) == Apply(cfg, Run(cfg, s, trace), a)
  {
    assert (trace + [a])[..|trace + [a]| - 1] == trace;
  }
}
