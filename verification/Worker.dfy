/**
 RunWorker of api/worker.go. executeOne is written out step by step against the store and the sink, with everything
 else in the system running between any two of its steps. Each step it takes is proved to be a step of the machine in
 Protocol, so every theorem about runs holds of it, and what it does, statement by statement, is proved to follow its
 Script.
 */
module Worker {
  import opened Wrappers
  import opened Ledger
  import opened Sink
  import opened Backoff
  import opened Protocol
  import opened Invariant
  import opened Preservation
  import opened Safety
  import opened Activations
  import RunStores

  class RunWorker {
    const cfg: Config
    const workerId: Id
    const store: RunStores.RunStore
    const sink: DatabricksSink

    /** The system as the machine sees it; the ledger and the sink of the world are the real ones. */
    var world: System

    /** The run of the machine that led here. */
    ghost var history: seq<Action>

    ghost predicate Valid()
      reads this, store, sink
    {
      && cfg.Valid()
      && world == Run(cfg, INIT, history)
      && store.rows == world.rows && store.now == world.now && sink.table == world.table
    }

    /** The activation stands where sess says. */
    ghost predicate At(token: Id, sess: Session)
      reads this
    {
      token in world.sessions && SameActivation(sess, world.sessions[token])
    }

    ghost predicate Ended(token: Id)
      reads this
    {
      token in world.sessions && world.sessions[token].pc.Done?
    }

    /** What the activation has done so far. */
    ghost function Done(token: Id): seq<Event>
      reads this
    {
      Record(cfg, history, token)
    }

    ghost function ScriptFor(token: Id, run: DurableRun, tape: nat -> Tick): Script {
      Script(cfg, workerId, token, run, Faultless(tape))
    }

    lemma {:induction false} ValidInv()
      requires Valid()
      ensures Inv(cfg, world)
    {
      InitInv(cfg);
      RunKeepsInv(cfg, INIT, history);
    }

    /** Every completed run in the ledger has exactly its staged bytes in the sink, once. */
    ghost predicate CompletedArePublished()
      reads store, sink
    {
      forall id :: id in store.rows && store.rows[id].status.Completed? ==>
        && store.rows[id].resultPayload.Some?
        && Stored(sink.table, store.rows[id].resultId)
           == [SinkRow(id, store.rows[id].resultId, store.rows[id].resultPayload.value)]
    }

    lemma {:induction false} ValidMeansPublished()
      requires Valid()
      ensures CompletedArePublished()
    {
      assert Reachable(cfg, world);
      forall id | id in store.rows && store.rows[id].status.Completed?
        ensures store.rows[id].resultPayload.Some?
        ensures Stored(sink.table, store.rows[id].resultId)
             == [SinkRow(id, store.rows[id].resultId, store.rows[id].resultPayload.value)]
      {
        CompletedMeansPublishedExactly(cfg, world, id);
      }
    }

    constructor (cfg: Config, workerId: Id)
      requires cfg.Valid()
      ensures Valid() && history == [] && world == INIT && this.cfg == cfg && this.workerId == workerId
      ensures fresh(store) && fresh(sink)
    {
      this.cfg := cfg;
      this.workerId := workerId;
      store := new RunStores.RunStore();
      sink := new DatabricksSink();
      world := INIT;
      history := [];
    }

    /** Everybody else moves. */
    method Others(token: Id, ghost sess: Session, tick: Tick)
      requires Valid() && At(token, sess)
      requires forall i :: 0 <= i < |tick.others| ==> Foreign(tick.others[i], token)
      modifies this, store, sink
      ensures Valid() && At(token, sess) && history == old(history) + tick.others && old(world.merges) <= world.merges
      ensures Done(token) == old(Done(token))
    {
      hide Run, Record;
      ValidInv();
      ForeignRun(cfg, world, tick.others, token);
      RecordForeign(cfg, history, tick.others, token);
      Everybody(tick.others);
    }

    /** The world moves without this worker. */
    method Everybody(moves: seq<Action>)
      requires Valid()
      modifies this, store, sink
      ensures Valid() && world == Run(cfg, old(world), moves) && history == old(history) + moves
    {
      hide Run;
      RunAppend(cfg, INIT, history, moves);
      world := Run(cfg, world, moves);
      history := history + moves;
      store.rows := world.rows;
      store.now := world.now;
      sink.table := world.table;
    }

    /** The machine follows a step the worker has just taken on the store and the sink. */
    method Advance(token: Id, oracle: Oracle)
      requires cfg.Valid() && world == Run(cfg, INIT, history) && token in world.sessions
      requires var next := Apply(cfg, world, Work(token, oracle));
               store.rows == next.rows && store.now == next.now && sink.table == next.table
      modifies this
      ensures Valid() && world == Apply(cfg, old(world), Work(token, oracle))
      ensures history == old(history) + [Work(token, oracle)]
      ensures Done(token) == old(Done(token) + StepEvents(cfg, world, token, oracle))
    {
      hide Record, StepEvents;
      RunOne(cfg, INIT, history, Work(token, oracle));
      RecordOne(cfg, history, Work(token, oracle), token);
      world := Apply(cfg, world, Work(token, oracle));
      history := history + [Work(token, oracle)];
    }

    /** An error made executeOne return. */
    method Abandon(token: Id)
      requires Valid() && token in world.sessions
      modifies this
      ensures Valid() && Ended(token) && history == old(history) + [Crash(token)]
      ensures Done(token) == old(Done(token))
    {
      hide Record;
      RunOne(cfg, INIT, history, Crash(token));
      RecordOne(cfg, history, Crash(token), token);
      world := Apply(cfg, world, Crash(token));
      history := history + [Crash(token)];
    }

    /** The store call for a fenced statement. */
    method Dispatch(id: Id, st: Statement) returns (written: bool, cancel: bool)
      requires id in store.rows && st.Fenced()
      modifies store`rows
      ensures store.rows == old(store.rows)[id := Execute(st, old(store.rows)[id], store.now)]
      ensures written == Matches(st, old(store.rows)[id], store.now)
      ensures cancel == (st.Heartbeat? && written && old(store.rows)[id].cancelRequested)
    {
      hide Matches, Execute;
      cancel := false;
      match st
      case Heartbeat(worker, token, lease) => cancel, written := store.Heartbeat(id, worker, token, lease);
      case StageOutcome(worker, token, outcome) => written := store.StageOutcome(id, worker, token, outcome);
      case MarkPublicationPending(worker, token) => written := store.MarkPublicationPending(id, worker, token);
      case CompletePublished(worker, token, outcome) => written := store.CompletePublished(id, worker, token, outcome);
      case Fail(worker, token, failure) => written := store.Fail(id, worker, token, failure);
      case FailOutcome(worker, token, outcome, failure) =>
        written := store.FailOutcome(id, worker, token, outcome, failure);
      case MarkCanceled(worker, token) => written := store.MarkCanceled(id, worker, token);
      case RetryVerification(worker, token, max, delay) =>
        written := store.RetryVerification(id, worker, token, max, delay);
      case FailPublicationConflict(worker, token) => written := store.FailPublicationConflict(id, worker, token);
    }

    /** One store call of executeOne: the statement its next step asks for. Without an answer executeOne returns,
        whether the statement was lost or only the answer. */
    method Send(token: Id, ghost sess: Session, st: Statement, tape: nat -> Tick, at: nat)
      returns (err: bool, written: bool, cancel: bool, ghost sent: seq<Event>)
      requires Valid() && At(token, sess) && StatementOf(cfg, token, sess) == Some(st) && ForeignTape(tape, token)
      modifies this, store, sink
      ensures Valid() && Went(old(history), history, token, Faultless(tape))
      ensures Done(token) == old(Done(token)) + sent
      ensures Faultless(tape) ==> !err
      ensures err ==> Ended(token) && (sent == [] || (|sent| == 1 && sent[0].Sent? && sent[0].st == st))
      ensures !err ==> sent == [Sent(st, written, cancel)]
      ensures !err ==> At(token, sess.(pc := AfterStatement(sess.pc, written, cancel),
                                       pending := sess.pending || (sess.pc.ToMarkPending? && written)))
      ensures !err && AfterStatement(sess.pc, written, cancel).Done? ==> Ended(token)
    {
      hide Run, Apply, Record, StatementOf, AfterStatement;
      var tick := tape(at);
      Others(token, sess, tick);
      SameStatement(cfg, token, sess, world.sessions[token]);
      if tick.reply.RequestLost? {
        Abandon(token);
        return true, false, false, [];
      }
      written, cancel := Commit(token, sess, tick.oracle, st);
      sent := [Sent(st, written, cancel)];
      err := tick.reply.ReplyLost?;
      if err {
        Abandon(token);
      }
    }

    /** The statement reaches the store, and the machine follows. */
    method Commit(token: Id, ghost sess: Session, oracle: Oracle, st: Statement) returns (written: bool, cancel: bool)
      requires Valid() && At(token, sess) && StatementOf(cfg, token, world.sessions[token]) == Some(st)
      modifies this, store
      ensures Valid() && history == old(history) + [Work(token, oracle)]
      ensures Done(token) == old(Done(token)) + [Sent(st, written, cancel)]
      ensures At(token, sess.(pc := AfterStatement(sess.pc, written, cancel),
                              pending := sess.pending || (sess.pc.ToMarkPending? && written)))
    {
      hide Run, Apply, Record, Matches, Execute, StatementOf, StepEvents, AfterStatement;
      FencedStep(cfg, world, token, oracle, st);
      written, cancel := Dispatch(world.sessions[token].runId, st);
      Advance(token, oracle);
    }

    /** A store call after which executeOne returns. */
    method Finish(token: Id, ghost sess: Session, st: Statement, ghost script: Script, tape: nat -> Tick, at: nat)
      returns (ghost sent: seq<Event>)
      requires Valid() && At(token, sess) && StatementOf(cfg, token, sess) == Some(st) && ForeignTape(tape, token)
      requires script.full == Faultless(tape)
      requires sess.pc.ToMarkCanceled? || sess.pc.ToFail? || sess.pc.ToFailOutcome? || sess.pc.ToFailConflict?
               || sess.pc.ToComplete? || sess.pc.ToRetry?
      modifies this, store, sink
      ensures Valid() && Went(old(history), history, token, Faultless(tape)) && Ended(token)
      ensures Done(token) == old(Done(token)) + sent && script.Sends(st, sent)
    {
      hide Valid, Record, StatementOf;
      var err, written, cancel;
      err, written, cancel, sent := Send(token, sess, st, tape, at);
    }

    /** retryVerification: queues another verification, or fails the run when they are used up. */
    method RetryVerification(token: Id, ghost sess: Session, run: DurableRun, tape: nat -> Tick, at: nat)
      returns (ghost sent: seq<Event>)
      requires Valid() && At(token, sess) && sess.worker == workerId && sess.pc.ToRetry? && ForeignTape(tape, token)
      requires sess.verificationAttempt == run.verificationAttempt
      modifies this, store, sink
      ensures Valid() && Went(old(history), history, token, Faultless(tape)) && Ended(token)
      ensures Done(token) == old(Done(token)) + sent
      ensures var script := ScriptFor(token, run, tape); script.Sends(script.Retrial(), sent)
    {
      hide Valid, Record;
      var delay := VerificationDelay(cfg.verificationBackoff, run.verificationAttempt);
      var st := Statement.RetryVerification(workerId, token, cfg.maxVerification, delay);
      sent := Finish(token, sess, st, ScriptFor(token, run, tape), tape, at);
    }

    /** LeaseNext has returned: take over the recovered result, or enter the executor. */
    method Begin(token: Id, ghost sess: Session, tick: Tick, result: Option<Outcome>)
      requires Valid() && At(token, sess) && sess.pc.Leased? && sess.recovered == result
      requires forall i :: 0 <= i < |tick.others| ==> Foreign(tick.others[i], token)
      modifies this, store, sink
      ensures Valid() && Went(old(history), history, token, true)
      ensures At(token, if result.Some? then sess.(pc := Judging, outcome := result) else sess.(pc := Executing))
      ensures Done(token) == old(Done(token)) + if result.Some? then [] else [Entered]
    {
      hide Run, Apply, Record;
      Others(token, sess, tick);
      ThinkingStep(cfg, world, token, tick.oracle);
      Advance(token, tick.oracle);
    }

    /** w.execute: an error or panic, or an outcome carrying the identity of the run. */
    method RunExecutor(token: Id, ghost sess: Session, tick: Tick) returns (outcome: Option<Outcome>)
      requires Valid() && At(token, sess) && sess.pc.Executing? && sess.outcome.None?
      requires forall i :: 0 <= i < |tick.others| ==> Foreign(tick.others[i], token)
      modifies this, store, sink
      ensures Valid() && Went(old(history), history, token, true)
      ensures At(token, sess.(pc := Judging, outcome := outcome))
      ensures Done(token) == old(Done(token)) + [Reported(outcome)]
    {
      hide Run, Apply, Record;
      Others(token, sess, tick);
      ThinkingStep(cfg, world, token, tick.oracle);
      var id := world.sessions[token].runId;
      outcome := match tick.oracle.report
                 case None => None
                 case Some(out) => Some(out.(runId := id, resultId := store.rows[id].resultId));
      Advance(token, tick.oracle);
    }

    /** Reads the two flags the heartbeat goroutine sets. */
    method ReadFlags(token: Id, ghost sess: Session, tick: Tick) returns (cancelSeen: bool, leaseLost: bool)
      requires Valid() && At(token, sess) && sess.pc.Judging?
      requires forall i :: 0 <= i < |tick.others| ==> Foreign(tick.others[i], token)
      modifies this, store, sink
      ensures Valid() && Went(old(history), history, token, true)
      ensures At(token, sess.(pc := AfterJudging(sess.(cancelSeen := cancelSeen, leaseLost := leaseLost))))
      ensures AfterJudging(sess.(cancelSeen := cancelSeen, leaseLost := leaseLost)).Done? ==> Ended(token)
      ensures Done(token) == old(Done(token)) + [Judged(cancelSeen, leaseLost)]
    {
      hide Run, Apply, Record;
      Others(token, sess, tick);
      ThinkingStep(cfg, world, token, tick.oracle);
      cancelSeen := world.sessions[token].cancelSeen;
      leaseLost := world.sessions[token].leaseLost;
      Advance(token, tick.oracle);
    }

    /** w.publisher == nil || outcome.ResultRef == nil */
    method PublisherAvailable(token: Id, ghost sess: Session, tick: Tick, outcome: Outcome)
      returns (available: bool, verifier: bool)
      requires Valid() && At(token, sess) && sess.pc.CheckPublisher? && sess.outcome == Some(outcome)
      requires forall i :: 0 <= i < |tick.others| ==> Foreign(tick.others[i], token)
      modifies this, store, sink
      ensures Valid() && Went(old(history), history, token, true)
      ensures available == (tick.oracle.ok && outcome.resultRef.Some?)
      ensures At(token, sess.(pc :=
                  if !available then (if sess.pending then ToRetry else ToFailOutcome(ResultStoreUnavailable))
                  else if !sess.pending then Fence
                  else if verifier then Verifying
                  else ToRetry))
      ensures Done(token) == old(Done(token))
    {
      hide Run, Apply, Record;
      Others(token, sess, tick);
      ThinkingStep(cfg, world, token, tick.oracle);
      available := tick.oracle.ok && outcome.resultRef.Some?;
      verifier := tick.oracle.verifier;
      Advance(token, tick.oracle);
    }

    /** The checks of Publish, then the MERGE is on its way. */
    method IssueMerge(token: Id, ghost sess: Session, tick: Tick, outcome: Outcome) returns (issued: bool)
      requires Valid() && At(token, sess) && sess.pc.ToPublish? && sess.outcome == Some(outcome)
      requires forall i :: 0 <= i < |tick.others| ==> Foreign(tick.others[i], token)
      modifies this, store, sink
      ensures Valid() && Went(old(history), history, token, true)
      ensures At(token, sess.(pc := if issued then AwaitingMerge else ToRetry))
      ensures issued ==> SinkRow(outcome.runId, outcome.resultId, outcome) in world.merges
      ensures Done(token)
           == old(Done(token)) + if issued then [Merged(SinkRow(outcome.runId, outcome.resultId, outcome))] else []
    {
      hide Run, Apply, Record;
      Others(token, sess, tick);
      ThinkingStep(cfg, world, token, tick.oracle);
      issued := tick.oracle.ok && outcome.Authoritative();
      Advance(token, tick.oracle);
    }

    /** ExecContext returns: the MERGE has been applied, or nobody knows. */
    method AwaitMerge(token: Id, ghost sess: Session, tick: Tick, outcome: Outcome)
      returns (applied: bool, verifier: bool)
      requires Valid() && At(token, sess) && sess.pc.AwaitingMerge? && sess.outcome == Some(outcome)
      requires SinkRow(outcome.runId, outcome.resultId, outcome) in world.merges
      requires forall i :: 0 <= i < |tick.others| ==> Foreign(tick.others[i], token)
      modifies this, store, sink
      ensures Valid() && Went(old(history), history, token, true)
      ensures At(token, sess.(pc := if applied then ReadingBack else if verifier then Verifying else ToRetry))
      ensures Done(token) == old(Done(token))
    {
      hide Run, Apply, Record;
      Others(token, sess, tick);
      applied := tick.oracle.ok;
      verifier := tick.oracle.verifier;
      if applied {
        Land(token, sess, SinkRow(outcome.runId, outcome.resultId, outcome));
      }
      MergeReturns(token, sess, tick.oracle, outcome);
    }

    method MergeReturns(token: Id, ghost sess: Session, oracle: Oracle, outcome: Outcome)
      requires Valid() && At(token, sess) && sess.pc.AwaitingMerge? && sess.outcome == Some(outcome)
      requires oracle.ok ==> Stored(world.table, outcome.resultId) != []
      modifies this
      ensures Valid() && history == old(history) + [Work(token, oracle)]
      ensures At(token, sess.(pc := if oracle.ok then ReadingBack else Ambiguous(oracle)))
      ensures Done(token) == old(Done(token))
    {
      hide Record;
      ThinkingStep(cfg, world, token, oracle);
      Advance(token, oracle);
    }

    method Land(token: Id, ghost sess: Session, source: SinkRow)
      requires Valid() && At(token, sess) && source in world.merges
      modifies this, sink
      ensures Valid() && At(token, sess) && history == old(history) + [Protocol.Land(source)]
      ensures Stored(world.table, source.resultId) != []
      ensures Done(token) == old(Done(token))
    {
      hide Record;
      RunOne(cfg, INIT, history, Protocol.Land(source));
      RecordOne(cfg, history, Protocol.Land(source), token);
      MergeInsertsOnce(world.table, source, source.resultId);
      sink.ExecuteMerge(source);
      world := Apply(cfg, world, Protocol.Land(source));
      history := history + [Protocol.Land(source)];
    }

    /** verifyPayload, inside Publish or for reconcilePublication. */
    method Readback(token: Id, ghost sess: Session, tick: Tick, outcome: Outcome)
      returns (answered: bool, found: Readback)
      requires Valid() && At(token, sess) && (sess.pc.ReadingBack? || sess.pc.Verifying?)
               && sess.outcome == Some(outcome)
      requires forall i :: 0 <= i < |tick.others| ==> Foreign(tick.others[i], token)
      modifies this, store, sink
      ensures Valid() && Went(old(history), history, token, true) && answered == tick.oracle.ok
      ensures sess.pc.ReadingBack? ==>
                At(token, sess.(pc := if answered && found.Exact? then ToComplete else Ambiguous(tick.oracle)))
      ensures sess.pc.Verifying? ==> At(token, sess.(pc := AfterReconciling(found, tick.oracle)))
      ensures Done(token) == old(Done(token)) + [Read(answered, found)]
    {
      hide Run, Apply, Record, ReadbackOf;
      Others(token, sess, tick);
      ThinkingStep(cfg, world, token, tick.oracle);
      found := sink.VerifyPayload(SinkRow(outcome.runId, outcome.resultId, outcome));
      answered := tick.oracle.ok;
      Advance(token, tick.oracle);
    }

    /** reconcilePublication: complete on an exact row, retry on an absent row or an error, fail on a conflict. */
    method Reconcile(token: Id, ghost sess: Session, run: DurableRun, outcome: Outcome, tape: nat -> Tick, at: nat)
      returns (ghost steps: seq<Event>)
      requires Valid() && At(token, sess) && sess.worker == workerId && sess.pc.Verifying?
               && sess.outcome == Some(outcome)
      requires sess.verificationAttempt == run.verificationAttempt && ForeignTape(tape, token)
      modifies this, store, sink
      ensures Valid() && Went(old(history), history, token, Faultless(tape)) && Ended(token)
      ensures Done(token) == old(Done(token)) + steps && ScriptFor(token, run, tape).Reconciles(outcome, steps)
    {
      hide Valid, Record, At, Went, Script.Sends;
      ghost var script := ScriptFor(token, run, tape);
      ghost var before := history;
      ghost var sent;
      var answered, found := Readback(token, sess, tape(at), outcome);
      ghost var between := history;
      if answered && found.Exact? {
        sent := Finish(token, sess.(pc := ToComplete), CompletePublished(workerId, token, outcome), script, tape,
                       at + 1);
      } else if answered && found.Conflict? {
        sent := Finish(token, sess.(pc := ToFailConflict), FailPublicationConflict(workerId, token), script, tape,
                       at + 1);
      } else {
        sent := RetryVerification(token, sess.(pc := ToRetry), run, tape, at + 1);
      }
      WentOn(before, between, history, token, true, Faultless(tape));
      steps := [Read(answered, found)] + sent;
    }

    /** Without a verifier there is only the retry. */
    method ReconcileOrRetry(token: Id, ghost sess: Session, verifier: bool, run: DurableRun, outcome: Outcome,
                            tape: nat -> Tick, at: nat)
      returns (ghost steps: seq<Event>)
      requires Valid() && At(token, sess) && sess.worker == workerId && sess.outcome == Some(outcome)
      requires sess.pc == (if verifier then Verifying else ToRetry)
      requires sess.verificationAttempt == run.verificationAttempt && ForeignTape(tape, token)
      modifies this, store, sink
      ensures Valid() && Went(old(history), history, token, Faultless(tape)) && Ended(token)
      ensures Done(token) == old(Done(token)) + steps && ScriptFor(token, run, tape).Verifies(outcome, steps)
    {
      if verifier {
        steps := Reconcile(token, sess, run, outcome, tape, at);
      } else {
        steps := RetryVerification(token, sess, run, tape, at);
      }
    }

    /** publisher.Publish and what follows from its answer. */
    method Publish(token: Id, ghost sess: Session, run: DurableRun, outcome: Outcome, tape: nat -> Tick, at: nat)
      returns (ghost steps: seq<Event>)
      requires Valid() && At(token, sess) && sess.worker == workerId && sess.pc.ToPublish?
               && sess.outcome == Some(outcome)
      requires sess.verificationAttempt == run.verificationAttempt && ForeignTape(tape, token)
      modifies this, store, sink
      ensures Valid() && Went(old(history), history, token, Faultless(tape)) && Ended(token)
      ensures Done(token) == old(Done(token)) + steps && ScriptFor(token, run, tape).Publishes(outcome, steps)
    {
      hide Valid, Record, At, Went, Script.Sends, Script.AfterMerge;
      ghost var before := history;
      var issued := IssueMerge(token, sess, tape(at), outcome);
      ghost var between := history;
      if issued {
        ghost var rest := AfterTheMerge(token, sess.(pc := AwaitingMerge), run, outcome, tape, at + 1);
        steps := [Merged(SinkRow(outcome.runId, outcome.resultId, outcome))] + rest;
      } else {
        steps := RetryVerification(token, sess.(pc := ToRetry), run, tape, at + 1);
      }
      WentOn(before, between, history, token, true, Faultless(tape));
    }

    /** What Publish does with the answer to its MERGE. */
    method AfterTheMerge(token: Id, ghost sess: Session, run: DurableRun, outcome: Outcome, tape: nat -> Tick, at: nat)
      returns (ghost steps: seq<Event>)
      requires Valid() && At(token, sess) && sess.worker == workerId && sess.pc.AwaitingMerge?
               && sess.outcome == Some(outcome)
      requires SinkRow(outcome.runId, outcome.resultId, outcome) in world.merges
      requires sess.verificationAttempt == run.verificationAttempt && ForeignTape(tape, token)
      modifies this, store, sink
      ensures Valid() && Went(old(history), history, token, Faultless(tape)) && Ended(token)
      ensures Done(token) == old(Done(token)) + steps && ScriptFor(token, run, tape).AfterMerge(outcome, steps)
    {
      hide Valid, Record, At, Went, Script.Verifies;
      ghost var script := ScriptFor(token, run, tape);
      ghost var before := history;
      var applied, verifier := AwaitMerge(token, sess, tape(at), outcome);
      ghost var between := history;
      if applied {
        steps := ReadTheMerge(token, sess.(pc := ReadingBack), run, outcome, tape, at + 1);
      } else {
        steps := ReconcileOrRetry(token, sess.(pc := if verifier then Verifying else ToRetry), verifier, run, outcome,
                                  tape, at + 1);
      }
      WentOn(before, between, history, token, true, Faultless(tape));
    }

    /** verifyPayload inside Publish: the activation completes on an exact row and reconciles everything else. */
    method ReadTheMerge(token: Id, ghost sess: Session, run: DurableRun, outcome: Outcome, tape: nat -> Tick, at: nat)
      returns (ghost steps: seq<Event>)
      requires Valid() && At(token, sess) && sess.worker == workerId && sess.pc.ReadingBack?
               && sess.outcome == Some(outcome)
      requires sess.verificationAttempt == run.verificationAttempt && ForeignTape(tape, token)
      modifies this, store, sink
      ensures Valid() && Went(old(history), history, token, Faultless(tape)) && Ended(token)
      ensures Done(token) == old(Done(token)) + steps && ScriptFor(token, run, tape).AfterMerge(outcome, steps)
    {
      hide Valid, Record, At, Went, Script.Sends, Script.Verifies, Script.AfterMerge;
      ghost var script := ScriptFor(token, run, tape);
      ghost var before := history;
      ghost var rest;
      var answered, found := Readback(token, sess, tape(at), outcome);
      ghost var between := history;
      if answered && found.Exact? {
        rest := Finish(token, sess.(pc := ToComplete), CompletePublished(workerId, token, outcome), script, tape,
                       at + 1);
        script.CompletesOnExact(outcome, rest);
      } else {
        var verifier := tape(at).oracle.verifier;
        rest := ReconcileOrRetry(token, sess.(pc := Ambiguous(tape(at).oracle)), verifier, run, outcome, tape, at + 1);
        script.VerifiesAgain(outcome, Read(answered, found), rest);
      }
      WentOn(before, between, history, token, true, Faultless(tape));
      steps := [Read(answered, found)] + rest;
    }

    /** From the staged result on: the cutoff for a first publication, verification only for a recovered one. */
    method PublishOrReconcile(token: Id, ghost sess: Session, run: DurableRun, outcome: Outcome, tape: nat -> Tick,
                              at: nat)
      returns (ghost steps: seq<Event>)
      requires Valid() && At(token, sess) && sess.worker == workerId && sess.pc == CheckPublisher
               && sess.outcome == Some(outcome)
      requires sess.pending == run.publicationPending && sess.verificationAttempt == run.verificationAttempt
      requires ForeignTape(tape, token)
      modifies this, store, sink
      ensures Valid() && Went(old(history), history, token, Faultless(tape)) && Ended(token)
      ensures Done(token) == old(Done(token)) + steps
      ensures ScriptFor(token, run, tape).FromStaged(outcome, tape(at).oracle.ok && outcome.resultRef.Some?, steps)
    {
      hide Valid, Record, At, Went, Script.Sends, Script.Verifies, Script.Fences;
      ghost var script := ScriptFor(token, run, tape);
      ghost var before := history;
      var available, verifier := PublisherAvailable(token, sess, tape(at), outcome);
      ghost var between := history;
      if !available {
        if run.publicationPending {
          steps := RetryVerification(token, sess.(pc := ToRetry), run, tape, at + 1);
        } else {
          steps := Finish(token, sess.(pc := ToFailOutcome(ResultStoreUnavailable)),
                          FailOutcome(workerId, token, outcome, ResultStoreUnavailable), script, tape, at + 1);
        }
      } else if run.publicationPending {
        steps := ReconcileOrRetry(token, sess.(pc := if verifier then Verifying else ToRetry), verifier, run, outcome,
                                  tape, at + 1);
      } else {
        steps := FenceAndPublish(token, sess.(pc := Fence), run, outcome, tape, at + 1);
      }
      WentOn(before, between, history, token, true, Faultless(tape));
    }

    /** The heartbeat before the cutoff, the cutoff, and the publication. */
    method FenceAndPublish(token: Id, ghost sess: Session, run: DurableRun, outcome: Outcome, tape: nat -> Tick,
                           at: nat)
      returns (ghost steps: seq<Event>)
      requires Valid() && At(token, sess) && sess.worker == workerId && sess.pc == Fence
               && sess.outcome == Some(outcome)
      requires sess.verificationAttempt == run.verificationAttempt && ForeignTape(tape, token)
      modifies this, store, sink
      ensures Valid() && Went(old(history), history, token, Faultless(tape)) && Ended(token)
      ensures Done(token) == old(Done(token)) + steps && ScriptFor(token, run, tape).Fences(outcome, steps)
    {
      hide Valid, Record, At, Went, Script.Sends, Script.CutsOff;
      ghost var script := ScriptFor(token, run, tape);
      ghost var before := history;
      ghost var rest;
      var err, owned, cancel;
      err, owned, cancel, steps := Send(token, sess, Heartbeat(workerId, token, cfg.lease), tape, at);
      if err {
        script.BreaksOff(outcome);
        assert steps != [] ==> steps[1..] == [];
        return;
      }
      if !owned {
        return;
      }
      ghost var between := history;
      if cancel {
        rest := Finish(token, sess.(pc := ToMarkCanceled), MarkCanceled(workerId, token), script, tape, at + 1);
      } else {
        rest := CutOffAndPublish(token, sess.(pc := ToMarkPending), run, outcome, tape, at + 1);
      }
      WentOn(before, between, history, token, Faultless(tape), Faultless(tape));
      steps := steps + rest;
    }

    method CutOffAndPublish(token: Id, ghost sess: Session, run: DurableRun, outcome: Outcome, tape: nat -> Tick,
                            at: nat)
      returns (ghost steps: seq<Event>)
      requires Valid() && At(token, sess) && sess.worker == workerId && sess.pc == ToMarkPending
               && sess.outcome == Some(outcome)
      requires sess.verificationAttempt == run.verificationAttempt && ForeignTape(tape, token)
      modifies this, store, sink
      ensures Valid() && Went(old(history), history, token, Faultless(tape)) && Ended(token)
      ensures Done(token) == old(Done(token)) + steps && ScriptFor(token, run, tape).CutsOff(outcome, steps)
    {
      hide Valid, Record, At, Went, Script.Sends, Script.Publishes;
      ghost var script := ScriptFor(token, run, tape);
      ghost var before := history;
      var err, marked, cancel;
      err, marked, cancel, steps := Send(token, sess, MarkPublicationPending(workerId, token), tape, at);
      if err {
        script.BreaksOff(outcome);
        assert steps != [] ==> steps[1..] == [];
        return;
      }
      if !marked {
        return;
      }
      ghost var between := history;
      ghost var rest := Publish(token, sess.(pc := ToPublish, pending := true), run, outcome, tape, at + 1);
      WentOn(before, between, history, token, Faultless(tape), Faultless(tape));
      steps := steps + rest;
    }

    /** Staging and what follows; when it is refused, a requested cancellation is committed. */
    method StageAndPublish(token: Id, ghost sess: Session, run: DurableRun, outcome: Outcome, tape: nat -> Tick,
                           at: nat)
      returns (ghost steps: seq<Event>)
      requires Valid() && At(token, sess) && sess.worker == workerId && sess.pc.ToStage?
               && sess.outcome == Some(outcome)
      requires sess.pending == run.publicationPending && sess.verificationAttempt == run.verificationAttempt
      requires ForeignTape(tape, token)
      modifies this, store, sink
      ensures Valid() && Went(old(history), history, token, Faultless(tape)) && Ended(token)
      ensures Done(token) == old(Done(token)) + steps && ScriptFor(token, run, tape).Stages(outcome, steps)
    {
      hide Valid, Record, At, Went, Script.Refused, Script.Continues, Script.FromStaged;
      ghost var script := ScriptFor(token, run, tape);
      ghost var before := history;
      ghost var rest;
      var err, staged, cancel;
      err, staged, cancel, steps := Send(token, sess, StageOutcome(workerId, token, outcome), tape, at);
      if err {
        script.BreaksOff(outcome);
        assert steps != [] ==> steps[1..] == [];
        return;
      }
      ghost var between := history;
      if staged {
        rest := PublishOrReconcile(token, sess.(pc := CheckPublisher), run, outcome, tape, at + 1);
        script.ContinuesEither(outcome, tape(at + 1).oracle.ok && outcome.resultRef.Some?, rest);
      } else {
        rest := StagingRefused(token, sess.(pc := StageRefused), run, tape, at + 1);
      }
      WentOn(before, between, history, token, Faultless(tape), Faultless(tape));
      steps := steps + rest;
    }

    method StagingRefused(token: Id, ghost sess: Session, run: DurableRun, tape: nat -> Tick, at: nat)
      returns (ghost steps: seq<Event>)
      requires Valid() && At(token, sess) && sess.worker == workerId && sess.pc.StageRefused?
               && ForeignTape(tape, token)
      modifies this, store, sink
      ensures Valid() && Went(old(history), history, token, Faultless(tape)) && Ended(token)
      ensures Done(token) == old(Done(token)) + steps && ScriptFor(token, run, tape).Refused(steps)
    {
      hide Valid, Record, At, Went, Script.Sends;
      ghost var script := ScriptFor(token, run, tape);
      ghost var before := history;
      var err, owned, cancel;
      err, owned, cancel, steps := Send(token, sess, Heartbeat(workerId, token, cfg.lease), tape, at);
      if err {
        script.StopsShort(MarkCanceled(workerId, token));
        assert steps != [] ==> steps[1..] == [];
        return;
      }
      if owned && cancel {
        ghost var between := history;
        ghost var rest := Finish(token, sess.(pc := ToMarkCanceled), MarkCanceled(workerId, token), script, tape,
                                 at + 1);
        WentOn(before, between, history, token, Faultless(tape), Faultless(tape));
        steps := steps + rest;
      }
    }

    /** executeOne. Whatever else runs beside it and wherever its calls fail, its steps are steps of the machine, what
        it does follows its script, and it comes to an end; as long as its calls are answered, it gets there by its
        own steps alone. */
    method ExecuteOne(token: Id, run: DurableRun, tape: nat -> Tick) returns (ghost steps: seq<Event>)
      requires Valid() && At(token, Started(workerId, run)) && ForeignTape(tape, token)
      modifies this, store, sink
      ensures Valid() && Went(old(history), history, token, Faultless(tape)) && Ended(token)
      ensures Done(token) == old(Done(token)) + steps && ScriptFor(token, run, tape).Executes(steps)
      ensures CompletedArePublished()
    {
      steps := RunActivation(token, run, tape);
      ValidMeansPublished();
    }

    method RunActivation(token: Id, run: DurableRun, tape: nat -> Tick) returns (ghost steps: seq<Event>)
      requires Valid() && At(token, Started(workerId, run)) && ForeignTape(tape, token)
      modifies this, store, sink
      ensures Valid() && Went(old(history), history, token, Faultless(tape)) && Ended(token)
      ensures Done(token) == old(Done(token)) + steps && ScriptFor(token, run, tape).Executes(steps)
    {
      hide Valid, Record, At, Went, Script.Judges;
      ghost var before := history;
      var outcome := Obtain(token, run, tape);
      ghost var between := history;
      ghost var rest := Judge(token, Started(workerId, run).(pc := Judging, outcome := outcome), run, outcome, tape);
      WentOn(before, between, history, token, true, Faultless(tape));
      steps := (if run.result.Some? then [] else [Entered, Reported(outcome)]) + rest;
      assert if run.result.Some? then steps == rest else steps[1] == Reported(outcome) && steps[2..] == rest;
    }

    /** The outcome: the recovered one, or what the executor reports. */
    method Obtain(token: Id, run: DurableRun, tape: nat -> Tick) returns (outcome: Option<Outcome>)
      requires Valid() && At(token, Started(workerId, run)) && ForeignTape(tape, token)
      modifies this, store, sink
      ensures Valid() && Went(old(history), history, token, true)
      ensures run.result.Some? ==> outcome == run.result
      ensures At(token, Started(workerId, run).(pc := Judging, outcome := outcome))
      ensures Done(token) == old(Done(token)) + (if run.result.Some? then [] else [Entered, Reported(outcome)])
    {
      hide Valid, Record, At, Went;
      ghost var sess := Started(workerId, run);
      ghost var before := history;
      outcome := run.result;
      Begin(token, sess, tape(0), run.result);
      if run.result.None? {
        ghost var between := history;
        outcome := RunExecutor(token, sess.(pc := Executing), tape(1));
        WentOn(before, between, history, token, true, true);
      }
    }

    /** The flags first: a cancellation seen before the cutoff is committed, a lost lease ends it. */
    method Judge(token: Id, ghost sess: Session, run: DurableRun, outcome: Option<Outcome>, tape: nat -> Tick)
      returns (ghost steps: seq<Event>)
      requires Valid() && At(token, sess) && sess.worker == workerId && sess.pc.Judging? && ForeignTape(tape, token)
      requires sess.outcome == outcome && sess.recovered == run.result
      requires sess.pending == run.publicationPending && sess.verificationAttempt == run.verificationAttempt
      modifies this, store, sink
      ensures Valid() && Went(old(history), history, token, Faultless(tape)) && Ended(token)
      ensures Done(token) == old(Done(token)) + steps && ScriptFor(token, run, tape).Judges(outcome, steps)
    {
      hide Valid, Record, At, Went, Script.Sends, Script.Concludes;
      ghost var script := ScriptFor(token, run, tape);
      ghost var before := history;
      var cancelSeen, leaseLost := ReadFlags(token, sess, tape(2));
      ghost var between := history;
      ghost var rest;
      if cancelSeen && !run.publicationPending {
        rest := Finish(token, sess.(pc := ToMarkCanceled), MarkCanceled(workerId, token), script, tape, 3);
      } else if leaseLost {
        rest := [];
        GoneOn(history, token, Faultless(tape));
      } else {
        ghost var judged := sess.(pc := AfterJudging(sess.(cancelSeen := cancelSeen, leaseLost := leaseLost)));
        rest := Conclude(token, judged, run, outcome, tape);
      }
      WentOn(before, between, history, token, true, Faultless(tape));
      steps := [Judged(cancelSeen, leaseLost)] + rest;
    }

    /** What executeOne makes of the outcome it has: failure, or staging and publication. */
    method Conclude(token: Id, ghost sess: Session, run: DurableRun, outcome: Option<Outcome>, tape: nat -> Tick)
      returns (ghost steps: seq<Event>)
      requires Valid() && At(token, sess) && sess.worker == workerId && ForeignTape(tape, token)
      requires sess.outcome == outcome && sess.recovered == run.result
      requires sess.pending == run.publicationPending && sess.verificationAttempt == run.verificationAttempt
      requires sess.pc == if outcome.None? then ToFail
                          else if outcome.value.malfunction then ToFailOutcome(CheckMalfunction)
                          else if run.result.None? then ToStage else CheckPublisher
      modifies this, store, sink
      ensures Valid() && Went(old(history), history, token, Faultless(tape)) && Ended(token)
      ensures Done(token) == old(Done(token)) + steps && ScriptFor(token, run, tape).Concludes(outcome, steps)
    {
      hide Valid, Record, At, Went, Script.Sends, Script.Stages, Script.Continues;
      ghost var script := ScriptFor(token, run, tape);
      if outcome.None? {
        steps := Finish(token, sess, Fail(workerId, token, ExecutionFailed), script, tape, 3);
      } else if outcome.value.malfunction {
        steps := Finish(token, sess, FailOutcome(workerId, token, outcome.value, CheckMalfunction), script, tape, 3);
      } else if run.result.None? {
        steps := StageAndPublish(token, sess, run, outcome.value, tape, 3);
      } else {
        steps := PublishOrReconcile(token, sess, run, outcome.value, tape, 3);
        script.ContinuesEither(outcome.value, tape(3).oracle.ok && outcome.value.resultRef.Some?, steps);
      }
    }

    /** What happens in one round before its LeaseNext: the moves of everybody else, and the two sweeps unless they are
        lost on the way. */
    ghost function Round(ticks: (Tick, Tick, Tick)): seq<Action> {
      ticks.0.others + Reaching(Recover, ticks.0.reply)
      + ticks.1.others + Reaching(Exhaust, ticks.1.reply) + ticks.2.others
    }

    ghost predicate UndrawnTicks(ticks: (Tick, Tick, Tick), token: Id) {
      && (forall i :: 0 <= i < |ticks.0.others| ==> Undrawn(ticks.0.others[i], token))
      && (forall i :: 0 <= i < |ticks.1.others| ==> Undrawn(ticks.1.others[i], token))
      && (forall i :: 0 <= i < |ticks.2.others| ==> Undrawn(ticks.2.others[i], token))
    }

    /** The run leased in this state: one of the oldest leasable. */
    ghost predicate Oldest(s: System, id: Id) {
      && RunStores.Leasable(s.rows, id, s.now, cfg.maxAttempts)
      && forall other :: RunStores.Leasable(s.rows, other, s.now, cfg.maxAttempts) ==>
           s.rows[id].createdAt <= s.rows[other].createdAt
    }

    /** One round of the loop in Run: both sweeps, errors ignored; then LeaseNext; then the execution of the run it
        hands out. Nothing is leased only when the call fails or no row is leasable, and a run whose lease is
        committed with the answer lost is left to recovery. */
    method Poll(token: Id, ticks: (Tick, Tick, Tick), tape: nat -> Tick)
      returns (ghost leased: Option<Id>, ghost steps: seq<Event>)
      requires Valid() && token !in world.issued && ForeignTape(tape, token) && UndrawnTicks(ticks, token)
      modifies this, store, sink
      ensures Valid() && Done(token) == old(Done(token)) + steps
      ensures var before := old(history) + Round(ticks);
              var s := Run(cfg, INIT, before);
              match leased
              case None =>
                && history == before && steps == []
                && (ticks.2.reply.RequestLost? || forall id :: !RunStores.Leasable(s.rows, id, s.now, cfg.maxAttempts))
              case Some(id) =>
                && Oldest(s, id) && before + [Acquire(id, workerId, token)] <= history && Ended(token)
                && if ticks.2.reply.ReplyLost? then steps == []
                   else ScriptFor(token, LeasedRun(id, s.rows[id]), tape).Executes(steps)
    {
      hide Valid, Run, Record, Script.Executes, Oldest, LeasedRun;
      Sweep(token, ticks);
      if ticks.2.reply.RequestLost? {
        return None, [];
      }
      var run := Lease(token);
      if run.None? {
        return None, [];
      }
      leased := Some(run.value.runId);
      if ticks.2.reply.ReplyLost? {
        Abandon(token);
        steps := [];
      } else {
        steps := ExecuteOne(token, run.value, tape);
      }
    }

    /** The two sweeps, with everybody else moving before each and before the lease. */
    method Sweep(token: Id, ticks: (Tick, Tick, Tick))
      requires Valid() && token !in world.issued && UndrawnTicks(ticks, token)
      modifies this, store, sink
      ensures Valid() && token !in world.issued && history == old(history) + Round(ticks)
              && Done(token) == old(Done(token))
      ensures world == Run(cfg, INIT, history)
    {
      hide Run, Apply, Record;
      Meanwhile(token, ticks.0.others);
      if !ticks.0.reply.RequestLost? {
        RecoverCanceled(token);
      }
      Meanwhile(token, ticks.1.others);
      if !ticks.1.reply.RequestLost? {
        FailExhausted(token);
      }
      Meanwhile(token, ticks.2.others);
    }

    /** The world moves before the token is drawn. */
    method Meanwhile(token: Id, moves: seq<Action>)
      requires Valid() && token !in world.issued && forall i :: 0 <= i < |moves| ==> Undrawn(moves[i], token)
      modifies this, store, sink
      ensures Valid() && token !in world.issued && history == old(history) + moves && Done(token) == old(Done(token))
    {
      hide Run, Record;
      ValidInv();
      UndrawnRun(cfg, world, moves, token);
      NothingRecorded(cfg, history, moves, token);
      Everybody(moves);
    }

    /** LeaseNext; the activation it starts remembers the row as it was read back. */
    method Lease(token: Id) returns (run: Option<DurableRun>)
      requires Valid() && token !in world.issued
      modifies this, store
      ensures Valid() && Done(token) == old(Done(token))
      ensures run.None? ==>
                && history == old(history)
                && forall id :: !RunStores.Leasable(old(world).rows, id, old(world).now, cfg.maxAttempts)
      ensures run.Some? ==>
                && history == old(history) + [Acquire(run.value.runId, workerId, token)]
                && Oldest(old(world), run.value.runId)
                && run.value == LeasedRun(run.value.runId, old(world).rows[run.value.runId])
                && At(token, Started(workerId, run.value))
    {
      hide Run, Apply, Inv, Execute, Matches, Record;
      ValidInv();
      var leased := store.LeaseNext(workerId, token, cfg.lease, cfg.maxAttempts);
      if leased.None? {
        return None;
      }
      var row := leased.value;
      LeasedRow(store.rows, row, token);
      LeasingStep(cfg, world, row.runId, workerId, token);
      RunOne(cfg, INIT, history, Acquire(row.runId, workerId, token));
      RecordOne(cfg, history, Acquire(row.runId, workerId, token), token);
      world := Apply(cfg, world, Acquire(row.runId, workerId, token));
      history := history + [Acquire(row.runId, workerId, token)];
      run := Some(LeasedRun(row.runId, row));
    }

    /** What LeaseNext did to the table is what the machine's Acquire does. */
    lemma {:induction false} LeasedRow(rows: map<Id, Row>, row: Row, token: Id)
      requires Inv(cfg, world)
      requires exists id ::
                 && Oldest(world, id)
                 && row == Execute(LeaseNext(workerId, token, cfg.lease, cfg.maxAttempts), world.rows[id], world.now)
                 && rows == world.rows[id := row]
      ensures row.runId in world.rows && Oldest(world, row.runId)
      ensures Matches(LeaseNext(workerId, token, cfg.lease, cfg.maxAttempts), world.rows[row.runId], world.now)
      ensures row == Execute(LeaseNext(workerId, token, cfg.lease, cfg.maxAttempts), world.rows[row.runId], world.now)
      ensures rows == world.rows[row.runId := row]
      ensures LeasedRun(row.runId, row) == LeasedRun(row.runId, world.rows[row.runId])
    {
    }

    method RecoverCanceled(token: Id)
      requires Valid() && token !in world.issued
      modifies this, store
      ensures Valid() && token !in world.issued && history == old(history) + [Recover]
              && Done(token) == old(Done(token))
    {
      hide Run, Record, Matches, Written;
      RunOne(cfg, INIT, history, Recover);
      RecordOne(cfg, history, Recover, token);
      store.RecoverCanceled();
      world := Apply(cfg, world, Recover);
      history := history + [Recover];
    }

    method FailExhausted(token: Id)
      requires Valid() && token !in world.issued
      modifies this, store
      ensures Valid() && token !in world.issued && history == old(history) + [Exhaust]
              && Done(token) == old(Done(token))
    {
      hide Run, Record, Matches, Written;
      RunOne(cfg, INIT, history, Exhaust);
      RecordOne(cfg, history, Exhaust, token);
      store.FailExhausted(cfg.maxAttempts);
      world := Apply(cfg, world, Exhaust);
      history := history + [Exhaust];
    }
  }
}
