/**
 One activation of executeOne (api/worker.go) among everybody else's steps: what it can meet, the record of what it
 does to the world, the statements it may send after what it has seen, and the machine's steps spelled out.
 */
module Activations {
  import opened Wrappers
  import opened Ledger
  import opened Sink
  import opened Backoff
  import opened Protocol
  import opened Invariant
  import opened Preservation

  /** How a store call can end: answered, lost on the way, or applied with the answer lost. */
  datatype Reply = Answered | RequestLost | ReplyLost

  /** What happens before and in one step: the actions of everybody else, and the environment's answers. */
  datatype Tick = Tick(others: seq<Action>, reply: Reply, oracle: Oracle)

  /** An action that is not a step of this activation; its heartbeat goroutine runs beside it. */
  predicate Foreign(a: Action, token: Id) {
    !(a.Work? && a.token == token) && !(a.Crash? && a.token == token)
  }

  ghost predicate ForeignTape(tape: nat -> Tick, token: Id) {
    forall n: nat, i :: 0 <= i < |tape(n).others| ==> Foreign(tape(n).others[i], token)
  }

  /** From one history to a later one; without faults the activation has not been cut off in between. */
  ghost predicate Went(before: seq<Action>, after: seq<Action>, token: Id, faultless: bool) {
    before <= after && (faultless ==> forall i :: |before| <= i < |after| ==> after[i] != Crash(token))
  }

  lemma {:induction false} WentOn(before: seq<Action>, between: seq<Action>, after: seq<Action>, token: Id,
                                  first: bool, second: bool)
    requires Went(before, between, token, first) && Went(between, after, token, second) && (second ==> first)
    ensures Went(before, after, token, second)
  {
  }

  lemma {:induction false} GoneOn(history: seq<Action>, token: Id, faultless: bool)
    ensures Went(history, history, token, faultless)
  {
  }

  /** Every store call is answered. */
  ghost predicate Faultless(tape: nat -> Tick) {
    forall n: nat :: tape(n).reply.Answered?
  }

  /** What LeaseNext hands to executeOne. */
  datatype DurableRun = DurableRun(
    runId: Id, result: Option<Outcome>, publicationPending: bool, verificationAttempt: nat)

  function Started(worker: Id, run: DurableRun): Session {
    Session(run.runId, worker, Leased, run.result, run.publicationPending, run.verificationAttempt, None, false, false)
  }

  /** The same activation, up to the two flags its heartbeat goroutine sets. */
  predicate SameActivation(sess: Session, sess': Session) {
    sess' == sess.(cancelSeen := sess'.cancelSeen, leaseLost := sess'.leaseLost)
  }

  // ----- the record of an activation -----------------------------------------------------------

  /** What an activation does and learns: it enters the executor and gets its report, reads the two flags of its
      heartbeat goroutine, sends a statement (and, for a heartbeat, learns of a requested cancellation), puts a MERGE
      on its way, reads the sink back. */
  datatype Event =
    | Entered
    | Reported(outcome: Option<Outcome>)
    | Judged(cancelSeen: bool, leaseLost: bool)
    | Sent(st: Statement, written: bool, cancel: bool)
    | Merged(source: SinkRow)
    | Read(answered: bool, found: Readback)

  /** What the executor reports carries the identity of the run. */
  function ReportOf(s: System, sess: Session, oracle: Oracle): Option<Outcome>
    requires sess.runId in s.rows
  {
    match oracle.report
    case None => None
    case Some(out) => Some(out.(runId := sess.runId, resultId := s.rows[sess.runId].resultId))
  }

  function StepEvents(cfg: Config, s: System, token: Id, oracle: Oracle): seq<Event>
    requires WellFormed(s) && token in s.sessions
  {
    var sess := s.sessions[token];
    match StatementOf(cfg, token, sess)
    case Some(st) =>
      var written := Wrote(s, sess.runId, st);
      [Sent(st, written, st.Heartbeat? && written && s.rows[sess.runId].cancelRequested)]
    case None =>
      if sess.pc.Leased? && sess.recovered.None? then [Entered]
      else if sess.pc.Executing? then [Reported(ReportOf(s, sess, oracle))]
      else if sess.pc.Judging? then [Judged(sess.cancelSeen, sess.leaseLost)]
      else if sess.outcome.None? then []
      else if sess.pc.ToPublish? && oracle.ok && sess.outcome.value.Authoritative() then
        [Merged(Protocol.Published(sess))]
      else if sess.pc.ReadingBack? || sess.pc.Verifying? then
        [Read(oracle.ok, ReadbackOf(s.table, Protocol.Published(sess)))]
      else []
  }

  function ActionEvents(cfg: Config, s: System, a: Action, token: Id): seq<Event>
    requires WellFormed(s)
  {
    if a.Work? && a.token == token && token in s.sessions then StepEvents(cfg, s, token, a.oracle) else []
  }

  /** Everything the activation has done in a run of the machine. */
  function Record(cfg: Config, trace: seq<Action>, token: Id): seq<Event>
    decreases |trace|
  {
    if trace == [] then []
    else
      var before := trace[..|trace| - 1];
      Record(cfg, before, token) + ActionEvents(cfg, Run(cfg, INIT, before), trace[|trace| - 1], token)
  }

  lemma {:induction false} RecordOne(cfg: Config, trace: seq<Action>, a: Action, token: Id)
    ensures Record(cfg, trace + [a], token)
            == Record(cfg, trace, token) + ActionEvents(cfg, Run(cfg, INIT, trace), a, token)
  {
    assert (trace + [a])[..|trace + [a]| - 1] == trace;
  }

  lemma {:induction false} RecordForeign(cfg: Config, trace: seq<Action>, others: seq<Action>, token: Id)
    requires forall i :: 0 <= i < |others| ==> Foreign(others[i], token)
    ensures Record(cfg, trace + others, token) == Record(cfg, trace, token)
    decreases |others|
  {
    if others == [] {
      assert trace + others == trace;
    } else {
      var init := others[..|others| - 1];
      assert (trace + others)[..|trace + others| - 1] == trace + init;
      RecordForeign(cfg, trace, init, token);
    }
  }

  /** A sweep reaches the ledger unless it is lost on the way. */
  function Reaching(a: Action, reply: Reply): seq<Action> {
    if reply.RequestLost? then [] else [a]
  }

  // ----- what an activation may do -------------------------------------------------------------

  /** The activation of a leased run. Its record is full when no call of it has failed to answer; otherwise it may break
      off before any of its statements. */
  datatype Script = Script(cfg: Config, worker: Id, token: Id, run: DurableRun, full: bool) {
    function Completion(outcome: Outcome): Statement { CompletePublished(worker, token, outcome) }

    function Retrial(): Statement {
      RetryVerification(worker, token, cfg.maxVerification, Delay(cfg.verificationBackoff, run.verificationAttempt))
    }

    /** The one statement that is left to send. */
    predicate Sends(st: Statement, l: seq<Event>) {
      (l == [] && !full) || (|l| == 1 && l[0].Sent? && l[0].st == st)
    }

    /** Complete on an exact row, fail on a conflicting one, retry on an absent row or an error. */
    function AfterReading(outcome: Outcome, answered: bool, found: Readback): Statement {
      if answered && found.Exact? then Completion(outcome)
      else if answered && found.Conflict? then FailPublicationConflict(worker, token)
      else Retrial()
    }

    /** reconcilePublication: one readback, and what it calls for. */
    predicate Reconciles(outcome: Outcome, l: seq<Event>) {
      l != [] && l[0].Read? && Sends(AfterReading(outcome, l[0].answered, l[0].found), l[1..])
    }

    /** Without a verifier there is no readback, only the retry. */
    predicate Verifies(outcome: Outcome, l: seq<Event>) {
      Sends(Retrial(), l) || Reconciles(outcome, l)
    }

    /** The MERGE has returned: an exact readback completes; after one that is not, inside Publish, or after an
        ambiguous answer, what is left is to verify. */
    predicate AfterMerge(outcome: Outcome, l: seq<Event>) {
      || Verifies(outcome, l)
      || (l != [] && l[0].Read? && l[0] != Read(true, Exact) && Verifies(outcome, l[1..]))
    }

    /** After the cutoff: the MERGE of exactly this outcome, unless the publisher refuses it. */
    predicate Publishes(outcome: Outcome, l: seq<Event>) {
      || Sends(Retrial(), l)
      || (l != [] && l[0] == Merged(SinkRow(outcome.runId, outcome.resultId, outcome)) && AfterMerge(outcome, l[1..]))
    }

    /** The cutoff, and the publication if it was written. */
    predicate CutsOff(outcome: Outcome, l: seq<Event>) {
      || (l == [] && !full)
      || (l != [] && l[0].Sent? && l[0].st == MarkPublicationPending(worker, token)
          && if l[0].written then Publishes(outcome, l[1..]) else |l| == 1)
    }

    /** A first publication: the fence, then the cancellation it reports or the cutoff. */
    predicate Fences(outcome: Outcome, l: seq<Event>) {
      || (l == [] && !full)
      || (l != [] && l[0].Sent? && l[0].st == Heartbeat(worker, token, cfg.lease)
          && if !l[0].written then |l| == 1
             else if l[0].cancel then Sends(MarkCanceled(worker, token), l[1..])
             else CutsOff(outcome, l[1..]))
    }

    /** From a staged result on: verification only when the cutoff had been passed before, a first publication
        otherwise; without a publisher the retry or the failure. */
    predicate FromStaged(outcome: Outcome, available: bool, l: seq<Event>) {
      if run.publicationPending then (if available then Verifies(outcome, l) else Sends(Retrial(), l))
      else if available then Fences(outcome, l)
      else Sends(FailOutcome(worker, token, outcome, ResultStoreUnavailable), l)
    }

    /** A refused staging: the cancellation, if the heartbeat reports one. */
    predicate Refused(l: seq<Event>) {
      || (l == [] && !full)
      || (l != [] && l[0].Sent? && l[0].st == Heartbeat(worker, token, cfg.lease)
          && if l[0].written && l[0].cancel then Sends(MarkCanceled(worker, token), l[1..]) else |l| == 1)
    }

    predicate Stages(outcome: Outcome, l: seq<Event>) {
      || (l == [] && !full)
      || (l != [] && l[0].Sent? && l[0].st == StageOutcome(worker, token, outcome)
          && if l[0].written then Continues(outcome, l[1..]) else Refused(l[1..]))
    }

    predicate Continues(outcome: Outcome, l: seq<Event>) {
      FromStaged(outcome, true, l) || FromStaged(outcome, false, l)
    }

    /** What follows once there is an outcome, or none. */
    predicate Concludes(outcome: Option<Outcome>, l: seq<Event>) {
      if outcome.None? then Sends(Fail(worker, token, ExecutionFailed), l)
      else if outcome.value.malfunction then Sends(FailOutcome(worker, token, outcome.value, CheckMalfunction), l)
      else if run.result.None? then Stages(outcome.value, l)
      else Continues(outcome.value, l)
    }

    /** The flags come first: a cancellation seen before the cutoff is committed; otherwise, without the lease,
        nothing more is sent. */
    predicate Judges(outcome: Option<Outcome>, l: seq<Event>) {
      && l != [] && l[0].Judged?
      && if l[0].cancelSeen && !run.publicationPending then Sends(MarkCanceled(worker, token), l[1..])
         else if l[0].leaseLost then |l| == 1
         else Concludes(outcome, l[1..])
    }

    /** A record that is not full may break off. */
    lemma {:induction false} BreaksOff(outcome: Outcome)
      requires !full
      ensures forall st :: Sends(st, [])
      ensures CutsOff(outcome, []) && Continues(outcome, []) && Publishes(outcome, []) && Refused([])
    {
    }

    lemma {:induction false} StopsShort(st: Statement)
      requires !full
      ensures Sends(st, [])
    {
    }

    lemma {:induction false} ContinuesEither(outcome: Outcome, available: bool, l: seq<Event>)
      requires FromStaged(outcome, available, l)
      ensures Continues(outcome, l)
    {
    }

    lemma {:induction false} CompletesOnExact(outcome: Outcome, sent: seq<Event>)
      requires Sends(Completion(outcome), sent)
      ensures AfterMerge(outcome, [Read(true, Exact)] + sent)
    {
      assert ([Read(true, Exact)] + sent)[1..] == sent;
    }

    lemma {:induction false} VerifiesAgain(outcome: Outcome, first: Event, rest: seq<Event>)
      requires first.Read? && first != Read(true, Exact) && Verifies(outcome, rest)
      ensures AfterMerge(outcome, [first] + rest)
    {
      assert ([first] + rest)[1..] == rest;
    }

    /** executeOne: a recovered result is never executed again, and what it reports is what goes on. */
    predicate Executes(l: seq<Event>) {
      if run.result.Some? then Judges(run.result, l)
      else |l| >= 2 && l[0] == Entered && l[1].Reported? && Judges(l[1].outcome, l[2..])
    }
  }

  // ----- what such a record shows --------------------------------------------------------------

  /** A completion comes right after an exact readback, a conflict failure after a conflicting one, a MERGE after the
      written cutoff, and the cutoff after a heartbeat that found the lease held and no cancellation. */
  predicate InSequence(before: Option<Event>, e: Event) {
    && (e.Sent? && e.st.CompletePublished? ==> before == Some(Read(true, Exact)))
    && (e.Sent? && e.st.FailPublicationConflict? ==> before == Some(Read(true, Conflict)))
    && (e.Merged? ==>
          before.Some? && before.value.Sent? && before.value.st.MarkPublicationPending? && before.value.written)
    && (e.Sent? && e.st.MarkPublicationPending? ==>
          && before.Some? && before.value.Sent? && before.value.st.Heartbeat?
          && before.value.written && !before.value.cancel)
  }

  predicate InSequenceAt(l: seq<Event>, k: nat)
    requires k < |l|
  {
    InSequence(if k == 0 then None else Some(l[k - 1]), l[k])
  }

  /** What comes first in a list needs nothing before it, so a list may be put behind any event. */
  lemma {:induction false} BehindAnother(l: seq<Event>, k: nat)
    requires 0 < k < |l| && InSequenceAt(l[1..], k - 1)
    ensures InSequenceAt(l, k)
  {
  }

  lemma {:induction false} CutsOffInSequence(p: Script, outcome: Outcome, l: seq<Event>, k: nat)
    requires p.CutsOff(outcome, l) && 0 < k < |l|
    ensures InSequenceAt(l, k)
  {
  }

  lemma {:induction false} ContinuesInSequence(p: Script, outcome: Outcome, l: seq<Event>, k: nat)
    requires p.Continues(outcome, l) && k < |l|
    ensures InSequenceAt(l, k)
  {
    if k > 1 && p.Fences(outcome, l) && p.CutsOff(outcome, l[1..]) {
      CutsOffInSequence(p, outcome, l[1..], k - 1);
      hide Script.CutsOff;
      BehindAnother(l, k);
    }
  }

  lemma {:induction false} ConcludesInSequence(p: Script, outcome: Option<Outcome>, l: seq<Event>, k: nat)
    requires p.Concludes(outcome, l) && k < |l|
    ensures InSequenceAt(l, k)
  {
    hide Script.Continues;
    if outcome.Some? && p.Continues(outcome.value, l) {
      ContinuesInSequence(p, outcome.value, l, k);
    } else if outcome.Some? && k > 0 && p.Continues(outcome.value, l[1..]) {
      ContinuesInSequence(p, outcome.value, l[1..], k - 1);
      BehindAnother(l, k);
    }
  }

  lemma {:induction false} JudgesInSequence(p: Script, outcome: Option<Outcome>, l: seq<Event>, k: nat)
    requires p.Judges(outcome, l) && k < |l|
    ensures InSequenceAt(l, k)
  {
    if k > 0 && p.Concludes(outcome, l[1..]) {
      ConcludesInSequence(p, outcome, l[1..], k - 1);
      BehindAnother(l, k);
    }
    hide Script.Concludes;
  }

  /** In whatever an execution of executeOne does, a completion comes right after an exact readback, a conflict failure
      right after a conflicting one, a MERGE right after the cutoff was written, and the cutoff right after a heartbeat
      that found the lease held and no cancellation. */
  lemma {:induction false} ExecutesInSequence(p: Script, l: seq<Event>, k: nat)
    requires p.Executes(l) && k < |l|
    ensures InSequence(if k == 0 then None else Some(l[k - 1]), l[k])
  {
    hide Script.Judges;
    if p.run.result.Some? {
      JudgesInSequence(p, p.run.result, l, k);
    } else if k > 1 {
      JudgesInSequence(p, l[1].outcome, l[2..], k - 2);
      BehindAnother(l[1..], k - 1);
      BehindAnother(l, k);
    }
  }

  /** An activation that recovered a result past its cutoff never enters the executor, stages, cuts off or merges again:
      all it does is read the sink and send the statement that calls for. */
  lemma {:induction false} RecoveredOnlyVerifies(p: Script, l: seq<Event>, k: nat)
    requires p.Executes(l) && k < |l| && p.run.result.Some? && p.run.publicationPending
             && !p.run.result.value.malfunction
    ensures l[k].Judged? || l[k].Read?
            || (l[k].Sent? && (l[k].st.CompletePublished? || l[k].st.FailPublicationConflict?
                               || l[k].st.RetryVerification?))
    ensures l[k].Sent? ==> k == |l| - 1
  {
  }

  /** When every call is answered, an activation that sends nothing after its flags has read there that its lease is
      lost, and no cancellation that it had to commit. */
  lemma {:induction false} SilentOnlyWithoutLease(p: Script, outcome: Option<Outcome>, l: seq<Event>)
    requires p.full && p.Judges(outcome, l) && |l| == 1
    ensures l[0].leaseLost && (l[0].cancelSeen ==> p.run.publicationPending)
  {
  }

  /** And one that has seen a cancellation before the cutoff sends MarkCanceled and nothing else. */
  lemma {:induction false} SeenCancellationIsSent(p: Script, outcome: Option<Outcome>, l: seq<Event>)
    requires p.full && p.Judges(outcome, l) && l[0].cancelSeen && !p.run.publicationPending
    ensures |l| == 2 && l[1].Sent? && l[1].st == MarkCanceled(p.worker, p.token)
  {
  }

  // ----- the machine's steps, spelled out --------------------------------------------------------

  lemma {:induction false} ForeignStep(cfg: Config, s: System, a: Action, token: Id)
    requires WellFormed(s) && token in s.sessions && token in s.issued && Foreign(a, token)
    ensures var s' := Apply(cfg, s, a);
            && token in s'.sessions && token in s'.issued && SameActivation(s.sessions[token], s'.sessions[token])
            && s.merges <= s'.merges
  {
    if a.Work? {
      ForeignWork(cfg, s, a, token);
    } else if a.Acquire? || a.Beat? {
      ForeignLease(cfg, s, a, token);
    } else {
      hide WorkStep, BeatStep, AcquireStep, Execute;
    }
  }

  lemma {:induction false} ForeignLease(cfg: Config, s: System, a: Action, token: Id)
    requires WellFormed(s) && token in s.sessions && token in s.issued && (a.Acquire? || a.Beat?)
    ensures var s' := Apply(cfg, s, a);
            && token in s'.sessions && token in s'.issued && SameActivation(s.sessions[token], s'.sessions[token])
            && s.merges <= s'.merges
  {
    hide WorkStep, Execute, SubmitStep;
  }

  lemma {:induction false} ForeignWork(cfg: Config, s: System, a: Action, token: Id)
    requires WellFormed(s) && token in s.sessions && token in s.issued && a.Work? && a.token != token
    ensures var s' := Apply(cfg, s, a);
            && token in s'.sessions && token in s'.issued && s'.sessions[token] == s.sessions[token]
            && s.merges <= s'.merges
  {
    hide Execute, StatementOf;
  }

  lemma {:induction false} ForeignRun(cfg: Config, s: System, trace: seq<Action>, token: Id)
    requires WellFormed(s) && token in s.sessions && token in s.issued
    requires forall i :: 0 <= i < |trace| ==> Foreign(trace[i], token)
    ensures var s' := Run(cfg, s, trace);
            && token in s'.sessions && token in s'.issued && SameActivation(s.sessions[token], s'.sessions[token])
            && s.merges <= s'.merges
    decreases |trace|
  {
    if trace != [] {
      ForeignRun(cfg, s, trace[..|trace| - 1], token);
      ForeignStep(cfg, Run(cfg, s, trace[..|trace| - 1]), trace[|trace| - 1], token);
    }
  }

  /** A writing step, spelled out. */
  lemma {:induction false} WritingStep(cfg: Config, s: System, token: Id, oracle: Oracle, st: Statement)
    requires WellFormed(s) && token in s.sessions && StatementOf(cfg, token, s.sessions[token]) == Some(st)
    ensures var s' := Apply(cfg, s, Work(token, oracle));
            var sess := s.sessions[token];
            var written := Matches(st, s.rows[sess.runId], s.now);
            && s'.rows == s.rows[sess.runId := Execute(st, s.rows[sess.runId], s.now)]
            && s'.table == s.table && s'.now == s.now && token in s'.sessions
            && s'.sessions[token] == sess.(pc := AfterStatement(sess.pc, written, s.rows[sess.runId].cancelRequested),
                                           pending := sess.pending || (sess.pc.ToMarkPending? && written))
            && s'.effects[sess.runId].executions == s.effects[sess.runId].executions
            && s'.effects[sess.runId].merges == s.effects[sess.runId].merges
  {
  }

  lemma {:induction false} SameStatement(cfg: Config, token: Id, sess: Session, sess': Session)
    requires SameActivation(sess, sess')
    ensures StatementOf(cfg, token, sess') == StatementOf(cfg, token, sess)
  {
  }

  /** What sending the statement comes to. */
  lemma {:induction false} FencedStep(cfg: Config, s: System, token: Id, oracle: Oracle, st: Statement)
    requires WellFormed(s) && token in s.sessions && StatementOf(cfg, token, s.sessions[token]) == Some(st)
    ensures st.Fenced()
    ensures var s' := Apply(cfg, s, Work(token, oracle));
            var sess := s.sessions[token];
            var written := Matches(st, s.rows[sess.runId], s.now);
            var cancel := st.Heartbeat? && written && s.rows[sess.runId].cancelRequested;
            && s'.rows == s.rows[sess.runId := Execute(st, s.rows[sess.runId], s.now)]
            && s'.table == s.table && s'.now == s.now && token in s'.sessions
            && s'.sessions[token] == sess.(pc := AfterStatement(sess.pc, written, cancel),
                                           pending := sess.pending || (sess.pc.ToMarkPending? && written))
            && StepEvents(cfg, s, token, oracle) == [Sent(st, written, cancel)]
  {
    hide Matches, Execute;
    WritingStep(cfg, s, token, oracle, st);
  }

  /** A step without a statement, spelled out. */
  lemma {:induction false} ThinkingStep(cfg: Config, s: System, token: Id, oracle: Oracle)
    requires WellFormed(s) && token in s.sessions && StatementOf(cfg, token, s.sessions[token]).None?
    ensures var s' := Apply(cfg, s, Work(token, oracle));
            && s'.rows == s.rows && s'.table == s.table && s'.now == s.now && token in s'.sessions
            && s'.sessions[token] == LocalNext(s, token, oracle).sess
            && s'.merges == LocalNext(s, token, oracle).merges
            && s'.effects[s.sessions[token].runId] == LocalNext(s, token, oracle).seen
  {
  }

  /** Acquire, spelled out. */
  lemma {:induction false} LeasingStep(cfg: Config, s: System, id: Id, worker: Id, token: Id)
    requires WellFormed(s) && id in s.rows && token !in s.issued
    requires Matches(LeaseNext(worker, token, cfg.lease, cfg.maxAttempts), s.rows[id], s.now)
    ensures var s' := Apply(cfg, s, Acquire(id, worker, token));
            var row := Execute(LeaseNext(worker, token, cfg.lease, cfg.maxAttempts), s.rows[id], s.now);
            && s'.rows == s.rows[id := row] && s'.now == s.now && s'.table == s.table
            && token in s'.sessions && token in s'.issued
            && s'.sessions[token] == Started(worker, LeasedRun(id, row))
  {
  }

  /** What the row read back after the lease tells the activation. */
  function LeasedRun(id: Id, row: Row): DurableRun {
    DurableRun(id, if row.resultPayload.Some? then row.resultPayload else row.response, row.publicationPending,
               row.verificationAttempt)
  }

  /** Until a token is drawn nobody works under it. */
  predicate Undrawn(a: Action, token: Id) {
    !(a.Acquire? && a.token == token) && !(a.Claim? && a.token == token)
  }

  lemma {:induction false} UndrawnStep(cfg: Config, s: System, a: Action, token: Id)
    requires WellFormed(s) && token !in s.issued && Undrawn(a, token)
    ensures token !in Apply(cfg, s, a).issued
  {
    hide Execute, StatementOf, LocalNext;
  }

  lemma {:induction false} UndrawnRun(cfg: Config, s: System, trace: seq<Action>, token: Id)
    requires WellFormed(s) && token !in s.issued
    requires forall i :: 0 <= i < |trace| ==> Undrawn(trace[i], token)
    ensures token !in Run(cfg, s, trace).issued
    decreases |trace|
  {
    if trace != [] {
      UndrawnRun(cfg, s, trace[..|trace| - 1], token);
      UndrawnStep(cfg, Run(cfg, s, trace[..|trace| - 1]), trace[|trace| - 1], token);
    }
  }

  lemma {:induction false} NothingRecorded(cfg: Config, trace: seq<Action>, moves: seq<Action>, token: Id)
    requires cfg.Valid() && Inv(cfg, Run(cfg, INIT, trace)) && token !in Run(cfg, INIT, trace).issued
    requires forall i :: 0 <= i < |moves| ==> Undrawn(moves[i], token)
    ensures Record(cfg, trace + moves, token) == Record(cfg, trace, token)
    decreases |moves|
  {
    hide Inv, Apply, Run, Undrawn;
    if moves == [] {
      assert trace + moves == trace;
    } else {
      var init := moves[..|moves| - 1];
      NothingRecorded(cfg, trace, init, token);
      RunAppend(cfg, INIT, trace, init);
      UndrawnRun(cfg, Run(cfg, INIT, trace), init, token);
      RunKeepsInv(cfg, Run(cfg, INIT, trace), init);
      assert (trace + moves)[..|trace + moves| - 1] == trace + init;
      UnknownToken(cfg, Run(cfg, INIT, trace + init), token);
    }
  }

  lemma {:induction false} UnknownToken(cfg: Config, s: System, token: Id)
    requires Inv(cfg, s) && token !in s.issued
    ensures token !in s.sessions
  {
  }
}
