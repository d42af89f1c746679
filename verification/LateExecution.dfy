/**
 README.md:94-95 promises that recovery never reruns the check. The worker does not keep that:
 LeaseNext and the call of the executor are two steps, so an activation that was given its lease before the staging can
 stall, lose the lease, and start the executor late. It holds exactly when a run is allowed a single attempt.
 */
module LateExecution {
  import opened Collections
  import opened Wrappers
  import opened Ledger
  import opened Protocol
  import opened Preservation
  import opened Safety

  /** The next step of this activation enters the executor. */
  predicate AboutToExecute(s: System, token: Id) {
    token in s.sessions && s.sessions[token].pc.Leased? && s.sessions[token].recovered.None?
  }

  ghost predicate ExecutesOnlyUnstaged(cfg: Config) {
    forall s, token :: Reachable(cfg, s) && AboutToExecute(s, token) && s.sessions[token].runId in s.rows ==>
      s.rows[s.sessions[token].runId].resultPayload.None?
  }

  /** The late start: 100 takes the lease and stalls, the lease runs out, 101 executes and stages. */
  function LateTrace(cfg: Config, result: Outcome): seq<Action> {
    var go := Oracle(Some(result), true, true);
    [Submit(1, 10, 20, 0, None), Acquire(1, 7, 100), Tick(cfg.lease), Acquire(1, 8, 101),
     Work(101, go), Work(101, go), Work(101, go), Work(101, go)]
  }

  /** An undisturbed fresh activation on its way to StageOutcome. */
  predicate OnItsWay(s: System, token: Id) {
    && token in s.sessions
    && var sess := s.sessions[token];
    && sess.recovered.None? && !sess.cancelSeen && !sess.leaseLost
    && (sess.pc.Leased? || sess.pc.Executing?
        || ((sess.pc.Judging? || sess.pc.ToStage?) && sess.outcome.Some? && !sess.outcome.value.malfunction))
  }

  lemma {:induction false} FreshStep(cfg: Config, s: System, token: Id, go: Oracle)
    requires WellFormed(s) && OnItsWay(s, token) && !s.sessions[token].pc.ToStage?
    requires go.report.Some? && !go.report.value.malfunction
    ensures var s' := Apply(cfg, s, Work(token, go));
            && OnItsWay(s', token)
            && s'.rows == s.rows && s'.now == s.now
            && s'.sessions == s.sessions[token := s'.sessions[token]]
            && s'.sessions[token].runId == s.sessions[token].runId
            && s'.sessions[token].worker == s.sessions[token].worker
            && (s.sessions[token].pc.Leased? ==> s'.sessions[token].pc.Executing?)
            && (s.sessions[token].pc.Executing? ==> s'.sessions[token].pc.Judging?)
            && (s.sessions[token].pc.Judging? ==> s'.sessions[token].pc.ToStage?)
  {
  }

  lemma {:induction false} StageStep(cfg: Config, s: System, token: Id, go: Oracle)
    requires WellFormed(s) && OnItsWay(s, token) && s.sessions[token].pc.ToStage?
    requires var row := s.rows[s.sessions[token].runId];
             row.HeldLive(s.sessions[token].worker, token, s.now) && !row.cancelRequested && row.response.None?
    ensures var s' := Apply(cfg, s, Work(token, go));
            && s'.rows[s.sessions[token].runId].resultPayload.Some?
            && s'.sessions == s.sessions[token := s'.sessions[token]]
  {
  }

  /** A holder whose executor reports a sound result stages it in four steps; nobody else moves. */
  lemma {:induction false} HolderStages(cfg: Config, s: System, token: Id, result: Outcome)
    requires WellFormed(s) && AboutToExecute(s, token) && OnItsWay(s, token) && !result.malfunction
    requires var row := s.rows[s.sessions[token].runId];
             row.HeldLive(s.sessions[token].worker, token, s.now) && !row.cancelRequested && row.response.None?
    ensures var go := Work(token, Oracle(Some(result), true, true));
            var s' := Run(cfg, s, [go, go, go, go]);
            && s'.rows[s.sessions[token].runId].resultPayload.Some?
            && forall t :: t in s.sessions && t != token ==> t in s'.sessions && s'.sessions[t] == s.sessions[t]
  {
    var oracle := Oracle(Some(result), true, true);
    var go := Work(token, oracle);
    var s1 := Apply(cfg, s, go);
    FreshStep(cfg, s, token, oracle);
    var s2 := Apply(cfg, s1, go);
    FreshStep(cfg, s1, token, oracle);
    var s3 := Apply(cfg, s2, go);
    FreshStep(cfg, s2, token, oracle);
    StageStep(cfg, s3, token, oracle);
    RunFour(cfg, s, go);
  }

  lemma {:induction false} RunFour(cfg: Config, s: System, a: Action)
    requires WellFormed(s)
    ensures Run(cfg, s, [a, a, a, a]) == Apply(cfg, Apply(cfg, Apply(cfg, Apply(cfg, s, a), a), a), a)
  {
    hide Apply;
    RunNothing(cfg, s);
    RunOne(cfg, s, [a, a, a], a);
    RunOne(cfg, s, [a, a], a);
    RunOne(cfg, s, [a], a);
    RunOne(cfg, s, [], a);
    assert [a, a, a] + [a] == [a, a, a, a] && [a, a] + [a] == [a, a, a] && [a] + [a] == [a, a] && [] + [a] == [a];
  }

  lemma {:induction false} TwoLeases(cfg: Config)
    requires cfg.maxAttempts >= 2 && cfg.lease > 0
    ensures var s := Run(cfg, INIT, LateTrace(cfg, Outcome(0, 0, false, None, 0))[..4]);
            && AboutToExecute(s, 100) && s.sessions[100].runId == 1 && 1 in s.rows
            && AboutToExecute(s, 101) && OnItsWay(s, 101)
                && s.sessions[101] == Session(1, 8, Leased, None, false, 0, None, false, false)
            && s.rows[1].HeldLive(8, 101, s.now) && !s.rows[1].cancelRequested && s.rows[1].response.None?
  {
    hide Apply, Run;
    var t := LateTrace(cfg, Outcome(0, 0, false, None, 0));
    var s1 := Apply(cfg, INIT, t[0]);
    var s2 := Apply(cfg, s1, t[1]);
    FirstLease(cfg);
    SecondLease(cfg, s2);
    RunPrefix(cfg, t, 0);
    RunPrefix(cfg, t, 1);
    RunPrefix(cfg, t, 2);
    RunPrefix(cfg, t, 3);
    RunNothing(cfg, INIT);
    assert t[..0] == [];
  }

  /** A submitted run, leased to 7 under the token 100. */
  predicate LeasedOnce(cfg: Config, s: System) {
    && WellFormedRows(s) && s.now == 0 && s.issued == {100}
    && s.sessions == map[100 := Session(1, 7, Leased, None, false, 0, None, false, false)]
    && 1 in s.rows
    && s.rows[1] == NewRow(1, 10, 20, 0, None).(status := Running, attempt := 1,
                                                lease := Some(Lease(7, 100, cfg.lease)))
  }

  predicate WellFormedRows(s: System) {
    s.effects.Keys == s.rows.Keys
  }

  lemma {:induction false} FirstLease(cfg: Config)
    requires cfg.maxAttempts >= 1 && cfg.lease > 0
    ensures var s1 := Apply(cfg, INIT, Submit(1, 10, 20, 0, None));
            LeasedOnce(cfg, Apply(cfg, s1, Acquire(1, 7, 100)))
  {
    var s1 := Apply(cfg, INIT, Submit(1, 10, 20, 0, None));
    assert s1.rows == map[1 := NewRow(1, 10, 20, 0, None)];
  }

  lemma {:induction false} SecondLease(cfg: Config, s2: System)
    requires cfg.maxAttempts >= 2 && cfg.lease > 0 && LeasedOnce(cfg, s2) && WellFormed(s2)
    ensures var s := Apply(cfg, Apply(cfg, s2, Tick(cfg.lease)), Acquire(1, 8, 101));
            && AboutToExecute(s, 100) && s.sessions[100].runId == 1 && 1 in s.rows
            && AboutToExecute(s, 101) && OnItsWay(s, 101)
                && s.sessions[101] == Session(1, 8, Leased, None, false, 0, None, false, false)
            && s.rows[1].HeldLive(8, 101, s.now) && !s.rows[1].cancelRequested && s.rows[1].response.None?
  {
  }

  lemma {:induction false} LateTraceStages(cfg: Config)
    requires cfg.maxAttempts >= 2 && cfg.lease > 0
    ensures var s := Run(cfg, INIT, LateTrace(cfg, Outcome(0, 0, false, None, 0)));
            && AboutToExecute(s, 100) && s.sessions[100].runId == 1 && 1 in s.rows
            && s.rows[1].resultPayload.Some?
  {
    var result := Outcome(0, 0, false, None, 0);
    var t := LateTrace(cfg, result);
    TwoLeases(cfg);
    HolderStages(cfg, Run(cfg, INIT, t[..4]), 101, result);
    RunAppend(cfg, INIT, t[..4], t[4..]);
    assert t[..4] + t[4..] == t;
  }

  lemma {:induction false} RunPrefix(cfg: Config, trace: seq<Action>, n: nat)
    requires n < |trace|
    ensures Run(cfg, INIT, trace[..n + 1]) == Apply(cfg, Run(cfg, INIT, trace[..n]), trace[n])
  {
    assert trace[..n + 1] == trace[..n] + [trace[n]];
    RunOne(cfg, INIT, trace[..n], trace[n]);
  }

  lemma {:induction false} SingleAttemptNeverLate(cfg: Config, s: System, token: Id)
    requires cfg.Valid() && cfg.maxAttempts == 1 && Reachable(cfg, s)
    requires AboutToExecute(s, token) && s.sessions[token].runId in s.rows
    ensures s.rows[s.sessions[token].runId].resultPayload.None?
  {
    ReachableInv(cfg, s);
    InvGivesInvAt(cfg, s, token);
    var seen := s.effects[s.sessions[token].runId];
    if s.rows[s.sessions[token].runId].resultPayload.Some? {
      var other := seen.executions[0];
      assert {token, other} <= seen.freshLeases;
      SubsetSize({token, other}, seen.freshLeases);
    }
  }

  /** Every execution starts before anything is staged, in every run, exactly when one attempt is allowed. */
  lemma {:induction false} LateExecutionsNeedRetries(cfg: Config)
    requires cfg.Valid() && cfg.lease > 0
    ensures ExecutesOnlyUnstaged(cfg) <==> cfg.maxAttempts == 1
  {
    if cfg.maxAttempts == 1 {
      forall s, token | Reachable(cfg, s) && AboutToExecute(s, token) && s.sessions[token].runId in s.rows
        ensures s.rows[s.sessions[token].runId].resultPayload.None?
      {
        SingleAttemptNeverLate(cfg, s, token);
      }
    } else {
      LateTraceStages(cfg);
      var s := Run(cfg, INIT, LateTrace(cfg, Outcome(0, 0, false, None, 0)));
      assert Reachable(cfg, s) && AboutToExecute(s, 100);
    }
  }
}
