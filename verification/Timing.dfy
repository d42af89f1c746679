/**
 What waits for what, in terms of the clock: leases, retries and deliveries happen exactly when their time has come, and
 over whole runs never before.
 */
module Timing {
  import opened Wrappers
  import opened Ledger
  import opened Backoff
  import opened Protocol
  import opened Invariant
  import opened Safety

  // ----- leases --------------------------------------------------------------------------------

  /** LeaseNext with a fresh token hands a run out exactly when it may be, and then for the whole lease, counting the
      attempt and clearing the retry time, and nothing else. */
  lemma {:induction false} LeasesExactly(cfg: Config, s: System, id: Id, worker: Id, token: Id)
    requires WellFormed(s) && id in s.rows && token !in s.issued
    ensures var row, row' := s.rows[id], Apply(cfg, s, Acquire(id, worker, token)).rows[id];
            row' == if MayLease(row, s.now, cfg.maxAttempts) then
                      row.(status := Running, lease := Some(Lease(worker, token, s.now + cfg.lease)),
                           attempt := row.attempt + 1, retryAt := None)
                    else row
  {
  }

  /** Whenever a row comes to be held by another token than before, its time had come and nobody held it. */
  lemma {:induction false} LeasedOnlyInTime(cfg: Config, s: System, a: Action, id: Id, token: Id)
    requires WellFormed(s) && id in s.rows && !HasToken(s.rows[id], token)
    requires HasToken(Apply(cfg, s, a).rows[id], token)
    ensures a.Acquire? && a.runId == id && a.token == token && MayLease(s.rows[id], s.now, cfg.maxAttempts)
  {
    RowsChangeByStatements(cfg, s, a, id);
    if StatementOn(cfg, s, a, id).Some? {
      WhoSends(cfg, s, a, id);
      OnlyLeasing(StatementOn(cfg, s, a, id).value, s.rows[id], s.now, token);
    }
    hide Apply;
  }

  lemma {:induction false} OnlyLeasing(st: Statement, row: Row, now: Time, token: Id)
    requires !HasToken(row, token) && HasToken(Execute(st, row, now), token)
    ensures st.LeaseNext? && st.token == token && MayLease(row, now, st.maxAttempts)
  {
  }

  /** A row waits: queued past its cutoff, for this time. */
  predicate Waits(row: Row, due: Time) {
    row.status.Queued? && row.publicationPending && row.retryAt == Some(due)
  }

  lemma {:induction false} WaitingStays(st: Statement, row: Row, now: Time, due: Time)
    requires Waits(row, due) && now < due
    ensures Waits(Execute(st, row, now), due)
  {
  }

  lemma {:induction false} TimePasses(cfg: Config, s: System, a: Action)
    requires WellFormed(s)
    ensures s.now <= Apply(cfg, s, a).now
  {
    match a
    case Work(token, oracle) =>
    case _ =>
  }

  lemma {:induction false} WaitsThroughout(cfg: Config, s: System, trace: seq<Action>, id: Id, due: Time)
    requires WellFormed(s) && id in s.rows && Waits(s.rows[id], due)
    ensures var s' := Run(cfg, s, trace); s'.now < due ==> Waits(s'.rows[id], due)
    decreases |trace|
  {
    hide Waits, Apply;
    if trace != [] {
      var mid, a := Run(cfg, s, trace[..|trace| - 1]), trace[|trace| - 1];
      WaitsThroughout(cfg, s, trace[..|trace| - 1], id, due);
      TimePasses(cfg, mid, a);
      RowsChangeByStatements(cfg, mid, a, id);
      if Apply(cfg, mid, a).now < due && StatementOn(cfg, mid, a, id).Some? {
        WaitingStays(StatementOn(cfg, mid, a, id).value, mid.rows[id], mid.now, due);
      }
    }
  }

  /** The retry that is taken at some time after k others is waited for: whatever happens, the run stays queued at every
      clock before that time plus base times two to the k. */
  lemma {:induction false} RetryIsWaitedFor(cfg: Config, s: System, a: Action, trace: seq<Action>, id: Id)
    requires cfg.Valid() && Reachable(cfg, s) && WellFormed(s) && id in s.rows
    requires Apply(cfg, s, a).rows[id].verificationAttempt > s.rows[id].verificationAttempt
    requires Apply(cfg, s, a).rows[id].status.Queued?
    ensures var due := s.now + Delay(cfg.verificationBackoff, s.rows[id].verificationAttempt);
            var s' := Run(cfg, Apply(cfg, s, a), trace);
            s'.now < due ==> s'.rows[id].status.Queued? && s'.rows[id].retryAt == Some(due)
  {
    hide Apply, Delay;
    RetryWaitsItsDelay(cfg, s, a, id);
    WaitsThroughout(cfg, Apply(cfg, s, a), trace, id,
                    s.now + Delay(cfg.verificationBackoff, s.rows[id].verificationAttempt));
  }

  /** The steps of others: neither the activation with this token nor its heartbeat. */
  predicate NotBy(a: Action, token: Id) {
    !(a.Work? && a.token == token) && !(a.Beat? && a.token == token)
  }

  lemma {:induction false} LiveLeaseStep(cfg: Config, s: System, a: Action, id: Id, held: Lease)
    requires WellFormed(s) && id in s.rows && NotBy(a, held.token) && s.now < held.expiresAt
    requires s.rows[id].status.Running? && s.rows[id].lease == Some(held)
    ensures var row' := Apply(cfg, s, a).rows[id]; row'.status.Running? && row'.lease == Some(held)
  {
    RowsChangeByStatements(cfg, s, a, id);
    if StatementOn(cfg, s, a, id).Some? {
      WhoSends(cfg, s, a, id);
      LiveLeaseStatement(StatementOn(cfg, s, a, id).value, s.rows[id], s.now, held);
    }
    hide Apply;
  }

  lemma {:induction false} LiveLeaseStatement(st: Statement, row: Row, now: Time, held: Lease)
    requires row.status.Running? && row.lease == Some(held) && now < held.expiresAt
    requires st.Fenced() ==> TokenOf(st) != held.token
    ensures var row' := Execute(st, row, now); row'.status.Running? && row'.lease == Some(held)
  {
  }

  /** Whatever others do, a lease stays with its holder until it has run out: nobody takes, ends or requeues the run. */
  lemma {:induction false} LiveLeaseIsKept(cfg: Config, s: System, trace: seq<Action>, id: Id, held: Lease)
    requires WellFormed(s) && id in s.rows && s.rows[id].status.Running? && s.rows[id].lease == Some(held)
    requires forall i :: 0 <= i < |trace| ==> NotBy(trace[i], held.token)
    ensures var s' := Run(cfg, s, trace);
            s'.now < held.expiresAt ==> s'.rows[id].status.Running? && s'.rows[id].lease == Some(held)
    decreases |trace|
  {
    hide Apply;
    if trace != [] {
      var mid, a := Run(cfg, s, trace[..|trace| - 1]), trace[|trace| - 1];
      LiveLeaseIsKept(cfg, s, trace[..|trace| - 1], id, held);
      TimePasses(cfg, mid, a);
      if Apply(cfg, mid, a).now < held.expiresAt {
        LiveLeaseStep(cfg, mid, a, id, held);
      }
    }
  }

  // ----- deliveries ----------------------------------------------------------------------------

  /** A claim with a fresh token takes an event exactly when it may be, for the whole delivery lease. */
  lemma {:induction false} ClaimsExactly(cfg: Config, s: System, id: Id, token: Id)
    requires WellFormed(s) && id in s.rows && token !in s.issued
    ensures var row, row' := s.rows[id], Apply(cfg, s, Claim(id, token)).rows[id];
            row' == if MayClaim(row, s.now) then
                      row.(callback := Some(row.callback.value.(
                        state := Delivering, lease := Some(CallbackLease(token, s.now + cfg.callbackLease)))))
                    else row
  {
  }

  /** Its holder settles it, whether or not the lease has run out, and everybody else changes nothing. */
  lemma {:induction false} SettlesExactly(cfg: Config, s: System, id: Id, token: Id, settlement: Settlement)
    requires WellFormed(s) && id in s.rows
    ensures var row, row' := s.rows[id], Apply(cfg, s, Settle(id, token, settlement)).rows[id];
            if row.callback.Some? && row.callback.value.state.Delivering? && row.callback.value.lease.Some?
               && row.callback.value.lease.value.token == token then
              var c := row.callback.value;
              var c' := match settlement
                        case Accepted => c.(state := Delivered)
                        case Refused => c.(state := ConfigurationFailed)
                        case Postponed(delay) => c.(state := Retry, nextAt := s.now + delay);
              row' == row.(callback := Some(c'.(attempt := c.attempt + 1, lease := None)))
            else row' == row
  {
  }

  /** The event waits for its next delivery at this time. */
  predicate WaitsForDelivery(row: Row, due: Time) {
    row.status.Terminal() && row.callback.Some? && row.callback.value.state.Retry? && row.callback.value.nextAt == due
  }

  lemma {:induction false} DeliveryWaits(st: Statement, row: Row, now: Time, due: Time)
    requires WaitsForDelivery(row, due) && now < due
    ensures WaitsForDelivery(Execute(st, row, now), due)
  {
  }

  /** A postponed delivery is waited for: the event is not claimed again at any clock before its time. */
  lemma {:induction false} PostponementIsWaitedFor(cfg: Config, s: System, trace: seq<Action>, id: Id, due: Time)
    requires WellFormed(s) && id in s.rows && WaitsForDelivery(s.rows[id], due)
    ensures var s' := Run(cfg, s, trace); s'.now < due ==> WaitsForDelivery(s'.rows[id], due)
    decreases |trace|
  {
    hide WaitsForDelivery, Apply;
    if trace != [] {
      var mid, a := Run(cfg, s, trace[..|trace| - 1]), trace[|trace| - 1];
      PostponementIsWaitedFor(cfg, s, trace[..|trace| - 1], id, due);
      TimePasses(cfg, mid, a);
      RowsChangeByStatements(cfg, mid, a, id);
      if Apply(cfg, mid, a).now < due && StatementOn(cfg, mid, a, id).Some? {
        DeliveryWaits(StatementOn(cfg, mid, a, id).value, mid.rows[id], mid.now, due);
      }
    }
  }
}
