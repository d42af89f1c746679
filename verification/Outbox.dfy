/**
 The callback columns as a transactional outbox: one event a run, eligible exactly when the run is over, delivered
 under a lease of its own, and never touching the run it announces.
 */
module Outbox {
  import opened Wrappers
  import opened Ledger
  import opened Protocol
  import opened Invariant
  import opened Preservation
  import opened Safety
  import Timing
  import RunStores

  /** With a callback URL the event waits exactly as long as the run is unfinished, and nobody has claimed it. */
  lemma {:induction false} WaitsUntilTerminal(cfg: Config, s: System, id: Id)
    requires cfg.Valid() && Reachable(cfg, s) && id in s.rows && s.rows[id].callback.Some?
    ensures var c := s.rows[id].callback.value;
            && (c.state.Waiting? <==> !s.rows[id].status.Terminal())
            && (!s.rows[id].status.Terminal() ==> c.lease.None?)
            && (c.lease.Some? <==> c.state.Delivering?)
  {
    ReachableInv(cfg, s);
    assert RowOk(cfg, s.now, s.issued, s.rows[id], s.effects[id]);
  }

  /** LLD section 7; a claim may also take over a delivery whose lease has run out. */
  predicate DeliveryEdge(from: CallbackState, to: CallbackState) {
    match from
    case Waiting => to.Pending?
    case Pending => to.Delivering?
    case Retry => to.Delivering?
    case Delivering => to.Delivered? || to.Retry? || to.ConfigurationFailed?
    case _ => false
  }

  /** The statement that ends a run announces it, in the same step and in no other. */
  lemma {:induction false} AnnouncedWithTheVerdict(st: Statement, row: Row, now: Time)
    requires OutboxOk(row) && row.callback.Some?
    ensures var row' := Execute(st, row, now);
            && row'.callback.Some?
            && var c, c' := row.callback.value, row'.callback.value;
            && (c'.state.Pending? && !c.state.Pending? <==> row'.status.Terminal() && !row.status.Terminal())
            && (c'.state.Pending? && !c.state.Pending? ==> c.state.Waiting? && c'.nextAt == now)
            && (c'.state != c.state ==> DeliveryEdge(c.state, c'.state))
            && c'.eventId == c.eventId && c'.url == c.url
            && (c.state.Delivered? || c.state.ConfigurationFailed? ==> c' == c)
  {
  }

  /** Outbox statements leave every other column alone; lifecycle statements on a finished run leave the outbox alone.
      */
  lemma {:induction false} OutboxIsSeparate(st: Statement, row: Row, now: Time)
    requires row.status.Running? <==> row.lease.Some?
    ensures st.Outbox() ==> Execute(st, row, now) == row.(callback := Execute(st, row, now).callback)
    ensures !st.Outbox() && row.status.Terminal() ==> Execute(st, row, now) == row
    ensures st.ClaimNextCallback? && Matches(st, row, now) ==> row.status.Terminal()
  {
  }

  /** The announcements made along a run of the system. */
  ghost function Announcements(cfg: Config, s: System, trace: seq<Action>, id: Id): nat
    requires WellFormed(s) && id in s.rows
    decreases |trace|
  {
    if trace == [] then 0
    else
      var mid := Run(cfg, s, trace[..|trace| - 1]);
      var row, row' := mid.rows[id], Apply(cfg, mid, trace[|trace| - 1]).rows[id];
      Announcements(cfg, s, trace[..|trace| - 1], id)
      + if row'.callback.Some? && row'.callback.value.state.Pending?
           && !(row.callback.Some? && row.callback.value.state.Pending?) then 1 else 0
  }

  lemma {:induction false} AnnouncementStep(cfg: Config, s: System, a: Action, id: Id)
    requires WellFormed(s) && id in s.rows && OutboxOk(s.rows[id]) && s.rows[id].callback.Some?
    ensures var row, row' := s.rows[id], Apply(cfg, s, a).rows[id];
            && row'.callback.Some?
            && row'.callback.value.eventId == row.callback.value.eventId
            && ((row'.callback.value.state.Pending? && !row.callback.value.state.Pending?)
                <==> (row'.status.Terminal() && !row.status.Terminal()))
            && (row.status.Terminal() ==> row'.status.Terminal())
            && (row.callback.value.state.Delivered? || row.callback.value.state.ConfigurationFailed? ==>
                  row'.callback == row.callback)
  {
    RowsChangeByStatements(cfg, s, a, id);
    match StatementOn(cfg, s, a, id)
    case None =>
    case Some(st) =>
      AnnouncedWithTheVerdict(st, s.rows[id], s.now);
      StatementFollowsGraph(st, s.rows[id], s.now);
  }

  /** An unfinished run is announced exactly once in any future in which it ends, and never otherwise. */
  lemma {:induction false} AnnouncedExactlyOnce(cfg: Config, s: System, trace: seq<Action>, id: Id)
    requires cfg.Valid() && Inv(cfg, s) && id in s.rows && s.rows[id].callback.Some?
    requires !s.rows[id].status.Terminal()
    ensures var s' := Run(cfg, s, trace);
            && Announcements(cfg, s, trace, id) == (if s'.rows[id].status.Terminal() then 1 else 0)
            && s'.rows[id].callback.Some?
            && s'.rows[id].callback.value.eventId == s.rows[id].callback.value.eventId
    decreases |trace|
  {
    if trace != [] {
      var mid := Run(cfg, s, trace[..|trace| - 1]);
      AnnouncedExactlyOnce(cfg, s, trace[..|trace| - 1], id);
      RunKeepsInv(cfg, s, trace[..|trace| - 1]);
      assert RowOk(cfg, mid.now, mid.issued, mid.rows[id], mid.effects[id]);
      AnnouncementStep(cfg, mid, trace[|trace| - 1], id);
    }
  }

  /** Delivered and configuration_failed are final. */
  lemma {:induction false} SettledForGood(cfg: Config, s: System, trace: seq<Action>, id: Id)
    requires cfg.Valid() && Inv(cfg, s) && id in s.rows && s.rows[id].callback.Some?
    requires s.rows[id].callback.value.state.Delivered? || s.rows[id].callback.value.state.ConfigurationFailed?
    ensures Run(cfg, s, trace).rows[id].callback == s.rows[id].callback
    decreases |trace|
  {
    if trace != [] {
      var mid := Run(cfg, s, trace[..|trace| - 1]);
      SettledForGood(cfg, s, trace[..|trace| - 1], id);
      RunKeepsInv(cfg, s, trace[..|trace| - 1]);
      assert RowOk(cfg, mid.now, mid.issued, mid.rows[id], mid.effects[id]);
      AnnouncementStep(cfg, mid, trace[|trace| - 1], id);
    }
  }

  // ----- claims do not overlap -----------------------------------------------------------------

  /** Somewhere along the run the holder of this token settled its delivery. */
  ghost predicate SettledAlong(cfg: Config, s: System, trace: seq<Action>, id: Id, token: Id)
    requires WellFormed(s) && id in s.rows
    decreases |trace|
  {
    trace != [] &&
    var mid, a := Run(cfg, s, trace[..|trace| - 1]), trace[|trace| - 1];
    || SettledAlong(cfg, s, trace[..|trace| - 1], id, token)
    || (a.Settle? && a.runId == id && a.token == token
        && Matches(SettleCallback(token, a.settlement), mid.rows[id], mid.now))
  }

  lemma {:induction false} ClaimKept(st: Statement, row: Row, now: Time)
    requires OutboxOk(row) && row.callback.Some? && row.callback.value.lease.Some?
    ensures var row' := Execute(st, row, now);
            && row'.callback.Some?
            && (|| row'.callback.value.lease == row.callback.value.lease
                || (st.ClaimNextCallback? && row.callback.value.lease.value.expiresAt <= now)
                || (st.SettleCallback? && st.token == row.callback.value.lease.value.token && Matches(st, row, now)))
  {
  }

  ghost predicate Holds(row: Row, held: CallbackLease) {
    row.callback.Some? && row.callback.value.lease == Some(held)
  }

  lemma {:induction false} ClaimStep(cfg: Config, s: System, a: Action, id: Id, held: CallbackLease)
    requires WellFormed(s) && id in s.rows && OutboxOk(s.rows[id]) && Holds(s.rows[id], held)
    ensures || Holds(Apply(cfg, s, a).rows[id], held)
            || held.expiresAt <= s.now
            || (a.Settle? && a.runId == id && a.token == held.token
                && Matches(SettleCallback(held.token, a.settlement), s.rows[id], s.now))
  {
    RowsChangeByStatements(cfg, s, a, id);
    match StatementOn(cfg, s, a, id)
    case None =>
    case Some(st) => ClaimKept(st, s.rows[id], s.now);
  }

  /** The holder of a claim keeps it until it settles it or its lease has run out: nobody else can claim in
      between, so two unexpired claims never coexist. */
  lemma {:induction false} ClaimsDoNotOverlap(cfg: Config, s: System, trace: seq<Action>, id: Id, held: CallbackLease)
    requires cfg.Valid() && Inv(cfg, s) && id in s.rows && Holds(s.rows[id], held)
    ensures var s' := Run(cfg, s, trace);
            Holds(s'.rows[id], held) || held.expiresAt <= s'.now || SettledAlong(cfg, s, trace, id, held.token)
    decreases |trace|
  {
    if trace != [] {
      var mid, a := Run(cfg, s, trace[..|trace| - 1]), trace[|trace| - 1];
      ClaimsDoNotOverlap(cfg, s, trace[..|trace| - 1], id, held);
      Timing.TimePasses(cfg, mid, a);
      if Holds(mid.rows[id], held) {
        RunKeepsInv(cfg, s, trace[..|trace| - 1]);
        assert RowOk(cfg, mid.now, mid.issued, mid.rows[id], mid.effects[id]);
        ClaimStep(cfg, mid, a, id, held);
      }
    }
  }

  // ----- the dispatcher ------------------------------------------------------------------------

  /** What a delivery attempt ran into. */
  datatype Attempt =
    | NoToken
    | NotEncodable
    | NoRequest
    | TransportError
    | Responded(status: int, retryAfter: Time)

  predicate RetryableStatus(status: int) {
    status == 408 || status == 425 || status == 429 || status == 500 || status == 502 || status == 503 || status == 504
  }

  /** The step deliver takes for each class of answer; local is the dispatcher's own delay. */
  function SettlementOf(attempt: Attempt, local: Time): Settlement {
    match attempt
    case Responded(status, retryAfter) =>
      if status == 202 then Accepted
      else if RetryableStatus(status) then Postponed(if retryAfter > local then retryAfter else local)
      else Refused
    case TransportError => Postponed(local)
    case _ => Refused
  }

  /** Only 202 delivers; only a transport error or a retryable status asks for another attempt, after at least the
      dispatcher's own delay and at least Retry-After; everything else is final and needs an operator. */
  lemma {:induction false} SettlementsByAnswer(attempt: Attempt, local: Time)
    ensures SettlementOf(attempt, local).Accepted? <==> attempt.Responded? && attempt.status == 202
    ensures SettlementOf(attempt, local).Postponed? <==>
              attempt.TransportError?
              || (attempt.Responded? && attempt.status in {408, 425, 429, 500, 502, 503, 504})
    ensures SettlementOf(attempt, local).Postponed? ==>
              && local <= SettlementOf(attempt, local).delay
              && (attempt.Responded? ==> attempt.retryAfter <= SettlementOf(attempt, local).delay)
              && (SettlementOf(attempt, local).delay == local
                  || (attempt.Responded? && SettlementOf(attempt, local).delay == attempt.retryAfter))
  {
  }

  class CallbackDispatcher {
    const store: RunStores.RunStore

    constructor (store: RunStores.RunStore)
      ensures this.store == store
    {
      this.store := store;
    }

    /** deliver, from the answer of the attempt on. */
    method Deliver(id: Id, token: Id, attempt: Attempt, local: Time) returns (owned: bool)
      requires id in store.rows
      modifies store`rows
      ensures store.rows
           == old(store.rows)[id := Execute(SettleCallback(token, SettlementOf(attempt, local)), old(store.rows)[id],
                                            store.now)]
      ensures owned == Matches(SettleCallback(token, SettlementOf(attempt, local)), old(store.rows)[id], store.now)
    {
      match attempt
      case NoToken => owned := store.CallbackConfigurationFailed(id, token);
      case NotEncodable => owned := store.CallbackConfigurationFailed(id, token);
      case NoRequest => owned := store.CallbackConfigurationFailed(id, token);
      case TransportError => owned := Retry(id, token, local, 0);
      case Responded(status, retryAfter) =>
        if status == 202 {
          owned := store.CallbackSucceeded(id, token);
        } else if RetryableStatus(status) {
          owned := Retry(id, token, local, retryAfter);
        } else {
          owned := store.CallbackConfigurationFailed(id, token);
        }
    }

    /** Retry-After wins when it is longer than the dispatcher's own delay. */
    method Retry(id: Id, token: Id, local: Time, retryAfter: Time) returns (owned: bool)
      requires id in store.rows
      modifies store`rows
      ensures var delay := if retryAfter > local then retryAfter else local;
              && store.rows == old(store.rows)[id := Execute(SettleCallback(token, Postponed(delay)),
                                                             old(store.rows)[id], store.now)]
              && owned == Matches(SettleCallback(token, Postponed(delay)), old(store.rows)[id], store.now)
    {
      var delay := local;
      if retryAfter > delay {
        delay := retryAfter;
      }
      owned := store.CallbackFailed(id, token, delay);
    }
  }
}
