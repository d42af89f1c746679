/** Every action preserves the invariant, so every reachable system satisfies it. */
module Preservation {
  import opened Collections
  import opened Wrappers
  import opened Ledger
  import opened Sink
  import opened Protocol
  import opened Invariant

  /** What a step by anybody else leaves of the facts the activation with this token relies on. */
  ghost predicate Undisturbed(token: Id, row: Row, row': Row, seen: Effects, seen': Effects) {
    && row'.runId == row.runId && row'.resultId == row.resultId
    && (row.resultPayload.Some? ==> row'.resultPayload == row.resultPayload)
    && (row.cancelRequested ==> row'.cancelRequested)
    && (HasToken(row', token) ==>
          && HasToken(row, token)
          && row'.resultPayload == row.resultPayload && row'.publicationPending == row.publicationPending
          && row'.verificationAttempt == row.verificationAttempt)
    && (seen.cutoff.Some? ==> seen'.cutoff == seen.cutoff)
    && seen.freshLeases <= seen'.freshLeases
    && (token in seen'.executions <==> token in seen.executions)
    && (seen.cutoff == Some(token) ==> seen'.merges == seen.merges)
  }

  lemma {:induction false} SessionKept(token: Id, sess: Session, row: Row, row': Row, seen: Effects, seen': Effects)
    requires SessionOk(token, sess, row, seen)
    requires Undisturbed(token, row, row', seen, seen')
    ensures SessionOk(token, sess, row', seen')
  {
  }

  /** What any step does to a row and its effects, whoever takes it. */
  ghost predicate Evolves(row: Row, row': Row, seen: Effects, seen': Effects) {
    && row'.runId == row.runId && row'.requestId == row.requestId && row'.resultId == row.resultId
    && (row.resultPayload.Some? ==> row'.resultPayload == row.resultPayload)
    && (seen.cutoff.Some? ==> seen'.cutoff == seen.cutoff)
  }

  ghost predicate PublishedIfCompleted(row: Row, table: seq<SinkRow>) {
    row.status.Completed? ==>
      row.resultPayload.Some? && Stored(table, row.resultId) == [Publication(row)]
  }

  ghost predicate PublishedIfCompleting(sess: Session, table: seq<SinkRow>) {
    sess.pc.ToComplete? && sess.outcome.Some? ==>
      Stored(table, sess.outcome.value.resultId) == [Protocol.Published(sess)]
  }

  /** A step touches one row, its effects and the activations in actors; nobody else is disturbed. */
  ghost predicate OneRowChange(s: System, s': System, id: Id, actors: set<Id>) {
    && WellFormed(s) && WellFormed(s')
    && id in s.rows && s'.now == s.now && s'.table == s.table && s.merges <= s'.merges
    && s.issued <= s'.issued
    && s'.rows.Keys == s.rows.Keys
    && (forall i :: i in s.rows && i != id ==> s'.rows[i] == s.rows[i] && s'.effects[i] == s.effects[i])
    && s.sessions.Keys <= s'.sessions.Keys <= s.sessions.Keys + actors
    && (forall t :: t in s'.sessions && t !in actors ==> s'.sessions[t] == s.sessions[t])
    && Evolves(s.rows[id], s'.rows[id], s.effects[id], s'.effects[id])
    && (forall t :: t in s.issued && t !in actors ==>
          Undisturbed(t, s.rows[id], s'.rows[id], s.effects[id], s'.effects[id]))
    && (forall m :: m in s'.merges && m !in s.merges ==>
          && m.runId == id && s'.effects[id].cutoff.Some?
          && s'.rows[id].resultPayload.Some? && m == Publication(s'.rows[id]))
  }

  /** The activation is in order after the step. */
  ghost predicate ActorOk(s: System, id: Id, token: Id) {
    && WellFormed(s) && id in s.rows
    && (token in s.sessions ==>
          && token in s.issued
          && s.sessions[token].runId == id
          && SessionOk(token, s.sessions[token], s.rows[id], s.effects[id])
          && PublishedIfCompleting(s.sessions[token], s.table))
  }

  ghost predicate ActorsOk(s: System, id: Id, actors: set<Id>) {
    forall t :: t in actors ==> ActorOk(s, id, t)
  }

  lemma {:induction false} RowsKept(cfg: Config, s: System, s': System, id: Id, actors: set<Id>)
    requires OneRowChange(s, s', id, actors) && RowsOk(cfg, s)
    requires RowOk(cfg, s'.now, s'.issued, s'.rows[id], s'.effects[id])
    ensures RowsOk(cfg, s')
  {
    forall i | i in s'.rows && i != id
      ensures RowOk(cfg, s'.now, s'.issued, s'.rows[i], s'.effects[i])
    {
      IssuedGrows(cfg, s.now, s.now, s.issued, s'.issued, s.rows[i], s.effects[i]);
    }
  }

  lemma {:induction false} IssuedGrows(cfg: Config, now: Time, now': Time, issued: set<Id>, issued': set<Id>,
                                       row: Row, seen: Effects)
    requires RowOk(cfg, now, issued, row, seen) && now <= now' && issued <= issued'
    ensures RowOk(cfg, now', issued', row, seen)
  {
  }

  lemma {:induction false} SessionsKept(s: System, s': System, id: Id, actors: set<Id>)
    requires OneRowChange(s, s', id, actors) && SessionsOk(s)
    requires ActorsOk(s', id, actors)
    ensures SessionsOk(s')
  {
    forall t | t in s'.sessions
      ensures t in s'.issued
      ensures SessionOk(t, s'.sessions[t], s'.rows[s'.sessions[t].runId], s'.effects[s'.sessions[t].runId])
    {
      if t in actors {
        assert ActorOk(s', id, t);
      } else {
        var sess := s.sessions[t];
        assert SessionOk(t, sess, s.rows[sess.runId], s.effects[sess.runId]);
        if sess.runId == id {
          SessionKept(t, sess, s.rows[id], s'.rows[id], s.effects[id], s'.effects[id]);
        }
      }
    }
  }

  lemma {:induction false} MergesKept(s: System, s': System, id: Id, actors: set<Id>)
    requires OneRowChange(s, s', id, actors) && MergesOk(s)
    ensures MergesOk(s')
  {
  }

  lemma {:induction false} TableKept(s: System, s': System, id: Id, actors: set<Id>)
    requires OneRowChange(s, s', id, actors) && TableOk(s)
    requires PublishedIfCompleted(s'.rows[id], s'.table)
    requires ActorsOk(s', id, actors)
    ensures TableOk(s')
  {
    forall t | t in s'.sessions && s'.sessions[t].pc.ToComplete? && s'.sessions[t].outcome.Some?
      ensures PublishedIfCompleting(s'.sessions[t], s'.table)
    {
      if t in actors {
        assert ActorOk(s', id, t);
      }
    }
  }

  lemma {:induction false} IdentitiesKept(s: System, s': System, id: Id, actors: set<Id>)
    requires OneRowChange(s, s', id, actors) && IdentitiesOk(s.rows)
    ensures IdentitiesOk(s'.rows)
  {
  }

  /** A step on one row re-establishes the invariant when the row and the actors do. */
  lemma {:induction false} OneRowStep(cfg: Config, s: System, s': System, id: Id, actors: set<Id>)
    requires Inv(cfg, s) && OneRowChange(s, s', id, actors)
    requires RowOk(cfg, s'.now, s'.issued, s'.rows[id], s'.effects[id])
    requires PublishedIfCompleted(s'.rows[id], s'.table)
    requires ActorsOk(s', id, actors)
    ensures Inv(cfg, s')
  {
    RowsKept(cfg, s, s', id, actors);
    SessionsKept(s, s', id, actors);
    MergesKept(s, s', id, actors);
    TableKept(s, s', id, actors);
    IdentitiesKept(s, s', id, actors);
  }

  /** The statements sent by nobody in particular: cancellation, recovery and the outbox. */
  predicate Anonymous(cfg: Config, issued: set<Id>, st: Statement) {
    st.Cancel? || st.RecoverCanceled? || st == FailExhausted(cfg.maxAttempts) || st.SettleCallback?
    || (st.ClaimNextCallback? && st.token in issued)
  }

  lemma {:induction false} AnonymousStatement(cfg: Config, now: Time, issued: set<Id>, row: Row, seen: Effects,
                                              st: Statement)
    requires cfg.Valid() && RowOk(cfg, now, issued, row, seen) && Anonymous(cfg, issued, st)
    ensures var row' := Execute(st, row, now);
            && RowOk(cfg, now, issued, row', seen)
            && Evolves(row, row', seen, seen)
            && (forall t :: Undisturbed(t, row, row', seen, seen))
            && (row'.status.Completed? ==> row.status.Completed?)
  {
  }

  lemma {:induction false} AnonymousChange(cfg: Config, s: System, id: Id, st: Statement)
    requires cfg.Valid() && WellFormed(s) && id in s.rows && Anonymous(cfg, s.issued, st)
    requires RowOk(cfg, s.now, s.issued, s.rows[id], s.effects[id])
    ensures var s' := Update(s, id, st);
            && OneRowChange(s, s', id, {})
            && RowOk(cfg, s'.now, s'.issued, s'.rows[id], s'.effects[id])
            && Evolves(s.rows[id], s'.rows[id], s.effects[id], s.effects[id])
            && (s'.rows[id].status.Completed? ==> s.rows[id].status.Completed?)
  {
    hide RowOk, Execute;
    AnonymousStatement(cfg, s.now, s.issued, s.rows[id], s.effects[id], st);
  }

  lemma {:induction false} InvGivesRow(cfg: Config, s: System, id: Id)
    requires Inv(cfg, s) && id in s.rows
    ensures WellFormed(s) && RowOk(cfg, s.now, s.issued, s.rows[id], s.effects[id])
            && PublishedIfCompleted(s.rows[id], s.table)
  {
  }

  lemma {:induction false} AnonymousPublishes(s: System, id: Id, st: Statement)
    requires WellFormed(s) && id in s.rows && PublishedIfCompleted(s.rows[id], s.table)
    requires Evolves(s.rows[id], Update(s, id, st).rows[id], s.effects[id], s.effects[id])
    requires Update(s, id, st).rows[id].status.Completed? ==> s.rows[id].status.Completed?
    ensures PublishedIfCompleted(Update(s, id, st).rows[id], Update(s, id, st).table)
  {
  }

  lemma {:induction false} AnonymousStep(cfg: Config, s: System, id: Id, st: Statement)
    requires cfg.Valid() && Inv(cfg, s) && id in s.rows && Anonymous(cfg, s.issued, st)
    ensures Inv(cfg, Update(s, id, st))
  {
    hide Inv, RowOk, OneRowChange, PublishedIfCompleted;
    InvGivesRow(cfg, s, id);
    AnonymousChange(cfg, s, id, st);
    AnonymousPublishes(s, id, st);
    OneRowStep(cfg, s, Update(s, id, st), id, {});
  }

  lemma {:induction false} MoreIssued(cfg: Config, s: System, token: Id)
    requires Inv(cfg, s)
    ensures Inv(cfg, s.(issued := s.issued + {token}))
  {
    var s' := s.(issued := s.issued + {token});
    forall id | id in s.rows ensures RowOk(cfg, s'.now, s'.issued, s'.rows[id], s'.effects[id]) {
      IssuedGrows(cfg, s.now, s.now, s.issued, s'.issued, s.rows[id], s.effects[id]);
    }
  }

  lemma {:induction false} ClaimKeepsInv(cfg: Config, s: System, id: Id, token: Id)
    requires cfg.Valid() && Inv(cfg, s)
    ensures Inv(cfg, Apply(cfg, s, Claim(id, token)))
  {
    assert WellFormed(s);
    hide Inv, RowOk, Execute, Matches, WorkStep, BeatStep, AcquireStep, SubmitStep;
    var st := ClaimNextCallback(token, cfg.callbackLease);
    if id in s.rows && token !in s.issued && Wrote(s, id, st) {
      MoreIssued(cfg, s, token);
      AnonymousStep(cfg, s.(issued := s.issued + {token}), id, st);
    }
  }

  lemma {:induction false} TickKeepsInv(cfg: Config, s: System, elapsed: nat)
    requires Inv(cfg, s)
    ensures Inv(cfg, s.(now := s.now + elapsed))
  {
    var s' := s.(now := s.now + elapsed);
    forall id | id in s.rows ensures RowOk(cfg, s'.now, s'.issued, s'.rows[id], s'.effects[id]) {
      IssuedGrows(cfg, s.now, s'.now, s.issued, s.issued, s.rows[id], s.effects[id]);
    }
  }

  lemma {:induction false} SweepKeepsRows(cfg: Config, s: System, st: Statement)
    requires cfg.Valid() && WellFormed(s) && RowsOk(cfg, s) && Anonymous(cfg, s.issued, st)
    ensures var s' := UpdateAll(s, st);
            && RowsOk(cfg, s')
            && forall id :: id in s.rows ==>
                 && Evolves(s.rows[id], s'.rows[id], s.effects[id], s'.effects[id])
                 && (s'.rows[id].status.Completed? ==> s.rows[id].status.Completed?)
  {
    var s' := UpdateAll(s, st);
    forall id | id in s.rows
      ensures RowOk(cfg, s'.now, s'.issued, s'.rows[id], s'.effects[id])
      ensures Evolves(s.rows[id], s'.rows[id], s.effects[id], s'.effects[id])
      ensures s'.rows[id].status.Completed? ==> s.rows[id].status.Completed?
    {
      AnonymousStatement(cfg, s.now, s.issued, s.rows[id], s.effects[id], st);
    }
  }

  /** Rows that only evolve, without completing, keep identities, MERGEs and sink in order. */
  lemma {:induction false} EvolutionKeepsTable(s: System, s': System)
    requires WellFormed(s) && IdentitiesOk(s.rows) && MergesOk(s) && TableOk(s)
    requires s' == s.(rows := s'.rows) && s'.rows.Keys == s.rows.Keys
    requires forall id :: id in s.rows ==>
               && Evolves(s.rows[id], s'.rows[id], s.effects[id], s.effects[id])
               && (s'.rows[id].status.Completed? ==> s.rows[id].status.Completed?)
    ensures IdentitiesOk(s'.rows) && MergesOk(s') && TableOk(s')
  {
  }

  /** RecoverCanceled and FailExhausted act on every row in one statement. */
  lemma {:induction false} SweepKeepsInv(cfg: Config, s: System, st: Statement)
    requires cfg.Valid() && Inv(cfg, s) && Anonymous(cfg, s.issued, st)
    ensures Inv(cfg, UpdateAll(s, st))
  {
    hide RowOk, SessionOk, Evolves, Execute, IdentitiesOk, MergesOk, TableOk;
    SweepKeepsRows(cfg, s, st);
    SweepKeepsSessions(cfg, s, st);
    EvolutionKeepsTable(s, UpdateAll(s, st));
  }

  lemma {:induction false} SweepKeepsSessions(cfg: Config, s: System, st: Statement)
    requires cfg.Valid() && WellFormed(s) && RowsOk(cfg, s) && SessionsOk(s) && Anonymous(cfg, s.issued, st)
    ensures SessionsOk(UpdateAll(s, st))
  {
    var s' := UpdateAll(s, st);
    forall t | t in s'.sessions
      ensures t in s'.issued
      ensures SessionOk(t, s'.sessions[t], s'.rows[s'.sessions[t].runId], s'.effects[s'.sessions[t].runId])
    {
      var id := s.sessions[t].runId;
      AnonymousStatement(cfg, s.now, s.issued, s.rows[id], s.effects[id], st);
      SessionKept(t, s.sessions[t], s.rows[id], s'.rows[id], s.effects[id], s'.effects[id]);
    }
  }

  /** The facts of the invariant about one activation and its row. */
  ghost predicate InvAt(cfg: Config, s: System, token: Id) {
    && WellFormed(s) && token in s.sessions && token in s.issued
    && var id := s.sessions[token].runId;
    && s.rows[id].runId == id
    && RowOk(cfg, s.now, s.issued, s.rows[id], s.effects[id])
    && SessionOk(token, s.sessions[token], s.rows[id], s.effects[id])
    && PublishedIfCompleted(s.rows[id], s.table)
    && PublishedIfCompleting(s.sessions[token], s.table)
  }

  lemma {:induction false} InvGivesInvAt(cfg: Config, s: System, token: Id)
    requires Inv(cfg, s) && token in s.sessions
    ensures InvAt(cfg, s, token)
  {
    assert RowOk(cfg, s.now, s.issued, s.rows[s.sessions[token].runId], s.effects[s.sessions[token].runId]);
  }

  /** The activation's step is in order for its row, itself and everybody else. */
  ghost predicate ActorStep(cfg: Config, s: System, s': System, token: Id) {
    && WellFormed(s) && token in s.sessions
    && var id := s.sessions[token].runId;
    && OneRowChange(s, s', id, {token})
    && RowOk(cfg, s'.now, s'.issued, s'.rows[id], s'.effects[id])
    && PublishedIfCompleted(s'.rows[id], s'.table)
    && ActorsOk(s', id, {token})
  }

  lemma {:induction false} ActorStepKeepsInv(cfg: Config, s: System, s': System, token: Id)
    requires Inv(cfg, s) && ActorStep(cfg, s, s', token)
    ensures Inv(cfg, s')
  {
    OneRowStep(cfg, s, s', s.sessions[token].runId, {token});
  }

  lemma {:induction false} SessionOnlyChange(s: System, token: Id, sess: Session)
    requires WellFormed(s) && token in s.sessions && token in s.issued && sess.runId == s.sessions[token].runId
    requires SessionOk(token, sess, s.rows[sess.runId], s.effects[sess.runId])
    requires PublishedIfCompleting(sess, s.table)
    ensures var s' := s.(sessions := s.sessions[token := sess]);
            OneRowChange(s, s', sess.runId, {token}) && ActorsOk(s', sess.runId, {token})
  {
    hide SessionOk, PublishedIfCompleting;
  }

  /** A step that changes an activation only. */
  lemma {:induction false} SessionOnlyStep(cfg: Config, s: System, token: Id, sess: Session)
    requires Inv(cfg, s) && token in s.sessions
    requires sess.runId == s.sessions[token].runId
    requires SessionOk(token, sess, s.rows[sess.runId], s.effects[sess.runId])
    requires PublishedIfCompleting(sess, s.table)
    ensures Inv(cfg, s.(sessions := s.sessions[token := sess]))
  {
    hide SessionOk, RowOk, Inv, PublishedIfCompleting, PublishedIfCompleted, OneRowChange, ActorsOk;
    InvGivesInvAt(cfg, s, token);
    SessionOnlyChange(s, token, sess);
    OneRowStep(cfg, s, s.(sessions := s.sessions[token := sess]), sess.runId, {token});
  }

  lemma {:induction false} DoneIsOk(token: Id, sess: Session, row: Row, seen: Effects)
    requires SessionOk(token, sess, row, seen)
    ensures SessionOk(token, sess.(pc := Done), row, seen)
    ensures SessionOk(token, sess.(leaseLost := true), row, seen)
    ensures forall seenCancel ::
              (seenCancel ==> row.cancelRequested) ==> SessionOk(token, sess.(cancelSeen := seenCancel), row, seen)
  {
  }

  lemma {:induction false} CrashKeepsInv(cfg: Config, s: System, token: Id)
    requires Inv(cfg, s)
    ensures Inv(cfg, Apply(cfg, s, Crash(token)))
  {
    if token in s.sessions {
      var sess := s.sessions[token];
      InvGivesInvAt(cfg, s, token);
      DoneIsOk(token, sess, s.rows[sess.runId], s.effects[sess.runId]);
      SessionOnlyStep(cfg, s, token, sess.(pc := Done));
    }
  }

  lemma {:induction false} SubmitRow(cfg: Config, now: Time, issued: set<Id>, a: Action)
    requires cfg.Valid() && a.Submit?
    ensures RowOk(cfg, now, issued, NewRow(a.runId, a.requestId, a.resultId, a.createdAt, a.callback),
                  Effects({}, [], None, 0))
  {
  }

  lemma {:induction false} SubmitKeepsRows(cfg: Config, s: System, a: Action)
    requires cfg.Valid() && WellFormed(s) && RowsOk(cfg, s) && IdentitiesOk(s.rows) && a.Submit?
    ensures var s' := SubmitStep(s, a); RowsOk(cfg, s') && IdentitiesOk(s'.rows)
  {
    hide RowOk, NewRow;
    SubmitRow(cfg, s.now, s.issued, a);
    NewRowIs(a);
  }

  lemma {:induction false} NewRowIs(a: Action)
    requires a.Submit?
    ensures var row := NewRow(a.runId, a.requestId, a.resultId, a.createdAt, a.callback);
            row.runId == a.runId && row.requestId == a.requestId && row.resultId == a.resultId
  {
  }

  lemma {:induction false} SubmitKeepsRest(s: System, a: Action)
    requires WellFormed(s) && SessionsOk(s) && MergesOk(s) && TableOk(s) && a.Submit?
    ensures var s' := SubmitStep(s, a); SessionsOk(s') && MergesOk(s') && TableOk(s')
  {
    var s' := SubmitStep(s, a);
    forall t | t in s'.sessions
      ensures t in s'.issued
      ensures SessionOk(t, s'.sessions[t], s'.rows[s'.sessions[t].runId], s'.effects[s'.sessions[t].runId])
    {
      assert SessionOk(t, s.sessions[t], s.rows[s.sessions[t].runId], s.effects[s.sessions[t].runId]);
    }
  }

  lemma {:induction false} SubmitKeepsInv(cfg: Config, s: System, a: Action)
    requires cfg.Valid() && Inv(cfg, s) && a.Submit?
    ensures Inv(cfg, SubmitStep(s, a))
  {
    SubmitKeepsRows(cfg, s, a);
    SubmitKeepsRest(s, a);
  }

  lemma {:induction false} AcquireRow(cfg: Config, now: Time, issued: set<Id>, row: Row, seen: Effects, worker: Id,
                                      token: Id)
    requires cfg.Valid() && RowOk(cfg, now, issued, row, seen) && token !in issued
    requires Matches(LeaseNext(worker, token, cfg.lease, cfg.maxAttempts), row, now)
    ensures var row' := Written(LeaseNext(worker, token, cfg.lease, cfg.maxAttempts), row, now);
            var seen' := if row.response.None? then seen.(freshLeases := seen.freshLeases + {token}) else seen;
            && RowOk(cfg, now, issued + {token}, row', seen')
            && Evolves(row, row', seen, seen')
            && row'.status.Running?
            && (forall t :: t in issued ==> Undisturbed(t, row, row', seen, seen'))
            && row.resultPayload == row.response && row'.publicationPending == seen'.cutoff.Some?
  {
    if row.response.None? {
      assert |seen.freshLeases + {token}| == |seen.freshLeases| + 1;
    }
  }

  lemma {:induction false} AcquireChange(cfg: Config, s: System, id: Id, worker: Id, token: Id)
    requires cfg.Valid() && WellFormed(s) && id in s.rows && token !in s.issued && token !in s.sessions
    requires RowOk(cfg, s.now, s.issued, s.rows[id], s.effects[id])
    requires Wrote(s, id, LeaseNext(worker, token, cfg.lease, cfg.maxAttempts))
    ensures var s' := AcquireStep(cfg, s, id, worker, token);
            && OneRowChange(s, s', id, {token})
            && RowOk(cfg, s'.now, s'.issued, s'.rows[id], s'.effects[id])
            && s'.rows[id].status.Running?
  {
    AcquireRow(cfg, s.now, s.issued, s.rows[id], s.effects[id], worker, token);
  }

  lemma {:induction false} AcquireActor(cfg: Config, s: System, id: Id, worker: Id, token: Id)
    requires cfg.Valid() && WellFormed(s) && id in s.rows && token !in s.issued && token !in s.sessions
    requires RowOk(cfg, s.now, s.issued, s.rows[id], s.effects[id])
    requires Wrote(s, id, LeaseNext(worker, token, cfg.lease, cfg.maxAttempts))
    ensures ActorsOk(AcquireStep(cfg, s, id, worker, token), id, {token})
  {
  }

  lemma {:induction false} AcquireKeepsInv(cfg: Config, s: System, id: Id, worker: Id, token: Id)
    requires cfg.Valid() && Inv(cfg, s)
    ensures Inv(cfg, Apply(cfg, s, Acquire(id, worker, token)))
  {
    if id in s.rows && token !in s.issued && Wrote(s, id, LeaseNext(worker, token, cfg.lease, cfg.maxAttempts)) {
      assert RowOk(cfg, s.now, s.issued, s.rows[id], s.effects[id]);
      AcquireChange(cfg, s, id, worker, token);
      AcquireActor(cfg, s, id, worker, token);
      OneRowStep(cfg, s, AcquireStep(cfg, s, id, worker, token), id, {token});
    }
  }

  lemma {:induction false} LandKeepsInv(cfg: Config, s: System, source: SinkRow)
    requires Inv(cfg, s)
    ensures Inv(cfg, Apply(cfg, s, Land(source)))
  {
    hide RowOk, SessionOk, IdentitiesOk;
    var s' := Apply(cfg, s, Land(source));
    if source in s.merges {
      forall key
        ensures |Stored(s'.table, key)| <= 1
        ensures Stored(s.table, key) != [] ==> Stored(s'.table, key) == Stored(s.table, key)
      {
        MergeInsertsOnce(s.table, source, key);
      }
    }
  }

  /** What the statement of an activation leaves, for its row, for itself and for everybody else. */
  ghost predicate StatementOk(cfg: Config, now: Time, issued: set<Id>, row: Row, seen: Effects, token: Id,
                              sess: Session)
    requires StatementOf(cfg, token, sess).Some?
  {
    var st := StatementOf(cfg, token, sess).value;
    var row' := Execute(st, row, now);
    var written := Matches(st, row, now);
    var marking := sess.pc.ToMarkPending? && written;
    var seen' := if marking then seen.(cutoff := Some(token)) else seen;
    var next := sess.(pc := AfterStatement(sess.pc, written, row.cancelRequested), pending := sess.pending || marking);
    && RowOk(cfg, now, issued, row', seen')
    && SessionOk(token, next, row', seen')
    && !next.pc.ToComplete?
    && Evolves(row, row', seen, seen')
    && (row'.status.Completed? && !row.status.Completed? ==>
          sess.pc.ToComplete? && row'.resultPayload == row.resultPayload == sess.outcome)
  }

  lemma {:induction false} FailingStatement(cfg: Config, now: Time, issued: set<Id>, row: Row, seen: Effects,
                                            token: Id, sess: Session)
    requires cfg.Valid() && RowOk(cfg, now, issued, row, seen) && SessionOk(token, sess, row, seen)
    requires sess.pc.ToFail?
    ensures StatementOf(cfg, token, sess).Some? && StatementOk(cfg, now, issued, row, seen, token, sess)
  {
    hide Distinct;
    if !Matches(StatementOf(cfg, token, sess).value, row, now) {
      hide LifecycleOk, CountersOk, OutboxOk, TokensOk;
    }
  }

  lemma {:induction false} CancelingStatement(cfg: Config, now: Time, issued: set<Id>, row: Row, seen: Effects,
                                              token: Id, sess: Session)
    requires cfg.Valid() && RowOk(cfg, now, issued, row, seen) && SessionOk(token, sess, row, seen)
    requires sess.pc.ToMarkCanceled?
    ensures StatementOf(cfg, token, sess).Some? && StatementOk(cfg, now, issued, row, seen, token, sess)
  {
    hide Distinct;
    if !Matches(StatementOf(cfg, token, sess).value, row, now) {
      hide LifecycleOk, CountersOk, OutboxOk, TokensOk;
    }
  }

  lemma {:induction false} FailingOutcomeStatement(cfg: Config, now: Time, issued: set<Id>, row: Row, seen: Effects,
                                                   token: Id, sess: Session)
    requires cfg.Valid() && RowOk(cfg, now, issued, row, seen) && SessionOk(token, sess, row, seen)
    requires sess.pc.ToFailOutcome?
    ensures StatementOf(cfg, token, sess).Some? && StatementOk(cfg, now, issued, row, seen, token, sess)
  {
    hide Distinct;
    if !Matches(StatementOf(cfg, token, sess).value, row, now) {
      hide LifecycleOk, CountersOk, OutboxOk, TokensOk;
    }
  }

  lemma {:induction false} StagingStatement(cfg: Config, now: Time, issued: set<Id>, row: Row, seen: Effects,
                                            token: Id, sess: Session)
    requires cfg.Valid() && RowOk(cfg, now, issued, row, seen) && SessionOk(token, sess, row, seen)
    requires sess.pc.ToStage?
    ensures StatementOf(cfg, token, sess).Some? && StatementOk(cfg, now, issued, row, seen, token, sess)
  {
  }

  lemma {:induction false} HeartbeatStatement(cfg: Config, now: Time, issued: set<Id>, row: Row, seen: Effects,
                                              token: Id, sess: Session)
    requires cfg.Valid() && RowOk(cfg, now, issued, row, seen) && SessionOk(token, sess, row, seen)
    requires sess.pc.StageRefused? || sess.pc.Fence?
    ensures StatementOf(cfg, token, sess).Some? && StatementOk(cfg, now, issued, row, seen, token, sess)
  {
    if row.HeldLive(sess.worker, token, now) {
      HeartbeatRow(cfg, now, issued, row, seen, sess.worker, token);
      hide LifecycleOk, CountersOk, OutboxOk, TokensOk, Evolves;
    } else {
      hide LifecycleOk, CountersOk, OutboxOk, TokensOk;
    }
  }

  lemma {:induction false} PublishingStatement(cfg: Config, now: Time, issued: set<Id>, row: Row, seen: Effects,
                                               token: Id, sess: Session)
    requires cfg.Valid() && RowOk(cfg, now, issued, row, seen) && SessionOk(token, sess, row, seen)
    requires sess.pc.ToMarkPending? || sess.pc.ToComplete?
    ensures StatementOf(cfg, token, sess).Some? && StatementOk(cfg, now, issued, row, seen, token, sess)
  {
    if sess.pc.ToMarkPending? {
      MarkingStatement(cfg, now, issued, row, seen, token, sess);
    } else {
      CompletingStatement(cfg, now, issued, row, seen, token, sess);
    }
  }

  lemma {:induction false} MarkingStatement(cfg: Config, now: Time, issued: set<Id>, row: Row, seen: Effects,
                                            token: Id, sess: Session)
    requires cfg.Valid() && RowOk(cfg, now, issued, row, seen) && SessionOk(token, sess, row, seen)
    requires sess.pc.ToMarkPending?
    ensures StatementOf(cfg, token, sess).Some? && StatementOk(cfg, now, issued, row, seen, token, sess)
  {
    hide Distinct;
    if !Matches(StatementOf(cfg, token, sess).value, row, now) {
      hide LifecycleOk, CountersOk, OutboxOk, TokensOk;
    }
  }

  lemma {:induction false} CompletingStatement(cfg: Config, now: Time, issued: set<Id>, row: Row, seen: Effects,
                                               token: Id, sess: Session)
    requires cfg.Valid() && RowOk(cfg, now, issued, row, seen) && SessionOk(token, sess, row, seen)
    requires sess.pc.ToComplete?
    ensures StatementOf(cfg, token, sess).Some? && StatementOk(cfg, now, issued, row, seen, token, sess)
  {
    hide Distinct;
    if !Matches(StatementOf(cfg, token, sess).value, row, now) {
      hide LifecycleOk, CountersOk, OutboxOk, TokensOk;
    }
  }

  lemma {:induction false} RetryingStatement(cfg: Config, now: Time, issued: set<Id>, row: Row, seen: Effects,
                                             token: Id, sess: Session)
    requires cfg.Valid() && RowOk(cfg, now, issued, row, seen) && SessionOk(token, sess, row, seen)
    requires sess.pc.ToRetry?
    ensures StatementOf(cfg, token, sess).Some? && StatementOk(cfg, now, issued, row, seen, token, sess)
  {
    hide Distinct;
    if !Matches(StatementOf(cfg, token, sess).value, row, now) {
      hide LifecycleOk, CountersOk, OutboxOk, TokensOk;
    }
  }

  lemma {:induction false} AnyStatement(cfg: Config, now: Time, issued: set<Id>, row: Row, seen: Effects, token: Id,
                                        sess: Session)
    requires cfg.Valid() && RowOk(cfg, now, issued, row, seen) && SessionOk(token, sess, row, seen)
    requires StatementOf(cfg, token, sess).Some?
    ensures StatementOk(cfg, now, issued, row, seen, token, sess)
  {
    match sess.pc
    case ToMarkCanceled => CancelingStatement(cfg, now, issued, row, seen, token, sess);
    case ToFail => FailingStatement(cfg, now, issued, row, seen, token, sess);
    case ToFailOutcome(_) => FailingOutcomeStatement(cfg, now, issued, row, seen, token, sess);
    case ToStage => StagingStatement(cfg, now, issued, row, seen, token, sess);
    case StageRefused => HeartbeatStatement(cfg, now, issued, row, seen, token, sess);
    case Fence => HeartbeatStatement(cfg, now, issued, row, seen, token, sess);
    case ToMarkPending => PublishingStatement(cfg, now, issued, row, seen, token, sess);
    case ToComplete => PublishingStatement(cfg, now, issued, row, seen, token, sess);
    case ToRetry => RetryingStatement(cfg, now, issued, row, seen, token, sess);
  }

  /** The fence: the statement of one activation never touches what another one relies on. */
  lemma {:induction false} OthersUndisturbed(cfg: Config, now: Time, row: Row, seen: Effects, token: Id,
                                             sess: Session, other: Id)
    requires StatementOf(cfg, token, sess).Some? && other != token
    requires (row.status.Running? <==> row.lease.Some?)
    requires (sess.pc.ToMarkPending? && Matches(StatementOf(cfg, token, sess).value, row, now) ==> seen.cutoff.None?)
    requires sess.pc.ToStage? && Matches(StatementOf(cfg, token, sess).value, row, now) ==> row.resultPayload.None?
    requires sess.pc.ToComplete? ==> row.resultPayload == sess.outcome
    ensures var st := StatementOf(cfg, token, sess).value;
            var marking := sess.pc.ToMarkPending? && Matches(st, row, now);
            var seen' := if marking then seen.(cutoff := Some(token)) else seen;
            Undisturbed(other, row, Execute(st, row, now), seen, seen')
  {
  }

  lemma {:induction false} StatementFenced(cfg: Config, now: Time, issued: set<Id>, row: Row, seen: Effects,
                                           token: Id, sess: Session)
    requires RowOk(cfg, now, issued, row, seen) && SessionOk(token, sess, row, seen)
    requires StatementOf(cfg, token, sess).Some?
    ensures var st := StatementOf(cfg, token, sess).value;
            var marking := sess.pc.ToMarkPending? && Matches(st, row, now);
            var row' := Execute(st, row, now);
            var seen' := if marking then seen.(cutoff := Some(token)) else seen;
            forall t :: t in issued && t != token ==> Undisturbed(t, row, row', seen, seen')
  {
    forall t | t in issued && t != token
      ensures var st := StatementOf(cfg, token, sess).value;
              var marking := sess.pc.ToMarkPending? && Matches(st, row, now);
              var seen' := if marking then seen.(cutoff := Some(token)) else seen;
              Undisturbed(t, row, Execute(st, row, now), seen, seen')
    {
      OthersUndisturbed(cfg, now, row, seen, token, sess, t);
    }
  }

  lemma {:induction false} WriteStepChange(cfg: Config, s: System, token: Id, st: Statement)
    requires cfg.Valid() && InvAt(cfg, s, token)
    requires StatementOf(cfg, token, s.sessions[token]) == Some(st)
    requires StatementOk(cfg, s.now, s.issued, s.rows[s.sessions[token].runId], s.effects[s.sessions[token].runId],
                         token, s.sessions[token])
    ensures OneRowChange(s, WriteStep(cfg, s, token, st), s.sessions[token].runId, {token})
  {
    hide RowOk, SessionOk, Undisturbed, PublishedIfCompleted, PublishedIfCompleting;
    var id := s.sessions[token].runId;
    StatementFenced(cfg, s.now, s.issued, s.rows[id], s.effects[id], token, s.sessions[token]);
  }

  lemma {:induction false} WriteStepActor(cfg: Config, s: System, token: Id, st: Statement)
    requires cfg.Valid() && InvAt(cfg, s, token)
    requires StatementOf(cfg, token, s.sessions[token]) == Some(st)
    requires StatementOk(cfg, s.now, s.issued, s.rows[s.sessions[token].runId], s.effects[s.sessions[token].runId],
                         token, s.sessions[token])
    ensures var s' := WriteStep(cfg, s, token, st);
            var id := s.sessions[token].runId;
            && RowOk(cfg, s'.now, s'.issued, s'.rows[id], s'.effects[id])
            && PublishedIfCompleted(s'.rows[id], s'.table)
            && ActorsOk(s', id, {token})
  {
  }

  lemma {:induction false} WriteStepInOrder(cfg: Config, s: System, token: Id, st: Statement)
    requires cfg.Valid() && InvAt(cfg, s, token)
    requires StatementOf(cfg, token, s.sessions[token]) == Some(st)
    ensures ActorStep(cfg, s, WriteStep(cfg, s, token, st), token)
  {
    var sess := s.sessions[token];
    AnyStatement(cfg, s.now, s.issued, s.rows[sess.runId], s.effects[sess.runId], token, sess);
    WriteStepChange(cfg, s, token, st);
    WriteStepActor(cfg, s, token, st);
  }

  /** Nobody else writes the sink, so reading back a staged result never finds a conflicting row. */
  lemma {:induction false} ReadbackNeverConflicts(cfg: Config, s: System, token: Id)
    requires Inv(cfg, s) && token in s.sessions && s.sessions[token].pc.Staged()
    ensures s.sessions[token].outcome.Some? && !ReadbackOf(s.table, Protocol.Published(s.sessions[token])).Conflict?
  {
    hide CountersOk, OutboxOk, TokensOk;
    var sess := s.sessions[token];
    assert SessionOk(token, sess, s.rows[sess.runId], s.effects[sess.runId]);
    assert RowOk(cfg, s.now, s.issued, s.rows[sess.runId], s.effects[sess.runId]);
    var found := Stored(s.table, sess.outcome.value.resultId);
    if found != [] {
      assert found[0] in found;
      var i :| 0 <= i < |s.table| && s.table[i] == found[0];
      assert s.table[i] in s.merges;
      assert found == [found[0]];
    }
  }

  ghost predicate LocalOk(s: System, token: Id, oracle: Oracle)
    requires WellFormed(s) && token in s.sessions
  {
    var next := LocalNext(s, token, oracle);
    && next.sess.runId == s.sessions[token].runId
    && SessionOk(token, next.sess, s.rows[next.sess.runId], next.seen)
    && PublishedIfCompleting(next.sess, s.table)
  }

  lemma {:induction false} ExecutingInOrder(cfg: Config, s: System, token: Id, oracle: Oracle)
    requires InvAt(cfg, s, token)
    requires s.sessions[token].pc.Leased? || s.sessions[token].pc.Executing? || s.sessions[token].pc.Judging?
    ensures LocalOk(s, token, oracle)
  {
    hide CountersOk, OutboxOk, TokensOk, PublishedIfCompleted;
    match s.sessions[token].pc
    case Leased =>
    case Executing =>
    case Judging =>
  }

  lemma {:induction false} PublishingInOrder(cfg: Config, s: System, token: Id, oracle: Oracle)
    requires InvAt(cfg, s, token)
    requires s.sessions[token].pc.CheckPublisher? || s.sessions[token].pc.ToPublish?
    ensures LocalOk(s, token, oracle)
  {
    hide CountersOk, OutboxOk, TokensOk, PublishedIfCompleted;
    match s.sessions[token].pc
    case CheckPublisher =>
    case ToPublish =>
  }

  lemma {:induction false} MovesOnAfterCutoff(token: Id, sess: Session, pc: Pc, row: Row, seen: Effects)
    requires SessionOk(token, sess, row, seen) && sess.pc.Published()
    requires pc.ReadingBack? || pc.Verifying? || pc.ToRetry? || pc.ToComplete?
    ensures SessionOk(token, sess.(pc := pc), row, seen)
  {
  }

  lemma {:induction false} ReadingInOrder(s: System, token: Id, oracle: Oracle)
    requires WellFormed(s) && token in s.sessions
    requires SessionOk(token, s.sessions[token], s.rows[s.sessions[token].runId], s.effects[s.sessions[token].runId])
    requires s.sessions[token].pc.AwaitingMerge? || s.sessions[token].pc.ReadingBack? || s.sessions[token].pc.Verifying?
    requires s.sessions[token].outcome.Some? &&
             !ReadbackOf(s.table, Protocol.Published(s.sessions[token])).Conflict?
    ensures LocalOk(s, token, oracle)
  {
    var sess := s.sessions[token];
    var pc := LocalNext(s, token, oracle).sess.pc;
    if pc != sess.pc {
      MovesOnAfterCutoff(token, sess, pc, s.rows[sess.runId], s.effects[sess.runId]);
    }
  }

  /** The activation after a step without a statement. */
  lemma {:induction false} LocalNextSession(cfg: Config, s: System, token: Id, oracle: Oracle)
    requires Inv(cfg, s) && token in s.sessions && StatementOf(cfg, token, s.sessions[token]).None?
    ensures LocalOk(s, token, oracle)
  {
    InvGivesInvAt(cfg, s, token);
    match s.sessions[token].pc
    case Leased => ExecutingInOrder(cfg, s, token, oracle);
    case Executing => ExecutingInOrder(cfg, s, token, oracle);
    case Judging => ExecutingInOrder(cfg, s, token, oracle);
    case CheckPublisher => PublishingInOrder(cfg, s, token, oracle);
    case ToPublish => PublishingInOrder(cfg, s, token, oracle);
    case AwaitingMerge =>
      ReadbackNeverConflicts(cfg, s, token);
      ReadingInOrder(s, token, oracle);
    case ReadingBack =>
      ReadbackNeverConflicts(cfg, s, token);
      ReadingInOrder(s, token, oracle);
    case Verifying =>
      ReadbackNeverConflicts(cfg, s, token);
      ReadingInOrder(s, token, oracle);
    case _ =>
  }

  /** The effects it leaves: executions stay distinct, at most one MERGE, issued after the cutoff. */
  lemma {:induction false} LocalNextEffects(cfg: Config, s: System, token: Id, oracle: Oracle)
    requires InvAt(cfg, s, token) && StatementOf(cfg, token, s.sessions[token]).None?
    ensures var id := s.sessions[token].runId;
            var next := LocalNext(s, token, oracle);
            && RowOk(cfg, s.now, s.issued, s.rows[id], next.seen)
            && Evolves(s.rows[id], s.rows[id], s.effects[id], next.seen)
            && (forall t :: t != token ==> Undisturbed(t, s.rows[id], s.rows[id], s.effects[id], next.seen))
            && s.merges <= next.merges
            && (forall m :: m in next.merges && m !in s.merges ==>
                  m.runId == id && next.seen.cutoff.Some? && s.rows[id].resultPayload.Some?
                      && m == Publication(s.rows[id]))
  {
  }

  lemma {:induction false} LocalStepChange(cfg: Config, s: System, token: Id, oracle: Oracle)
    requires InvAt(cfg, s, token) && StatementOf(cfg, token, s.sessions[token]).None?
    ensures var s' := LocalStep(cfg, s, token, oracle);
            var id := s.sessions[token].runId;
            && OneRowChange(s, s', id, {token})
            && RowOk(cfg, s'.now, s'.issued, s'.rows[id], s'.effects[id])
  {
    LocalNextEffects(cfg, s, token, oracle);
  }

  lemma {:induction false} LocalStepInOrder(cfg: Config, s: System, token: Id, oracle: Oracle)
    requires InvAt(cfg, s, token) && StatementOf(cfg, token, s.sessions[token]).None?
    requires LocalOk(s, token, oracle)
    ensures ActorStep(cfg, s, LocalStep(cfg, s, token, oracle), token)
  {
    LocalStepChange(cfg, s, token, oracle);
  }

  lemma {:induction false} WorkKeepsInv(cfg: Config, s: System, token: Id, oracle: Oracle)
    requires cfg.Valid() && Inv(cfg, s) && token in s.sessions
    ensures Inv(cfg, WorkStep(cfg, s, token, oracle))
  {
    match StatementOf(cfg, token, s.sessions[token])
    case Some(st) =>
      InvGivesInvAt(cfg, s, token);
      WriteStepInOrder(cfg, s, token, st);
      ActorStepKeepsInv(cfg, s, WriteStep(cfg, s, token, st), token);
    case None =>
      InvGivesInvAt(cfg, s, token);
      LocalNextSession(cfg, s, token, oracle);
      LocalStepInOrder(cfg, s, token, oracle);
      ActorStepKeepsInv(cfg, s, LocalStep(cfg, s, token, oracle), token);
  }

  lemma {:induction false} HeartbeatRow(cfg: Config, now: Time, issued: set<Id>, row: Row, seen: Effects, worker: Id,
                                        token: Id)
    requires RowOk(cfg, now, issued, row, seen) && token in issued
    ensures var row' := Execute(Heartbeat(worker, token, cfg.lease), row, now);
            && RowOk(cfg, now, issued, row', seen)
            && Evolves(row, row', seen, seen)
            && (forall t :: Undisturbed(t, row, row', seen, seen))
            && row'.status == row.status && row'.resultPayload == row.resultPayload
  {
  }

  lemma {:induction false} HeartbeatChange(cfg: Config, s: System, id: Id, worker: Id, token: Id)
    requires WellFormed(s) && id in s.rows && token in s.issued
    requires RowOk(cfg, s.now, s.issued, s.rows[id], s.effects[id])
    ensures OneRowChange(s, Update(s, id, Heartbeat(worker, token, cfg.lease)), id, {})
  {
    hide RowOk, Execute;
    HeartbeatRow(cfg, s.now, s.issued, s.rows[id], s.effects[id], worker, token);
  }

  lemma {:induction false} HeartbeatStep(cfg: Config, s: System, id: Id, worker: Id, token: Id)
    requires Inv(cfg, s) && id in s.rows && token in s.issued
    ensures Inv(cfg, Update(s, id, Heartbeat(worker, token, cfg.lease)))
  {
    assert RowOk(cfg, s.now, s.issued, s.rows[id], s.effects[id]);
    assert PublishedIfCompleted(s.rows[id], s.table);
    HeartbeatChange(cfg, s, id, worker, token);
    hide Inv, RowOk, OneRowChange, HasToken, Undisturbed, Evolves;
    HeartbeatRow(cfg, s.now, s.issued, s.rows[id], s.effects[id], worker, token);
    OneRowStep(cfg, s, Update(s, id, Heartbeat(worker, token, cfg.lease)), id, {});
  }

  lemma {:induction false} BeatKeepsInv(cfg: Config, s: System, token: Id, fault: bool)
    requires Inv(cfg, s) && token in s.sessions
    ensures Inv(cfg, BeatStep(cfg, s, token, fault))
  {
    InvGivesInvAt(cfg, s, token);
    hide Inv, RowOk, SessionOk, PublishedIfCompleted;
    var sess := s.sessions[token];
    if sess.pc.Done? || sess.leaseLost {
    } else if fault || !Wrote(s, sess.runId, Heartbeat(sess.worker, token, cfg.lease)) {
      DoneIsOk(token, sess, s.rows[sess.runId], s.effects[sess.runId]);
      SessionOnlyStep(cfg, s, token, sess.(leaseLost := true));
    } else {
      BeatNoticed(cfg, s, token);
    }
  }

  lemma {:induction false} BeatNoticed(cfg: Config, s: System, token: Id)
    requires Inv(cfg, s) && InvAt(cfg, s, token)
    ensures var sess := s.sessions[token];
            var s1 := Update(s, sess.runId, Heartbeat(sess.worker, token, cfg.lease));
            Inv(cfg, s1.(sessions := s.sessions[token :=
              sess.(cancelSeen := sess.cancelSeen || s.rows[sess.runId].cancelRequested)]))
  {
    var sess := s.sessions[token];
    var seen := sess.cancelSeen || s.rows[sess.runId].cancelRequested;
    var s1 := Update(s, sess.runId, Heartbeat(sess.worker, token, cfg.lease));
    assert s1.rows[sess.runId].cancelRequested == s.rows[sess.runId].cancelRequested;
    assert seen ==> s.rows[sess.runId].cancelRequested by {
      hide Inv, RowOk, Execute;
    }
    hide Inv, RowOk, SessionOk, PublishedIfCompleted, Execute;
    HeartbeatStep(cfg, s, sess.runId, sess.worker, token);
    InvGivesInvAt(cfg, s1, token);
    DoneIsOk(token, sess, s1.rows[sess.runId], s1.effects[sess.runId]);
    SessionOnlyStep(cfg, s1, token, sess.(cancelSeen := seen));
  }

  /** Whatever happens next, the invariant holds after it. */
  lemma {:induction false} StepKeepsInv(cfg: Config, s: System, a: Action)
    requires cfg.Valid() && Inv(cfg, s)
    ensures Inv(cfg, Apply(cfg, s, a))
  {
    hide Inv;
    match a
    case Tick(elapsed) => TickKeepsInv(cfg, s, elapsed);
    case Submit(_, _, _, _, _) => SubmitKeepsInv(cfg, s, a);
    case RequestCancel(id) => if id in s.rows { AnonymousStep(cfg, s, id, Cancel); }
    case Recover => SweepKeepsInv(cfg, s, RecoverCanceled);
    case Exhaust => SweepKeepsInv(cfg, s, FailExhausted(cfg.maxAttempts));
    case Acquire(id, worker, token) => AcquireKeepsInv(cfg, s, id, worker, token);
    case Work(token, oracle) => if token in s.sessions { WorkKeepsInv(cfg, s, token, oracle); }
    case Beat(token, fault) => if token in s.sessions { BeatKeepsInv(cfg, s, token, fault); }
    case Crash(token) => CrashKeepsInv(cfg, s, token);
    case Land(source) => LandKeepsInv(cfg, s, source);
    case Claim(id, token) => ClaimKeepsInv(cfg, s, id, token);
    case Settle(id, token, settlement) =>
      if id in s.rows { AnonymousStep(cfg, s, id, SettleCallback(token, settlement)); }
  }

  lemma {:induction false} InitInv(cfg: Config)
    ensures Inv(cfg, INIT)
  {
  }

  /** Every system reached from an invariant one by any run satisfies the invariant. */
  lemma {:induction false} RunKeepsInv(cfg: Config, s: System, trace: seq<Action>)
    requires cfg.Valid() && Inv(cfg, s)
    ensures Inv(cfg, Run(cfg, s, trace))
    decreases |trace|
  {
    if trace != [] {
      RunKeepsInv(cfg, s, trace[..|trace| - 1]);
      StepKeepsInv(cfg, Run(cfg, s, trace[..|trace| - 1]), trace[|trace| - 1]);
    }
  }
}