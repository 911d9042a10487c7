/**
 The statements on PostgreSQL as steps of the outbox protocol: each takes the records that
 the rows stand for where the step takes the records of the protocol.
 */
module PostgresProtocol {
  import opened Wrappers
  import opened Timestamps
  import opened Outbox
  import opened Dispatcher
  import opened Termination
  import opened Protocol
  import Postgres = PostgresOutbox

  /** The rows stand for the records of the system. */
  ghost predicate Stands(rows: Postgres.Rows, w: System) {
    Postgres.RecordsOf(rows) == w.store.events
  }

  /** Inserting the event of a new identity is its submission. */
  lemma InsertIsSubmit(max: int, w: System, rows: Postgres.Rows, a: Acceptance)
    requires Stands(rows, w) && Built(a) && Postgres.Admissible(rows, Postgres.Insert(a.event))
    requires Key(a.transaction) !in w.store.transactions
    ensures Enabled(max, w, Submit(a))
    ensures Stands(Postgres.Executed(rows, Postgres.Insert(a.event)), Apply(max, w, Submit(a)))
  {
    hide Key;
    var after := Postgres.Executed(rows, Postgres.Insert(a.event));
    assert Postgres.RecordsOf(after) == w.store.events[a.event.id := NewRecord(a.event)];
  }

  /** A claim under a fresh token is the claim of an idle worker. */
  lemma ClaimIsClaimBatch(
      max: int, w: System, rows: Postgres.Rows, worker: nat, config: Config, now: Time, locked: set<string>, limit: nat,
      ids: seq<string>, token: string)
    requires Stands(rows, w) && worker !in w.flights && Usable(config) && config.maxAttempts == max && now >= ZERO
    requires Postgres.Candidates(rows, now, locked, limit, ids) && token != "" && token !in w.issued
    ensures var claim := ClaimBatch(worker, config, now, ids, Postgres.Repeated(token, |ids|));
            var st := Postgres.Claim(now, now + config.lease, locked, limit, ids, token);
            && Enabled(max, w, claim) && Postgres.Admissible(rows, st)
            && Stands(Postgres.Executed(rows, st), Apply(max, w, claim))
  {
    hide Selection, Leased, Handed, Postgres.Candidates, Postgres.RecordsOf, Postgres.ClaimedRows;
    Postgres.ClaimAgrees(rows, now, locked, limit, ids, now + config.lease, token);
  }

  /** The statement by which a worker completes the next event of its batch. */
  function Completion(f: Flight, at: Time): Postgres.Statement
    requires f.next < |f.events| && f.acked.Some? && Usable(f.config)
  {
    var p := f.events[f.next];
    if f.acked.value then Postgres.Publish(p.event.id, p.claimToken, at) else Postgres.Fail(FailureOf(f.config, p, f.now))
  }

  /** Completing an event is the end of its publication: the batch goes on exactly when one row was updated. */
  lemma CompletionIsFinish(max: int, w: System, rows: Postgres.Rows, worker: nat, at: Time)
    requires Stands(rows, w) && Postgres.RowsOk(rows) && Enabled(max, w, Finish(worker))
    ensures var f := w.flights[worker]; var p := f.events[f.next]; var after := Apply(max, w, Finish(worker));
            && Stands(Postgres.Executed(rows, Completion(f, at)), after)
            && (worker in after.flights <==> Postgres.ClaimUpdated(rows, p.event.id, p.claimToken) == None)
  {
    hide Postgres.RecordsOf, Postgres.PublishedRows, Postgres.FailedRows, Postgres.RowsOk, Postgres.ClaimUpdated;
    var f := w.flights[worker];
    var p := f.events[f.next];
    assert w.store == State(w.store.transactions, Postgres.RecordsOf(rows));
    if f.acked.value {
      Postgres.PublishingAgrees(rows, w.store.transactions, p.event.id, p.claimToken, at);
    } else {
      Postgres.FailingAgrees(rows, w.store.transactions, FailureOf(f.config, p, f.now));
    }
  }
}
