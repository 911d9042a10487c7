/**
 The outbox protocol with any number of workers. Each store method is one atomic step and
 a worker's batch is many, so steps of different workers interleave, claims go stale,
 workers crash between any two steps and the store restarts without its leases.
 */
module Protocol {
  import opened Wrappers
  import opened Timestamps
  import opened Outbox
  import opened RetryDelays
  import opened Dispatcher
  import opened BatchRuns
  import opened Termination

  /** A batch in flight: its next event, and whether the publish call for it has returned and how. */
  datatype Flight = Flight(config: Config, now: Time, events: seq<PendingEvent>, next: nat, acked: Option<bool>)

  /** The whole system; issued and failures only record history. */
  datatype System = System(
    store: State,
    flights: map<nat, Flight>,
    log: seq<OutboxEvent>,
    issued: set<string>,
    failures: map<string, nat>)

  datatype Action =
    | Submit(acceptance: Acceptance)
    | ClaimBatch(worker: nat, config: Config, now: Time, ids: seq<string>, tokens: seq<string>)
    | Publish(worker: nat, delivery: Delivery)
    | Finish(worker: nat)
    | Leave(worker: nat)
    | Restart

  const START: System := System(EMPTY, map[], [], {}, map[])

  function TokensOf(events: seq<PendingEvent>): set<string> {
    set k | 0 <= k < |events| :: events[k].claimToken
  }

  /** New IDs and tokens are fresh, a claim takes any selection of due events, and all workers agree on the maximum of attempts. */
  predicate Enabled(max: int, w: System, action: Action) {
    match action
    case Submit(a) => Built(a) && a.event.id !in w.store.events
    case ClaimBatch(worker, config, now, ids, tokens) =>
      && worker !in w.flights && Usable(config) && config.maxAttempts == max
      && Selection(w.store.events, now, ids) && |ids| <= |tokens| && forall i | 0 <= i < |tokens| :: tokens[i] != "" && tokens[i] !in w.issued
    case Publish(worker, _) =>
      worker in w.flights && w.flights[worker].next < |w.flights[worker].events| && w.flights[worker].acked.None?
    case Finish(worker) =>
      && worker in w.flights && w.flights[worker].next < |w.flights[worker].events| && w.flights[worker].acked.Some?
      && Usable(w.flights[worker].config)
    case Leave(worker) => worker in w.flights
    case Restart => true
  }

  function Apply(max: int, w: System, action: Action): System
    requires Enabled(max, w, action)
  {
    match action
    case Submit(a) =>
      var s := Accept(w.store, a).0;
      w.(store := s, failures := if s == w.store then w.failures else w.failures[a.event.id := 0])
    case ClaimBatch(worker, config, now, ids, tokens) =>
      var (s, events) := Take(w.store, ids, now + config.lease, tokens);
      w.(store := s, flights := w.flights[worker := Flight(config, now, events, 0, None)], issued := w.issued + TokensOf(events))
    case Publish(worker, delivery) =>
      var f := w.flights[worker];
      w.(log := Landed(w.log, f.events[f.next].event, delivery),
         flights := w.flights[worker := f.(acked := Some(delivery == Delivered))])
    case Finish(worker) => Finished(w, worker)
    case Leave(worker) => w.(flights := w.flights - {worker})
    case Restart => w.(store := Erase(w.store))
  }

  /** A completion; an error ends the batch. */
  function Finished(w: System, worker: nat): System
    requires worker in w.flights && w.flights[worker].next < |w.flights[worker].events| && w.flights[worker].acked.Some?
    requires Usable(w.flights[worker].config)
  {
    var f := w.flights[worker];
    var pending := f.events[f.next];
    var (s, error) := Complete(f.config, w.store, pending, f.now, f.acked.value, false);
    if error.Some? then w.(flights := w.flights - {worker})
    else
      w.(store := s, flights := w.flights[worker := f.(next := f.next + 1, acked := None)],
         failures := if f.acked.value then w.failures else w.failures[pending.event.id := FailuresOf(w, pending.event.id) + 1])
  }

  function FailuresOf(w: System, id: string): nat {
    if id in w.failures then w.failures[id] else 0
  }

  ghost predicate Behavior(max: int, worlds: seq<System>, actions: seq<Action>) {
    && |worlds| == |actions| + 1 && worlds[0] == START
    && forall i | 0 <= i < |actions| :: Enabled(max, worlds[i], actions[i]) && worlds[i + 1] == Apply(max, worlds[i], actions[i])
  }

  // ----- The invariant

  /**
   One record: its attempts are the failures recorded for it and are within the maximum,
   it is terminal exactly when they reach it, its lease and token are present together and
   only while it is pending, and a published one has a message in the log.
   */
  ghost predicate RecordOk(max: int, w: System, id: string, r: Record) {
    && r.event.id == id && SoundRecord(r, max) && FailuresOf(w, id) == r.attempts
    && (if r.claimToken == "" then r.leaseUntil == ZERO else Pending(r) && r.claimToken in w.issued)
    && (r.published ==> r.event in w.log)
    && r.event.key in w.store.transactions
    && w.store.transactions[r.event.key].eventId == id && w.store.transactions[r.event.key].transactionId == r.event.transactionId
  }

  ghost predicate RecordsOk(max: int, w: System) {
    forall id | id in w.store.events :: RecordOk(max, w, id, w.store.events[id])
  }

  /** One claim in flight: it carries its event, and as long as its token is current also the record's attempts. */
  ghost predicate ClaimOk(w: System, p: PendingEvent) {
    && p.event.id in w.store.events && p.claimToken != "" && p.claimToken in w.issued
    && var r := w.store.events[p.event.id];
       p.event == r.event && (p.claimToken == r.claimToken ==> p.attempts == r.attempts)
  }

  ghost predicate FlightOk(max: int, w: System, f: Flight) {
    && Usable(f.config) && f.config.maxAttempts == max
    && (forall k | 0 <= k < |f.events| :: ClaimOk(w, f.events[k]))
    && (f.acked.Some? ==> f.next < |f.events|)
    && (f.acked == Some(true) ==> f.events[f.next].event in w.log)
  }

  ghost predicate FlightsOk(max: int, w: System) {
    forall worker | worker in w.flights :: FlightOk(max, w, w.flights[worker])
  }

  /** Every message is an accepted event. */
  ghost predicate LogOk(w: System) {
    forall m | m in w.log :: m.id in w.store.events && w.store.events[m.id].event == m
  }

  /** Every identity has its event. */
  ghost predicate IdentitiesOk(w: System) {
    forall key | key in w.store.transactions ::
      && w.store.transactions[key].eventId in w.store.events
      && w.store.events[w.store.transactions[key].eventId].event.key == key
  }

  ghost predicate Inv(max: int, w: System) {
    RecordsOk(max, w) && FlightsOk(max, w) && LogOk(w) && IdentitiesOk(w)
  }

  // ----- Every step keeps the invariant

  /** What any step may do to a record: nothing, or drop its token, or put it under a fresh token. */
  ghost predicate Successor(issued: set<string>, r: Record, after: Record) {
    && after.event == r.event
    && (after == r || after.claimToken == "" || (after.attempts == r.attempts && after.claimToken !in issued))
    && (r.published || r.terminal ==> after == r)
    && r.attempts <= after.attempts
  }

  /** No step loses an event, an identity, a message or a token. */
  ghost predicate Evolves(w: System, after: System) {
    && (forall id | id in w.store.events :: id in after.store.events
          && Successor(w.issued, w.store.events[id], after.store.events[id]))
    && (forall key | key in w.store.transactions :: key in after.store.transactions
          && after.store.transactions[key] == w.store.transactions[key])
    && w.issued <= after.issued
    && w.log <= after.log
  }

  lemma ClaimStays(w: System, after: System, p: PendingEvent)
    requires Evolves(w, after) && ClaimOk(w, p)
    ensures ClaimOk(after, p)
  {
    assert Successor(w.issued, w.store.events[p.event.id], after.store.events[p.event.id]);
  }

  lemma MessageStays(w: System, after: System, m: OutboxEvent)
    requires w.log <= after.log && m in w.log
    ensures m in after.log
  {
    var i :| 0 <= i < |w.log| && w.log[i] == m;
    assert after.log[i] == m;
  }

  lemma FlightStays(max: int, w: System, after: System, f: Flight)
    requires Evolves(w, after) && FlightOk(max, w, f)
    ensures FlightOk(max, after, f)
  {
    hide ClaimOk, Evolves;
    forall k | 0 <= k < |f.events| ensures ClaimOk(after, f.events[k]) {
      ClaimStays(w, after, f.events[k]);
    }
    if f.acked == Some(true) {
      EvolvesKeepsLog(w, after);
      MessageStays(w, after, f.events[f.next].event);
    }
  }

  lemma EvolvesKeepsLog(w: System, after: System)
    requires Evolves(w, after)
    ensures w.log <= after.log
  {
  }

  lemma LogStays(w: System, after: System)
    requires Evolves(w, after) && LogOk(w) && after.log == w.log
    ensures LogOk(after)
  {
    forall m | m in after.log ensures m.id in after.store.events && after.store.events[m.id].event == m {
      assert Successor(w.issued, w.store.events[m.id], after.store.events[m.id]);
    }
  }

  lemma IdentitiesStay(w: System, after: System)
    requires Evolves(w, after) && IdentitiesOk(w) && after.store.transactions == w.store.transactions
    ensures IdentitiesOk(after)
  {
    forall key | key in after.store.transactions
      ensures after.store.transactions[key].eventId in after.store.events
      ensures after.store.events[after.store.transactions[key].eventId].event.key == key
    {
      var id := w.store.transactions[key].eventId;
      assert Successor(w.issued, w.store.events[id], after.store.events[id]);
    }
  }

  /** Flights whose batch did not move. */
  lemma FlightsStay(max: int, w: System, after: System)
    requires Evolves(w, after) && FlightsOk(max, w)
    requires forall worker | worker in after.flights ::
               (worker in w.flights && after.flights[worker] == w.flights[worker]) || FlightOk(max, after, after.flights[worker])
    ensures FlightsOk(max, after)
  {
    hide FlightOk, Evolves;
    forall worker | worker in after.flights ensures FlightOk(max, after, after.flights[worker]) {
      if worker in w.flights && after.flights[worker] == w.flights[worker] {
        FlightStays(max, w, after, w.flights[worker]);
      }
    }
  }

  // Submit

  lemma SubmitEvolves(max: int, w: System, a: Acceptance)
    requires Enabled(max, w, Submit(a))
    ensures Evolves(w, Apply(max, w, Submit(a)))
  {
  }

  lemma SubmitKeeps(max: int, w: System, a: Acceptance)
    requires max >= 1 && Inv(max, w) && Enabled(max, w, Submit(a))
    ensures Inv(max, Apply(max, w, Submit(a)))
  {
    hide FlightsOk, Evolves, FlightOk;
    var after := Apply(max, w, Submit(a));
    SubmitEvolves(max, w, a);
    if after.store != w.store {
      SubmitRecords(max, w, a);
    }
    FlightsStay(max, w, after);
    LogStays(w, after);
  }

  lemma SubmitRecords(max: int, w: System, a: Acceptance)
    requires max >= 1 && RecordsOk(max, w) && IdentitiesOk(w) && Enabled(max, w, Submit(a))
    requires Key(a.transaction) !in w.store.transactions
    ensures RecordsOk(max, Apply(max, w, Submit(a))) && IdentitiesOk(Apply(max, w, Submit(a)))
  {
    var after := Apply(max, w, Submit(a));
    forall id | id in after.store.events ensures RecordOk(max, after, id, after.store.events[id]) {
      if id != a.event.id {
        assert RecordOk(max, w, id, w.store.events[id]);
      }
    }
  }

  // ClaimBatch

  /** What a claim does to one record. */
  ghost predicate Relet(r: Record, after: Record, now: Time, until: Time, tokens: set<string>) {
    after == r || (Due(r, now) && after.claimToken in tokens && after == r.(leaseUntil := until, claimToken := after.claimToken))
  }

  lemma ClaimRelets(s: State, now: Time, until: Time, ids: seq<string>, tokens: seq<string>)
    requires Selection(s.events, now, ids) && |ids| <= |tokens|
    ensures var (after, handed) := Take(s, ids, until, tokens);
            && after.transactions == s.transactions && after.events.Keys == s.events.Keys
            && (forall id | id in s.events :: Relet(s.events[id], after.events[id], now, until, TokensOf(handed)))
  {
    hide Leased;
    LeasedRecords(s.events, ids, until, tokens);
    var (after, handed) := Take(s, ids, until, tokens);
    forall id | id in s.events ensures Relet(s.events[id], after.events[id], now, until, TokensOf(handed)) {
      if id in ids {
        var j :| 0 <= j < |ids| && ids[j] == id;
        assert handed[j].claimToken in TokensOf(handed);
      }
    }
  }

  /** What a claim hands out. */
  lemma ClaimHands(s: State, now: Time, until: Time, ids: seq<string>, tokens: seq<string>)
    requires WellKeyed(s.events) && Selection(s.events, now, ids) && |ids| <= |tokens|
    ensures var (after, handed) := Take(s, ids, until, tokens);
            |handed| <= |tokens| && forall j | 0 <= j < |handed| ::
              && handed[j].claimToken == tokens[j] && handed[j].event.id in s.events && handed[j].event.id in after.events
              && handed[j].event == s.events[handed[j].event.id].event
              && after.events[handed[j].event.id].attempts == handed[j].attempts
  {
    hide Leased;
    LeasedRecords(s.events, ids, until, tokens);
    var (after, handed) := Take(s, ids, until, tokens);
    forall j | 0 <= j < |handed|
      ensures handed[j].event.id == ids[j] && after.events[ids[j]].attempts == handed[j].attempts
    {
    }
  }

  lemma RecordsAreWellKeyed(max: int, w: System)
    requires RecordsOk(max, w)
    ensures WellKeyed(w.store.events)
  {
    forall id | id in w.store.events ensures w.store.events[id].event.id == id {
      assert RecordOk(max, w, id, w.store.events[id]);
    }
  }

  /** The tokens of a claim are fresh. */
  lemma ClaimTokens(max: int, w: System, worker: nat, config: Config, now: Time, ids: seq<string>, tokens: seq<string>)
    requires RecordsOk(max, w) && Enabled(max, w, ClaimBatch(worker, config, now, ids, tokens))
    ensures var after := Apply(max, w, ClaimBatch(worker, config, now, ids, tokens));
            && after.issued == w.issued + TokensOf(after.flights[worker].events)
            && forall t | t in TokensOf(after.flights[worker].events) :: t != "" && t !in w.issued
  {
    hide Take, RecordsOk;
    RecordsAreWellKeyed(max, w);
    ClaimHands(w.store, now, now + config.lease, ids, tokens);
    var events := Take(w.store, ids, now + config.lease, tokens).1;
    forall t | t in TokensOf(events) ensures t != "" && t !in w.issued {
      var k :| 0 <= k < |events| && events[k].claimToken == t;
      assert t == tokens[k];
    }
  }

  lemma ReletOk(max: int, w: System, after: System, id: string, now: Time, until: Time, drawn: set<string>)
    requires id in w.store.events && id in after.store.events
    requires RecordOk(max, w, id, w.store.events[id]) && Relet(w.store.events[id], after.store.events[id], now, until, drawn)
    requires after == w.(store := after.store, flights := after.flights, issued := w.issued + drawn)
    requires after.store.transactions == w.store.transactions
    requires forall t | t in drawn :: t != "" && t !in w.issued
    ensures Successor(w.issued, w.store.events[id], after.store.events[id]) && RecordOk(max, after, id, after.store.events[id])
  {
  }

  lemma ClaimEvolves(max: int, w: System, worker: nat, config: Config, now: Time, ids: seq<string>, tokens: seq<string>)
    requires RecordsOk(max, w) && Enabled(max, w, ClaimBatch(worker, config, now, ids, tokens))
    ensures var after := Apply(max, w, ClaimBatch(worker, config, now, ids, tokens));
            Evolves(w, after) && RecordsOk(max, after)
  {
    hide Take, Selection, RecordOk, Relet, Successor, TokensOf;
    var after := Apply(max, w, ClaimBatch(worker, config, now, ids, tokens));
    ClaimRelets(w.store, now, now + config.lease, ids, tokens);
    ClaimTokens(max, w, worker, config, now, ids, tokens);
    var drawn := TokensOf(after.flights[worker].events);
    forall id | id in w.store.events
      ensures Successor(w.issued, w.store.events[id], after.store.events[id]) && RecordOk(max, after, id, after.store.events[id])
    {
      ReletOk(max, w, after, id, now, now + config.lease, drawn);
    }
  }

  lemma ClaimKeeps(max: int, w: System, worker: nat, config: Config, now: Time, ids: seq<string>, tokens: seq<string>)
    requires Inv(max, w) && Enabled(max, w, ClaimBatch(worker, config, now, ids, tokens))
    ensures Inv(max, Apply(max, w, ClaimBatch(worker, config, now, ids, tokens)))
  {
    hide Evolves, RecordsOk, LogOk, IdentitiesOk, FlightsOk;
    var after := Apply(max, w, ClaimBatch(worker, config, now, ids, tokens));
    ClaimEvolves(max, w, worker, config, now, ids, tokens);
    NewFlight(max, w, worker, config, now, ids, tokens);
    ClaimRelets(w.store, now, now + config.lease, ids, tokens);
    FlightsStay(max, w, after);
    LogStays(w, after);
    IdentitiesStay(w, after);
  }

  lemma NewFlight(max: int, w: System, worker: nat, config: Config, now: Time, ids: seq<string>, tokens: seq<string>)
    requires RecordsOk(max, w) && Enabled(max, w, ClaimBatch(worker, config, now, ids, tokens))
    ensures var after := Apply(max, w, ClaimBatch(worker, config, now, ids, tokens));
            FlightOk(max, after, after.flights[worker])
  {
    hide Take, Selection, RecordsOk, Relet;
    var after := Apply(max, w, ClaimBatch(worker, config, now, ids, tokens));
    RecordsAreWellKeyed(max, w);
    ClaimTokens(max, w, worker, config, now, ids, tokens);
    ClaimRelets(w.store, now, now + config.lease, ids, tokens);
    ClaimHands(w.store, now, now + config.lease, ids, tokens);
    var f := after.flights[worker];
    forall k | 0 <= k < |f.events| ensures ClaimOk(after, f.events[k]) {
      assert f.events[k].claimToken in TokensOf(f.events);
      ReletEvent(w.store, after.store, f.events[k].event.id, now, now + config.lease, TokensOf(f.events));
    }
  }

  lemma ReletEvent(s: State, after: State, id: string, now: Time, until: Time, drawn: set<string>)
    requires id in s.events && id in after.events && Relet(s.events[id], after.events[id], now, until, drawn)
    ensures after.events[id].event == s.events[id].event
  {
  }

  // Publish

  lemma PublishKeeps(max: int, w: System, worker: nat, delivery: Delivery)
    requires Inv(max, w) && Enabled(max, w, Publish(worker, delivery))
    ensures Inv(max, Apply(max, w, Publish(worker, delivery))) && Evolves(w, Apply(max, w, Publish(worker, delivery)))
  {
    hide FlightsOk;
    var after := Apply(max, w, Publish(worker, delivery));
    var f := w.flights[worker];
    var message := f.events[f.next].event;
    assert Evolves(w, after);
    assert ClaimOk(w, f.events[f.next]) by {
      FlightOf(max, w, worker);
    }
    forall id | id in after.store.events ensures RecordOk(max, after, id, after.store.events[id]) {
      RecordStays(max, w, after, id, w.store.events[id]);
    }
    assert LogOk(after);
    assert message in after.log || delivery == Rejected;
    FlightOf(max, w, worker);
    FlightStays(max, w, after, f);
    FlightsStay(max, w, after);
  }

  lemma FlightOf(max: int, w: System, worker: nat)
    requires FlightsOk(max, w) && worker in w.flights
    ensures FlightOk(max, w, w.flights[worker])
  {
  }

  // Finish

  /** A completion that was accepted changes the record that held the token, and nothing else. */
  lemma FinishRecord(max: int, w: System, worker: nat)
    requires Inv(max, w) && Enabled(max, w, Finish(worker))
    ensures var f := w.flights[worker]; var p := f.events[f.next]; var after := Finished(w, worker);
            && p.event.id in w.store.events
            && (if w.store.events[p.event.id].claimToken == p.claimToken then
                  after.store == w.store.(events := w.store.events[p.event.id := after.store.events[p.event.id]])
                  && Successor(w.issued, w.store.events[p.event.id], after.store.events[p.event.id])
                  && RecordOk(max, after, p.event.id, after.store.events[p.event.id])
                  && after.flights == w.flights[worker := f.(next := f.next + 1, acked := None)]
                  && (forall id | id != p.event.id :: FailuresOf(after, id) == FailuresOf(w, id))
                else after.store == w.store && after.flights == w.flights - {worker} && after.failures == w.failures)
  {
    hide Delay;
    FlightOf(max, w, worker);
    var p := w.flights[worker].events[w.flights[worker].next];
    assert ClaimOk(w, p);
    assert RecordOk(max, w, p.event.id, w.store.events[p.event.id]);
  }

  lemma RecordStays(max: int, w: System, after: System, id: string, r: Record)
    requires RecordOk(max, w, id, r) && w.issued <= after.issued && w.log <= after.log
    requires after.store.transactions == w.store.transactions && FailuresOf(after, id) == FailuresOf(w, id)
    ensures RecordOk(max, after, id, r) && Successor(w.issued, r, r)
  {
    if r.published {
      MessageStays(w, after, r.event);
    }
  }

  lemma FinishEvolves(max: int, w: System, worker: nat)
    requires Inv(max, w) && Enabled(max, w, Finish(worker))
    ensures Evolves(w, Finished(w, worker)) && RecordsOk(max, Finished(w, worker))
  {
    hide Finished, FlightsOk, RecordOk, Successor, FlightOk, ClaimOk;
    var after := Finished(w, worker);
    var f := w.flights[worker];
    FinishRecord(max, w, worker);
    FinishedKeeps(w, worker);
    forall id | id in w.store.events
      ensures Successor(w.issued, w.store.events[id], after.store.events[id]) && RecordOk(max, after, id, after.store.events[id])
    {
      if id != f.events[f.next].event.id || w.store.events[id].claimToken != f.events[f.next].claimToken {
        RecordStays(max, w, after, id, w.store.events[id]);
      }
    }
  }

  lemma FinishKeeps(max: int, w: System, worker: nat)
    requires Inv(max, w) && Enabled(max, w, Finish(worker))
    ensures Inv(max, Apply(max, w, Finish(worker))) && Evolves(w, Apply(max, w, Finish(worker)))
  {
    hide Finished, FlightsOk, FlightOk, Evolves, RecordsOk, LogOk, IdentitiesOk;
    var after := Finished(w, worker);
    FinishRecord(max, w, worker);
    FinishEvolves(max, w, worker);
    FinishedKeeps(w, worker);
    LogStays(w, after);
    IdentitiesStay(w, after);
    FlightOf(max, w, worker);
    FlightMovesOn(max, w, after, w.flights[worker]);
    FlightsStay(max, w, after);
  }

  lemma FlightMovesOn(max: int, w: System, after: System, f: Flight)
    requires Evolves(w, after) && FlightOk(max, w, f)
    ensures FlightOk(max, after, f.(next := f.next + 1, acked := None))
  {
    FlightStays(max, w, after, f);
  }

  lemma FinishedKeeps(w: System, worker: nat)
    requires worker in w.flights && w.flights[worker].next < |w.flights[worker].events| && w.flights[worker].acked.Some?
    requires Usable(w.flights[worker].config)
    ensures Finished(w, worker).log == w.log && Finished(w, worker).issued == w.issued
    ensures Finished(w, worker).store.transactions == w.store.transactions
  {
  }

  // Leave and Restart

  lemma LeaveKeeps(max: int, w: System, worker: nat)
    requires Inv(max, w) && Enabled(max, w, Leave(worker))
    ensures Inv(max, Apply(max, w, Leave(worker))) && Evolves(w, Apply(max, w, Leave(worker)))
  {
    hide FlightsOk;
    var after := Apply(max, w, Leave(worker));
    assert Evolves(w, after);
    forall id | id in after.store.events ensures RecordOk(max, after, id, after.store.events[id]) {
      RecordStays(max, w, after, id, w.store.events[id]);
    }
    FlightsStay(max, w, after);
  }

  lemma RestartEvolves(max: int, w: System)
    requires RecordsOk(max, w)
    ensures Evolves(w, Apply(max, w, Restart)) && RecordsOk(max, Apply(max, w, Restart))
  {
    var after := Apply(max, w, Restart);
    forall id | id in w.store.events
      ensures Successor(w.issued, w.store.events[id], after.store.events[id]) && RecordOk(max, after, id, after.store.events[id])
    {
      assert RecordOk(max, w, id, w.store.events[id]);
    }
  }

  lemma RestartKeeps(max: int, w: System)
    requires Inv(max, w)
    ensures Inv(max, Apply(max, w, Restart)) && Evolves(w, Apply(max, w, Restart))
  {
    hide FlightsOk, Evolves, RecordsOk, LogOk, IdentitiesOk;
    var after := Apply(max, w, Restart);
    RestartEvolves(max, w);
    LogStays(w, after);
    IdentitiesStay(w, after);
    FlightsStay(max, w, after);
  }

  /** Every step of every worker keeps the invariant. */
  lemma StepKeeps(max: int, w: System, action: Action)
    requires max >= 1 && Inv(max, w) && Enabled(max, w, action)
    ensures Inv(max, Apply(max, w, action)) && Evolves(w, Apply(max, w, action))
  {
    hide Inv, Evolves, Apply, Enabled;
    match action
    case Submit(a) => SubmitKeeps(max, w, a); SubmitEvolves(max, w, a);
    case ClaimBatch(worker, config, now, ids, tokens) =>
      InvRecords(max, w);
      ClaimKeeps(max, w, worker, config, now, ids, tokens);
      ClaimEvolves(max, w, worker, config, now, ids, tokens);
    case Publish(worker, delivery) => PublishKeeps(max, w, worker, delivery);
    case Finish(worker) => FinishKeeps(max, w, worker);
    case Leave(worker) => LeaveKeeps(max, w, worker);
    case Restart => RestartKeeps(max, w);
  }

  lemma InvRecords(max: int, w: System)
    requires Inv(max, w)
    ensures RecordsOk(max, w)
  {
  }

  lemma Reachable(max: int, worlds: seq<System>, actions: seq<Action>, n: nat)
    requires max >= 1 && Behavior(max, worlds, actions) && n <= |actions|
    ensures Inv(max, worlds[n])
  {
    hide Inv, Apply, Enabled;
    if n == 0 {
      StartOk(max);
    } else {
      Reachable(max, worlds, actions, n - 1);
      StepKeeps(max, worlds[n - 1], actions[n - 1]);
      assert worlds[n - 1 + 1] == Apply(max, worlds[n - 1], actions[n - 1]);
    }
  }

  lemma StartOk(max: int)
    ensures Inv(max, START)
  {
  }
}
