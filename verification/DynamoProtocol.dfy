/**
 Conditional changes on DynamoDB as steps of the outbox protocol: each takes the records
 that the items stand for where the step takes the records of the protocol.
 */
module DynamoProtocol {
  import opened Wrappers
  import opened Timestamps
  import opened Outbox
  import opened Dispatcher
  import opened Termination
  import opened Protocol
  import Dynamo = DynamoOutbox

  /** The items stand for the records of the system, up to the retry times of finished ones. */
  ghost predicate Stands(items: Dynamo.Items, w: System) {
    items.Keys == w.store.events.Keys && forall id | id in items :: Dynamo.Agree(items, w.store, id)
  }

  /** Putting the item of a new identity is its submission. */
  lemma PutIsSubmit(max: int, w: System, items: Dynamo.Items, a: Acceptance)
    requires Stands(items, w) && Built(a) && Dynamo.Condition(items, Dynamo.Put(a.event))
    requires Key(a.transaction) !in w.store.transactions
    ensures Enabled(max, w, Submit(a))
    ensures Stands(Dynamo.Changed(items, Dynamo.Put(a.event)), Apply(max, w, Submit(a)))
  {
    hide Key, Dynamo.SortKey;
    Dynamo.NewItemIsNewRecord(a.event);
    var after, next := Dynamo.Changed(items, Dynamo.Put(a.event)), Apply(max, w, Submit(a));
    forall id | id in after ensures Dynamo.Agree(after, next.store, id) {
      if id != a.event.id {
        assert Dynamo.Agree(items, w.store, id);
      }
    }
  }

  /**
   A lease under a fresh token is the claim of an idle worker exactly when the event is due
   by the clock; by the texts it may be due less than a second earlier.
   */
  lemma LeaseIsClaimBatch(max: int, w: System, items: Dynamo.Items, worker: nat, config: Config, now: Time, id: string, token: string)
    requires Stands(items, w) && worker !in w.flights && Usable(config) && config.maxAttempts == max
    requires token != "" && token !in w.issued && Dynamo.Condition(items, Dynamo.Lease(id, now, now + config.lease, token))
    ensures var claim := ClaimBatch(worker, config, now, [id], [token]);
            && (Enabled(max, w, claim) <==> Due(w.store.events[id], now))
            && (Enabled(max, w, claim) ==>
                  Stands(Dynamo.Changed(items, Dynamo.Lease(id, now, now + config.lease, token)), Apply(max, w, claim)))
  {
    hide Dynamo.SortKey, Dynamo.Reached, Usable;
    assert Dynamo.Agree(items, w.store, id);
    var claim := ClaimBatch(worker, config, now, [id], [token]);
    if Due(w.store.events[id], now) {
      var after, next := Dynamo.Changed(items, Dynamo.Lease(id, now, now + config.lease, token)), Apply(max, w, claim);
      LeasedOne(w.store.events, id, now + config.lease, token);
      forall other | other in after ensures Dynamo.Agree(after, next.store, other) {
        assert Dynamo.Agree(items, w.store, other);
      }
    } else {
      assert [id][0] == id;
    }
  }

  lemma {:induction false} LeasedOne(events: map<string, Record>, id: string, until: Time, token: string)
    requires id in events
    ensures Leased(events, [id], until, [token]) == events[id := events[id].(leaseUntil := until, claimToken := token)]
  {
    assert [id][..0] == [];
    assert Leased(events, [], until, [token]) == events;
  }

  /** The change by which a worker completes the next event of its batch. */
  function Completion(f: Flight, at: Time): Dynamo.Change
    requires f.next < |f.events| && f.acked.Some? && Usable(f.config)
  {
    var p := f.events[f.next];
    if f.acked.value then Dynamo.MarkPublished(p.event.id, p.claimToken, at) else Dynamo.RecordFailure(FailureOf(f.config, p, f.now))
  }

  /** Completing an event is the end of its publication: the batch goes on exactly when the condition held. */
  lemma CompletionIsFinish(max: int, w: System, items: Dynamo.Items, worker: nat, at: Time)
    requires Stands(items, w) && Dynamo.ItemsOk(items) && Enabled(max, w, Finish(worker))
    requires w.flights[worker].events[w.flights[worker].next].claimToken != ""
    requires forall id | id in items :: items[id].claimToken != Some("")
    ensures var f := w.flights[worker]; var c := Completion(f, at); var after := Apply(max, w, Finish(worker));
            && Stands(Dynamo.Changed(items, c), after)
            && (worker in after.flights <==> Dynamo.Condition(items, c))
  {
    hide Dynamo.ItemsOk, Dynamo.SortKey, Dynamo.Agree;
    var f := w.flights[worker];
    var p := f.events[f.next];
    var failure := FailureOf(f.config, p, f.now);
    if p.event.id in items {
      if f.acked.value {
        Dynamo.CompletionsAgree(items, w.store, PublishFailure(p.event.id, p.claimToken, 0, ZERO, false, ""), at);
      } else {
        Dynamo.CompletionsAgree(items, w.store, failure, at);
      }
    }
    OthersAgree(items, w, Completion(f, at), Apply(max, w, Finish(worker)));
  }

  lemma OthersAgree(items: Dynamo.Items, w: System, c: Dynamo.Change, after: System)
    requires Stands(items, w) && (c.MarkPublished? || c.RecordFailure?)
    requires var id := if c.MarkPublished? then c.id else c.failure.eventId;
             && after.store.events.Keys == w.store.events.Keys
             && (forall other | other in w.store.events && other != id :: after.store.events[other] == w.store.events[other])
             && (id in items ==> Dynamo.Agree(Dynamo.Changed(items, c), after.store, id))
    ensures Stands(Dynamo.Changed(items, c), after)
  {
    hide Dynamo.SortKey;
    var id := if c.MarkPublished? then c.id else c.failure.eventId;
    var changed := Dynamo.Changed(items, c);
    forall other | other in changed ensures Dynamo.Agree(changed, after.store, other) {
      if other != id {
        assert Dynamo.Agree(items, w.store, other);
      }
    }
  }
}
