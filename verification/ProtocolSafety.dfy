/** What holds over every behavior of the outbox protocol. */
module ProtocolSafety {
  import opened Wrappers
  import opened Timestamps
  import opened Outbox
  import opened Protocol

  // ----- Safety in every reachable state

  predicate ExactlyOne(a: bool, b: bool, c: bool) {
    (a && !b && !c) || (!a && b && !c) || (!a && !b && c)
  }

  /**
   Every accepted event is pending, published or terminal and only one of them; a published
   one has a message with its content. Its attempts are the failures recorded for it, never
   exceed the maximum, and make it terminal exactly when they reach it. A lease and a token
   are held together, and only on a pending event.
   */
  lemma EventsAreSafe(max: int, worlds: seq<System>, actions: seq<Action>, n: nat, id: string)
    requires max >= 1 && Behavior(max, worlds, actions) && n <= |actions| && id in worlds[n].store.events
    ensures var w := worlds[n]; var r := w.store.events[id];
            && r.event.id == id
            && ExactlyOne(Pending(r), r.published, r.terminal)
            && (r.published ==> r.event in w.log)
            && r.attempts == FailuresOf(w, id) <= max && (r.terminal <==> r.attempts == max)
            && (r.claimToken == "" ==> r.leaseUntil == ZERO) && (r.claimToken != "" ==> Pending(r))
  {
    hide Apply, Enabled;
    Reachable(max, worlds, actions, n);
    assert RecordOk(max, worlds[n], id, worlds[n].store.events[id]);
  }

  /** Every message in the log is one accepted event with its content. */
  lemma MessagesAreEvents(max: int, worlds: seq<System>, actions: seq<Action>, n: nat, m: OutboxEvent)
    requires max >= 1 && Behavior(max, worlds, actions) && n <= |actions| && m in worlds[n].log
    ensures m.id in worlds[n].store.events && worlds[n].store.events[m.id].event == m
  {
    hide Apply, Enabled;
    Reachable(max, worlds, actions, n);
  }

  /** Identities and events correspond one to one. */
  lemma IdentitiesMatchEvents(max: int, worlds: seq<System>, actions: seq<Action>, n: nat)
    requires max >= 1 && Behavior(max, worlds, actions) && n <= |actions|
    ensures var s := worlds[n].store;
            && (forall key | key in s.transactions ::
                  s.transactions[key].eventId in s.events && s.events[s.transactions[key].eventId].event.key == key)
            && (forall id | id in s.events ::
                  && s.events[id].event.key in s.transactions
                  && s.transactions[s.events[id].event.key].eventId == id
                  && s.transactions[s.events[id].event.key].transactionId == s.events[id].event.transactionId)
  {
    hide Apply, Enabled;
    Reachable(max, worlds, actions, n);
    forall id | id in worlds[n].store.events
      ensures worlds[n].store.events[id].event.key in worlds[n].store.transactions
      ensures worlds[n].store.transactions[worlds[n].store.events[id].event.key].eventId == id
      ensures worlds[n].store.transactions[worlds[n].store.events[id].event.key].transactionId ==
              worlds[n].store.events[id].event.transactionId
    {
      assert RecordOk(max, worlds[n], id, worlds[n].store.events[id]);
    }
  }

  /** What a worker still has to complete belongs to an accepted event, and a current token comes with the current attempts. */
  lemma ClaimsInFlight(
      max: int, worlds: seq<System>, actions: seq<Action>, n: nat, worker: nat, k: nat)
    requires max >= 1 && Behavior(max, worlds, actions) && n <= |actions|
    requires worker in worlds[n].flights && k < |worlds[n].flights[worker].events|
    ensures var p := worlds[n].flights[worker].events[k];
            && p.event.id in worlds[n].store.events && p.event == worlds[n].store.events[p.event.id].event
            && (p.claimToken == worlds[n].store.events[p.event.id].claimToken ==>
                  p.attempts == FailuresOf(worlds[n], p.event.id) < max)
  {
    hide Apply, Enabled;
    Reachable(max, worlds, actions, n);
    FlightOf(max, worlds[n], worker);
    var p := worlds[n].flights[worker].events[k];
    assert ClaimOk(worlds[n], p);
    assert RecordOk(max, worlds[n], p.event.id, worlds[n].store.events[p.event.id]);
  }

  // ----- Over whole behaviors

  lemma OneStep(max: int, worlds: seq<System>, actions: seq<Action>, n: nat)
    requires max >= 1 && Behavior(max, worlds, actions) && n < |actions|
    ensures Inv(max, worlds[n]) && Enabled(max, worlds[n], actions[n]) && worlds[n + 1] == Apply(max, worlds[n], actions[n])
    ensures Evolves(worlds[n], worlds[n + 1])
  {
    hide Inv, Apply, Enabled, Evolves;
    Reachable(max, worlds, actions, n);
    StepKeeps(max, worlds[n], actions[n]);
  }

  /** Records that are done never change; no record loses its event or an attempt. */
  ghost predicate Later(r: Record, after: Record) {
    && after.event == r.event && r.attempts <= after.attempts
    && (r.published || r.terminal ==> after == r)
  }

  /**
   No event is ever lost: it keeps its content, its attempts never go down, and once it is
   published or terminal its record never changes again.
   */
  lemma DoneIsForever(max: int, worlds: seq<System>, actions: seq<Action>, i: nat, j: nat, id: string)
    requires max >= 1 && Behavior(max, worlds, actions) && i <= j <= |actions| && id in worlds[i].store.events
    ensures id in worlds[j].store.events && Later(worlds[i].store.events[id], worlds[j].store.events[id])
  {
    hide Inv, Apply, Enabled, Behavior;
    if i < j {
      DoneIsForever(max, worlds, actions, i, j - 1, id);
      OneStep(max, worlds, actions, j - 1);
      BehaviorLength(max, worlds, actions);
      assert Successor(worlds[j - 1].issued, worlds[j - 1].store.events[id], worlds[j].store.events[id]);
    } else {
      BehaviorLength(max, worlds, actions);
    }
  }

  lemma BehaviorLength(max: int, worlds: seq<System>, actions: seq<Action>)
    requires Behavior(max, worlds, actions)
    ensures |worlds| == |actions| + 1
  {
  }

  lemma IdentityKept(max: int, worlds: seq<System>, actions: seq<Action>, i: nat, j: nat, key: string)
    requires max >= 1 && Behavior(max, worlds, actions) && i <= j <= |actions| && key in worlds[i].store.transactions
    ensures key in worlds[j].store.transactions && worlds[j].store.transactions[key] == worlds[i].store.transactions[key]
  {
    hide Inv, Apply, Enabled, Behavior;
    BehaviorLength(max, worlds, actions);
    if i < j {
      IdentityKept(max, worlds, actions, i, j - 1, key);
      OneStep(max, worlds, actions, j - 1);
    }
  }

  /** An accepted identity is never replaced: every later acceptance of it is judged against it and changes nothing. */
  lemma IdentityIsForever(max: int, worlds: seq<System>, actions: seq<Action>, i: nat, j: nat, a: Acceptance)
    requires max >= 1 && Behavior(max, worlds, actions) && i <= j <= |actions|
    requires Key(a.transaction) in worlds[i].store.transactions
    ensures Accept(worlds[j].store, a) ==
            (worlds[j].store, Judge(worlds[i].store.transactions[Key(a.transaction)], a.fingerprint))
  {
    hide Apply, Enabled;
    IdentityKept(max, worlds, actions, i, j, Key(a.transaction));
  }

  /** The log only grows. */
  lemma LogGrows(max: int, worlds: seq<System>, actions: seq<Action>, i: nat, j: nat)
    requires max >= 1 && Behavior(max, worlds, actions) && i <= j <= |actions|
    ensures worlds[i].log <= worlds[j].log
  {
    hide Inv, Apply, Enabled, Behavior;
    BehaviorLength(max, worlds, actions);
    if i < j {
      LogGrows(max, worlds, actions, i, j - 1);
      OneStep(max, worlds, actions, j - 1);
    }
  }

  // ----- Fencing

  /** A token that was issued and is no longer the event's. */
  ghost predicate Dead(w: System, id: string, token: string) {
    id in w.store.events && token != "" && token in w.issued && w.store.events[id].claimToken != token
  }

  lemma DeadStays(w: System, after: System, id: string, token: string)
    requires Evolves(w, after) && Dead(w, id, token)
    ensures Dead(after, id, token)
  {
    assert Successor(w.issued, w.store.events[id], after.store.events[id]);
  }

  /** A dead token is refused and changes nothing. */
  lemma DeadIsRefused(w: System, id: string, token: string, f: PublishFailure)
    requires Dead(w, id, token) && f.eventId == id && f.claimToken == token
    ensures MarkPublished(w.store, id, token) == (w.store, Some(LeaseLost))
    ensures RecordFailure(w.store, f) == (w.store, Some(LeaseLost))
  {
  }

  lemma DeadForever(max: int, worlds: seq<System>, actions: seq<Action>, i: nat, j: nat, id: string, token: string)
    requires max >= 1 && Behavior(max, worlds, actions) && i <= j <= |actions| && Dead(worlds[i], id, token)
    ensures Dead(worlds[j], id, token)
  {
    hide Inv, Apply, Enabled, Evolves, Dead;
    if i < j {
      DeadForever(max, worlds, actions, i, j - 1, id, token);
      OneStep(max, worlds, actions, j - 1);
      DeadStays(worlds[j - 1], worlds[j], id, token);
    }
  }

  /**
   Once an event has left a token, because it was completed, reclaimed or lost its lease in
   a restart, that token is refused for ever and changes nothing.
   */
  lemma Fencing(
      max: int, worlds: seq<System>, actions: seq<Action>, i: nat, j: nat, id: string, token: string, f: PublishFailure)
    requires max >= 1 && Behavior(max, worlds, actions) && i < j <= |actions|
    requires id in worlds[i].store.events && worlds[i].store.events[id].claimToken == token != ""
    requires id in worlds[i + 1].store.events ==> worlds[i + 1].store.events[id].claimToken != token
    requires f.eventId == id && f.claimToken == token
    ensures MarkPublished(worlds[j].store, id, token) == (worlds[j].store, Some(LeaseLost))
    ensures RecordFailure(worlds[j].store, f) == (worlds[j].store, Some(LeaseLost))
  {
    hide Apply, Enabled;
    OneStep(max, worlds, actions, i);
    assert RecordOk(max, worlds[i], id, worlds[i].store.events[id]);
    assert Dead(worlds[i + 1], id, token);
    DeadForever(max, worlds, actions, i + 1, j, id, token);
    DeadIsRefused(worlds[j], id, token, f);
  }

  // ----- Claims are a lease apart

  ghost predicate Leases(w: System, action: Action, id: string) {
    action.ClaimBatch? && id in action.ids && id in w.store.events
  }

  /** An accepted completion of the event, or a restart. */
  ghost predicate Releases(w: System, action: Action, id: string) {
    action.Restart? ||
    (action.Finish? && action.worker in w.flights && id in w.store.events
      && var f := w.flights[action.worker];
         f.next < |f.events| && f.events[f.next].event.id == id && f.events[f.next].claimToken == w.store.events[id].claimToken)
  }

  /** What a step that does not release a held event can do to its lease. */
  lemma LeaseStep(max: int, w: System, action: Action, id: string)
    requires Inv(max, w) && Enabled(max, w, action) && id in w.store.events && w.store.events[id].claimToken != ""
    requires !Releases(w, action, id)
    ensures var after := Apply(max, w, action);
            && id in after.store.events && after.store.events[id].claimToken != ""
            && (if Leases(w, action, id) then
                  w.store.events[id].leaseUntil <= action.now
                  && after.store.events[id].leaseUntil == action.now + action.config.lease
                else after.store.events[id].leaseUntil == w.store.events[id].leaseUntil)
  {
    hide Inv, Finished, Take, Selection;
    match action
    case Submit(a) =>
    case ClaimBatch(worker, config, now, ids, tokens) => ClaimLeases(w, now, now + config.lease, ids, tokens, id);
    case Publish(worker, delivery) =>
    case Finish(worker) => InvRecords(max, w); FinishRecord(max, w, worker);
    case Leave(worker) =>
  }

  lemma ClaimLeases(w: System, now: Time, until: Time, ids: seq<string>, tokens: seq<string>, id: string)
    requires id in w.store.events && Selection(w.store.events, now, ids) && |ids| <= |tokens|
    requires forall i | 0 <= i < |tokens| :: tokens[i] != ""
    ensures var r, after := w.store.events[id], Take(w.store, ids, until, tokens).0;
            && id in after.events
            && (if id in ids then
                  r.leaseUntil <= now && after.events[id].leaseUntil == until && after.events[id].claimToken != ""
                else after.events[id] == r)
  {
    hide Leased;
    LeasedRecords(w.store.events, ids, until, tokens);
    if id in ids {
      var j :| 0 <= j < |ids| && ids[j] == id;
    }
  }

  /** While nothing releases the event, its lease runs at least as long as the first claim set it. */
  lemma LeaseRuns(max: int, worlds: seq<System>, actions: seq<Action>, i: nat, j: nat, id: string)
    requires max >= 1 && Behavior(max, worlds, actions) && i < j <= |actions|
    requires id in worlds[i].store.events && Leases(worlds[i], actions[i], id)
    requires forall k | i < k < j :: !Releases(worlds[k], actions[k], id)
    requires forall k | i < k < j && Leases(worlds[k], actions[k], id) :: actions[k].config.lease >= 0
    ensures id in worlds[j].store.events && worlds[j].store.events[id].claimToken != ""
    ensures worlds[j].store.events[id].leaseUntil >= actions[i].now + actions[i].config.lease
  {
    hide Inv, Releases, Evolves, Apply, Enabled, Behavior;
    BehaviorLength(max, worlds, actions);
    if i + 1 == j {
      OneStep(max, worlds, actions, i);
      FirstLease(max, worlds[i], actions[i], id);
    } else {
      LeaseRuns(max, worlds, actions, i, j - 1, id);
      OneStep(max, worlds, actions, j - 1);
      LeaseStep(max, worlds[j - 1], actions[j - 1], id);
      if Leases(worlds[j - 1], actions[j - 1], id) {
        assert actions[j - 1].config.lease >= 0;
      }
    }
  }

  lemma FirstLease(max: int, w: System, action: Action, id: string)
    requires Enabled(max, w, action) && id in w.store.events && Leases(w, action, id)
    ensures var after := Apply(max, w, action);
            && id in after.store.events && after.store.events[id].claimToken != ""
            && after.store.events[id].leaseUntil == action.now + action.config.lease
  {
    hide Take, Selection;
    ClaimLeases(w, action.now, action.now + action.config.lease, action.ids, action.tokens, id);
  }

  /**
   Two claims of one event with neither a completion nor a restart between them are at
   least one lease apart by the clocks of the claimers.
   */
  lemma ClaimsALeaseApart(max: int, worlds: seq<System>, actions: seq<Action>, i: nat, j: nat, id: string)
    requires max >= 1 && Behavior(max, worlds, actions) && i < j < |actions|
    requires id in worlds[i].store.events && Leases(worlds[i], actions[i], id) && Leases(worlds[j], actions[j], id)
    requires forall k | i < k < j :: !Releases(worlds[k], actions[k], id)
    requires forall k | i < k < j && Leases(worlds[k], actions[k], id) :: actions[k].config.lease >= 0
    ensures actions[j].now >= actions[i].now + actions[i].config.lease
  {
    hide Inv, Apply, Releases, Evolves;
    LeaseRuns(max, worlds, actions, i, j, id);
    var ids := actions[j].ids;
    var k :| 0 <= k < |ids| && ids[k] == id;
    assert Enabled(max, worlds[j], actions[j]);
  }
}
