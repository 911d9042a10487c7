/**
 Why sequential dispatching ends: the attempts that are left, summed over the pending
 records, pay for every claim.
 */
module Termination {
  import opened Ordering
  import opened Timestamps
  import opened Outbox
  import opened RetryDelays
  import opened Dispatcher
  import opened BatchRuns

  // ----- The attempts that are left

  function Left(r: Record, max: int): int {
    if Pending(r) then max - r.attempts else 0
  }

  /** The sum over all records. */
  ghost function Work(events: map<string, Record>, max: int): int
    decreases |events|
  {
    if events == map[] then 0
    else
      var id :| id in events;
      RemovalShrinks(events, id);
      Left(events[id], max) + Work(events - {id}, max)
  }

  lemma RemovalShrinks(events: map<string, Record>, id: string)
    requires id in events
    ensures |events - {id}| < |events|
  {
    assert (events - {id}).Keys == events.Keys - {id};
  }

  /** The sum does not depend on the order. */
  lemma {:induction false} WorkOf(events: map<string, Record>, max: int, id: string)
    requires id in events
    ensures Work(events, max) == Left(events[id], max) + Work(events - {id}, max)
    decreases |events|
  {
    var first :| first in events && Work(events, max) == Left(events[first], max) + Work(events - {first}, max);
    if first != id {
      RemovalShrinks(events, first);
      RemovalShrinks(events, id);
      WorkOf(events - {first}, max, id);
      WorkOf(events - {id}, max, first);
      assert (events - {first}) - {id} == (events - {id}) - {first};
    }
  }

  lemma WorkOfUpdate(events: map<string, Record>, max: int, id: string, r: Record)
    ensures Work(events[id := r], max) ==
            Work(events, max) + Left(r, max) - if id in events then Left(events[id], max) else 0
  {
    hide Work;
    var after := events[id := r];
    WorkOf(after, max, id);
    assert after - {id} == events - {id};
    if id in events {
      WorkOf(events, max, id);
    } else {
      assert events - {id} == events;
    }
  }

  lemma {:induction false} WorkOfSame(m: map<string, Record>, n: map<string, Record>, max: int)
    requires m.Keys == n.Keys && forall id | id in m :: Left(m[id], max) == Left(n[id], max)
    ensures Work(m, max) == Work(n, max)
    decreases |m|
  {
    if m == map[] {
      assert n == map[];
    } else {
      var id :| id in m;
      WorkOf(m, max, id);
      WorkOf(n, max, id);
      RemovalShrinks(m, id);
      WorkOfSame(m - {id}, n - {id}, max);
    }
  }

  // ----- Records a dispatcher leaves behind

  /**
   Attempts never exceed the maximum, a record is terminal exactly when they reach it, and
   nothing is both published and terminal.
   */
  ghost predicate SoundRecord(r: Record, max: int) {
    0 <= r.attempts <= max && (r.terminal <==> r.attempts == max) && !(r.published && r.terminal)
  }

  ghost predicate Sound(events: map<string, Record>, max: int) {
    WellKeyed(events) && forall id | id in events :: SoundRecord(events[id], max)
  }

  lemma {:induction false} WorkBounded(events: map<string, Record>, max: int)
    requires Sound(events, max)
    ensures 0 <= Work(events, max) <= max * |events|
    decreases |events|
  {
    if events != map[] {
      var id :| id in events;
      WorkOf(events, max, id);
      RemovalShrinks(events, id);
      assert |events| == |(events - {id})| + 1 by {
        assert events.Keys == (events - {id}).Keys + {id};
      }
      WorkBounded(events - {id}, max);
      NextMultiple(max, |events - {id}|);
    }
  }

  lemma NextMultiple(a: int, n: int)
    ensures a * (n + 1) == a * n + a
  {
  }

  /** Work that is left means that something is pending. */
  lemma {:induction false} PendingHasWork(events: map<string, Record>, max: int, id: string)
    requires Sound(events, max) && id in events && Pending(events[id])
    ensures Work(events, max) > 0
  {
    WorkOf(events, max, id);
    WorkBounded(events - {id}, max);
  }

  // ----- Every claim costs an attempt

  /** What a batch did to the records it claimed. */
  ghost predicate ResolvedRecords(
      config: Config, before: map<string, Record>, ids: seq<string>, now: Time, deliveries: seq<Delivery>, after: map<string, Record>)
    requires Int64(config.baseDelay)
  {
    && |ids| <= |deliveries| && after.Keys == before.Keys && LeftAlone(before, ids, after)
    && forall j | 0 <= j < |ids| ::
         && ids[j] in before && Pending(before[ids[j]])
         && after[ids[j]] == Outcome(config, before[ids[j]], now, deliveries[j])
  }

  lemma OutcomeCosts(config: Config, r: Record, now: Time, delivery: Delivery)
    requires Int64(config.baseDelay) && SoundRecord(r, config.maxAttempts) && Pending(r)
    ensures var after := Outcome(config, r, now, delivery);
            && SoundRecord(after, config.maxAttempts) && after.event == r.event
            && Left(after, config.maxAttempts) < Left(r, config.maxAttempts)
            && (delivery != Delivered ==> !after.published && Left(after, config.maxAttempts) == Left(r, config.maxAttempts) - 1)
  {
  }

  /** The work falls by at least one for each of the listed records. */
  lemma {:induction false} WorkFalls(m: map<string, Record>, n: map<string, Record>, ids: seq<string>, max: int)
    requires m.Keys == n.Keys && Distinct(ids)
    requires forall id | id in m && id !in ids :: Left(n[id], max) == Left(m[id], max)
    requires forall j | 0 <= j < |ids| :: ids[j] in m && Left(n[ids[j]], max) < Left(m[ids[j]], max)
    ensures Work(n, max) + |ids| <= Work(m, max)
  {
    hide Distinct, Work, Left;
    if ids == [] {
      WorkOfSame(m, n, max);
    } else {
      var last := |ids| - 1;
      var id := ids[last];
      var middle := n[id := m[id]];
      WorkOfUpdate(n, max, id, m[id]);
      LastIsNew(ids);
      assert forall x | x in m && x !in ids[..last] && x != id :: x !in ids;
      WorkFalls(m, middle, ids[..last], max);
    }
  }

  // ----- Runs

  predicate Usable(config: Config) {
    Int64(config.baseDelay) && config.maxAttempts >= 1
  }

  /** What happens one after the other: an acceptance with a fresh event ID, or a batch. */
  datatype Op =
    | Arrival(acceptance: Acceptance)
    | Tick(now: Time, tokens: seq<string>, deliveries: seq<Delivery>)

  ghost predicate Step(config: Config, w: World, op: Op, after: World)
    requires Usable(config)
  {
    match op
    case Arrival(acceptance) =>
      acceptance.event.id !in w.store.events && after == World(Accept(w.store, acceptance).0, w.log)
    case Tick(now, tokens, deliveries) =>
      && Supplied(w, tokens, deliveries)
      && after == Batch(config, w, now, tokens, deliveries, |w.store.events| + 1).world
  }

  ghost predicate Run(config: Config, worlds: seq<World>, ops: seq<Op>)
    requires Usable(config)
  {
    |worlds| == |ops| + 1 && forall i | 0 <= i < |ops| :: Step(config, worlds[i], ops[i], worlds[i + 1])
  }

  function ClaimCount(config: Config, w: World, op: Op): nat {
    if op.Tick? then |Chosen(w.store.events, op.now, config.batchSize)| else 0
  }

  function TotalClaims(config: Config, worlds: seq<World>, ops: seq<Op>, n: nat): nat
    requires n <= |ops| <= |worlds|
  {
    if n == 0 then 0 else TotalClaims(config, worlds, ops, n - 1) + ClaimCount(config, worlds[n - 1], ops[n - 1])
  }

  lemma TickResolves(config: Config, w: World, op: Op, after: World)
    requires Usable(config) && Sound(w.store.events, config.maxAttempts)
    requires op.Tick? && Step(config, w, op, after)
    ensures var ids := Chosen(w.store.events, op.now, config.batchSize);
            Distinct(ids) && ResolvedRecords(config, w.store.events, ids, op.now, op.deliveries, after.store.events)
  {
    hide Batch, Outcome, Chosen, Less;
    SequentialBatch(config, w, op.now, op.tokens, op.deliveries, |w.store.events| + 1);
    ChosenIsSelection(w.store.events, op.now, config.batchSize);
  }

  /** A batch keeps the records sound and pays one attempt for each claim. */
  lemma {:induction false} ResolvingCosts(
      config: Config, before: map<string, Record>, ids: seq<string>, now: Time, deliveries: seq<Delivery>, after: map<string, Record>)
    requires Usable(config) && Sound(before, config.maxAttempts) && Distinct(ids)
    requires ResolvedRecords(config, before, ids, now, deliveries, after)
    ensures Sound(after, config.maxAttempts)
    ensures Work(after, config.maxAttempts) + |ids| <= Work(before, config.maxAttempts)
  {
    hide Outcome, Less, Work;
    forall j | 0 <= j < |ids|
      ensures SoundRecord(after[ids[j]], config.maxAttempts) && after[ids[j]].event.id == ids[j]
      ensures Left(after[ids[j]], config.maxAttempts) < Left(before[ids[j]], config.maxAttempts)
    {
      OutcomeCosts(config, before[ids[j]], now, deliveries[j]);
    }
    WorkFalls(before, after, ids, config.maxAttempts);
    forall id | id in after ensures SoundRecord(after[id], config.maxAttempts) && after[id].event.id == id {
      if id in ids {
        var j :| 0 <= j < |ids| && ids[j] == id;
      }
    }
  }

  /** An acceptance brings all the attempts of a new event, or changes nothing. */
  lemma ArrivalAdds(config: Config, w: World, op: Op, after: World)
    requires Usable(config) && Sound(w.store.events, config.maxAttempts)
    requires op.Arrival? && Step(config, w, op, after)
    ensures Sound(after.store.events, config.maxAttempts)
    ensures Work(after.store.events, config.maxAttempts) - config.maxAttempts * |after.store.events| ==
            Work(w.store.events, config.maxAttempts) - config.maxAttempts * |w.store.events|
  {
    hide Work;
    var events, id := w.store.events, op.acceptance.event.id;
    if after.store != w.store {
      WorkOfUpdate(events, config.maxAttempts, id, NewRecord(op.acceptance.event));
      assert after.store.events.Keys == events.Keys + {id};
      assert |after.store.events| == |events| + 1;
      NextMultiple(config.maxAttempts, |events|);
    }
  }

  /**
   In every sequential run from an empty store the records stay sound, and all claims so
   far and all work that is left are paid for by the attempts of the accepted events.
   */
  lemma {:induction false} ClaimsBounded(config: Config, worlds: seq<World>, ops: seq<Op>, n: nat)
    requires Usable(config) && Run(config, worlds, ops) && worlds[0].store == EMPTY && n <= |ops|
    ensures Sound(worlds[n].store.events, config.maxAttempts)
    ensures TotalClaims(config, worlds, ops, n) + Work(worlds[n].store.events, config.maxAttempts) <=
            config.maxAttempts * |worlds[n].store.events|
    ensures TotalClaims(config, worlds, ops, n) <= config.maxAttempts * |worlds[n].store.events|
  {
    hide Work, Chosen, Step, Outcome;
    if n > 0 {
      ClaimsBounded(config, worlds, ops, n - 1);
      var w, op, after := worlds[n - 1], ops[n - 1], worlds[n];
      assert Step(config, worlds[n - 1], ops[n - 1], worlds[n - 1 + 1]);
      if op.Tick? {
        TickResolves(config, w, op, after);
        ResolvingCosts(config, w.store.events, Chosen(w.store.events, op.now, config.batchSize), op.now, op.deliveries,
          after.store.events);
        SameSize(w.store.events, after.store.events);
      } else {
        ArrivalAdds(config, w, op, after);
      }
    } else {
      NothingToDo(config.maxAttempts);
    }
    WorkBounded(worlds[n].store.events, config.maxAttempts);
  }

  lemma {:induction false} NothingToDo(max: int)
    ensures Work(map[], max) == 0 && Sound(map[], max)
  {
  }

  lemma SameSize(m: map<string, Record>, n: map<string, Record>)
    requires m.Keys == n.Keys
    ensures |m| == |n|
  {
    assert |m| == |m.Keys| && |n| == |n.Keys|;
  }

  // ----- A publisher that always fails

  ghost predicate SomePending(events: map<string, Record>) {
    exists id :: id in events && Pending(events[id])
  }

  ghost predicate SomeDue(events: map<string, Record>, now: Time) {
    exists id :: id in events && Due(events[id], now)
  }

  ghost predicate NonePublished(events: map<string, Record>) {
    forall id | id in events :: !events[id].published
  }

  /** When anything is due, a batch claims something. */
  lemma DueIsClaimed(events: map<string, Record>, now: Time, batchSize: int)
    requires batchSize >= 1 && SomeDue(events, now)
    ensures |Chosen(events, now, batchSize)| >= 1
  {
    ChosenAreLeast(events, now, batchSize);
  }

  /** A batch that runs while something is pending: the clock has reached one of the pending records. */
  ghost predicate FailingTick(config: Config, w: World, op: Op, after: World)
    requires Usable(config)
  {
    && op.Tick? && Step(config, w, op, after)
    && (forall j | 0 <= j < |op.deliveries| :: op.deliveries[j] != Delivered)
    && (SomePending(w.store.events) ==> SomeDue(w.store.events, op.now))
  }

  lemma FailingTickWorks(config: Config, w: World, op: Op, after: World)
    requires Usable(config) && config.batchSize >= 1
    requires Sound(w.store.events, config.maxAttempts) && NonePublished(w.store.events)
    requires FailingTick(config, w, op, after)
    ensures Sound(after.store.events, config.maxAttempts) && NonePublished(after.store.events)
    ensures after.store.events.Keys == w.store.events.Keys
    ensures Work(after.store.events, config.maxAttempts) <= Work(w.store.events, config.maxAttempts)
    ensures SomePending(w.store.events) ==> Work(after.store.events, config.maxAttempts) < Work(w.store.events, config.maxAttempts)
  {
    hide Work, Chosen, Step, Less, Outcome;
    var events, ids := w.store.events, Chosen(w.store.events, op.now, config.batchSize);
    TickResolves(config, w, op, after);
    ResolvingCosts(config, events, ids, op.now, op.deliveries, after.store.events);
    StaysUnpublished(config, events, ids, op.now, op.deliveries, after.store.events);
    if SomePending(events) {
      DueIsClaimed(events, op.now, config.batchSize);
    }
  }

  lemma StaysUnpublished(
      config: Config, before: map<string, Record>, ids: seq<string>, now: Time, deliveries: seq<Delivery>, after: map<string, Record>)
    requires Usable(config) && Sound(before, config.maxAttempts) && NonePublished(before)
    requires ResolvedRecords(config, before, ids, now, deliveries, after)
    requires forall j | 0 <= j < |deliveries| :: deliveries[j] != Delivered
    ensures NonePublished(after)
  {
    forall id | id in after ensures !after[id].published {
      if id in ids {
        var j :| 0 <= j < |ids| && ids[j] == id;
      }
    }
  }

  /**
   While the publisher always fails and each batch finds something due as long as anything
   is pending, as many batches as there are attempts leave every event terminal.
   */
  lemma FailingPublisherEnds(config: Config, worlds: seq<World>, ops: seq<Op>)
    requires Usable(config) && config.batchSize >= 1 && |worlds| == |ops| + 1
    requires Sound(worlds[0].store.events, config.maxAttempts) && NonePublished(worlds[0].store.events)
    requires forall i | 0 <= i < |ops| :: FailingTick(config, worlds[i], ops[i], worlds[i + 1])
    requires |ops| >= config.maxAttempts * |worlds[0].store.events|
    ensures var last := worlds[|ops|].store.events;
            && last.Keys == worlds[0].store.events.Keys
            && forall id | id in last :: last[id].terminal && !last[id].published && last[id].attempts == config.maxAttempts
  {
    hide Work, FailingTick;
    var last := worlds[|ops|].store.events;
    FailingBatches(config, worlds, ops, |ops|);
    WorkBounded(worlds[0].store.events, config.maxAttempts);
    forall id | id in last ensures last[id].terminal && !last[id].published && last[id].attempts == config.maxAttempts {
      if Pending(last[id]) {
        PendingHasWork(last, config.maxAttempts, id);
      }
    }
  }

  /** Either nothing is pending any more or every batch so far has used up an attempt. */
  lemma FailingBatches(config: Config, worlds: seq<World>, ops: seq<Op>, n: nat)
    requires Usable(config) && config.batchSize >= 1 && |worlds| == |ops| + 1 && n <= |ops|
    requires Sound(worlds[0].store.events, config.maxAttempts) && NonePublished(worlds[0].store.events)
    requires forall i | 0 <= i < |ops| :: FailingTick(config, worlds[i], ops[i], worlds[i + 1])
    ensures Sound(worlds[n].store.events, config.maxAttempts) && NonePublished(worlds[n].store.events)
    ensures worlds[n].store.events.Keys == worlds[0].store.events.Keys
    ensures Work(worlds[n].store.events, config.maxAttempts) + n <= Work(worlds[0].store.events, config.maxAttempts)
            || Work(worlds[n].store.events, config.maxAttempts) <= 0
  {
    hide Work, FailingTick;
    if n > 0 {
      FailingBatches(config, worlds, ops, n - 1);
      assert FailingTick(config, worlds[n - 1], ops[n - 1], worlds[n - 1 + 1]);
      FailingTickWorks(config, worlds[n - 1], ops[n - 1], worlds[n]);
      if !SomePending(worlds[n - 1].store.events) {
        IdleHasNoWork(worlds[n - 1].store.events, config.maxAttempts);
      }
    }
  }

  lemma {:induction false} IdleHasNoWork(events: map<string, Record>, max: int)
    requires !SomePending(events)
    ensures Work(events, max) == 0
    decreases |events|
  {
    if events != map[] {
      var id :| id in events;
      WorkOf(events, max, id);
      RemovalShrinks(events, id);
      forall x | x in events - {id} ensures !Pending((events - {id})[x]) {
        assert x in events;
      }
      IdleHasNoWork(events - {id}, max);
    }
  }
}
