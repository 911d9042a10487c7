/**
 The dispatcher: one batch claims due events, publishes them one by one and completes each.
 A batch is a client of the store, so in the protocol its steps interleave with others;
 here it runs alone on a memory store.
 */
module Dispatcher {
  import opened Wrappers
  import opened Timestamps
  import opened Outbox
  import opened RetryDelays
  import MemoryStore

  datatype Config = Config(lease: int, batchSize: int, maxAttempts: int, baseDelay: int, maxDelay: int)

  datatype DispatchResult = DispatchResult(claimed: int, published: int, failed: int)

  /** What becomes of one publish call; a message may land although the call reports a failure. */
  datatype Delivery = Delivered | LandedUnacknowledged | Rejected

  /** The message broker as an append-only log. */
  class Publisher {
    var log: seq<OutboxEvent>

    constructor ()
      ensures log == []
    {
      log := [];
    }

    method Publish(event: OutboxEvent, delivery: Delivery) returns (ok: bool)
      modifies this
      ensures log == Landed(old(log), event, delivery)
      ensures ok <==> delivery == Delivered
    {
      if delivery != Rejected {
        log := log + [event];
      }
      ok := delivery == Delivered;
    }
  }

  // ----- What a batch does to the store and the log

  datatype World = World(store: State, log: seq<OutboxEvent>)

  datatype Progress = Progress(world: World, result: DispatchResult, error: Option<StoreError>)

  function Landed(log: seq<OutboxEvent>, event: OutboxEvent, delivery: Delivery): seq<OutboxEvent> {
    if delivery == Rejected then log else log + [event]
  }

  function FailureOf(config: Config, pending: PendingEvent, now: Time): PublishFailure
    requires Int64(config.baseDelay)
  {
    var attempts := pending.attempts + 1;
    var terminal := attempts >= config.maxAttempts;
    PublishFailure(pending.event.id, pending.claimToken, attempts,
      if terminal then ZERO else now + Delay(config.baseDelay, config.maxDelay, attempts), terminal, "publish_failed")
  }

  function Complete(config: Config, s: State, pending: PendingEvent, now: Time, delivered: bool, cancelled: bool)
    : (State, Option<StoreError>)
    requires Int64(config.baseDelay)
  {
    if cancelled then (s, Some(Cancelled))
    else if delivered then MarkPublished(s, pending.event.id, pending.claimToken)
    else RecordFailure(s, FailureOf(config, pending, now))
  }

  function Counted(r: DispatchResult, delivered: bool): DispatchResult {
    if delivered then r.(published := r.published + 1) else r.(failed := r.failed + 1)
  }

  /** Publishing and completing one claimed event. */
  function Resolve(config: Config, p: Progress, pending: PendingEvent, now: Time, delivery: Delivery, cancelled: bool): Progress
    requires Int64(config.baseDelay)
  {
    var (s, error) := Complete(config, p.world.store, pending, now, delivery == Delivered, cancelled);
    Progress(World(s, Landed(p.world.log, pending.event, delivery)),
      if error.None? then Counted(p.result, delivery == Delivered) else p.result, error)
  }

  /**
   The first n claimed events, stopping at the first error. The context stays live for
   the first alive calls of the store; the claim was the first of them.
   */
  function Resolved(
      config: Config, start: Progress, events: seq<PendingEvent>, n: nat, now: Time, deliveries: seq<Delivery>, alive: nat): Progress
    requires Int64(config.baseDelay) && n <= |events| <= |deliveries|
  {
    if n == 0 then start
    else
      var p := Resolved(config, start, events, n - 1, now, deliveries, alive);
      if p.error.Some? then p else Resolve(config, p, events[n - 1], now, deliveries[n - 1], alive <= n)
  }

  function Batch(config: Config, w: World, now: Time, tokens: seq<string>, deliveries: seq<Delivery>, alive: nat): Progress
    requires Int64(config.baseDelay)
    requires |w.store.events| <= |tokens| && |w.store.events| <= |deliveries|
  {
    if alive == 0 then Progress(w, DispatchResult(0, 0, 0), Some(Cancelled))
    else
      ChosenFit(w.store.events, now, config.batchSize);
      var (s, events) := Claim(w.store, now, config.lease, config.batchSize, tokens);
      Resolved(config, Progress(World(s, w.log), DispatchResult(|events|, 0, 0), None), events, |events|, now, deliveries, alive)
  }

  lemma {:induction false} ErrorEndsBatch(
      config: Config, start: Progress, events: seq<PendingEvent>, m: nat, n: nat, now: Time, deliveries: seq<Delivery>, alive: nat)
    requires Int64(config.baseDelay) && m <= n <= |events| <= |deliveries|
    requires Resolved(config, start, events, m, now, deliveries, alive).error.Some?
    ensures Resolved(config, start, events, n, now, deliveries, alive) == Resolved(config, start, events, m, now, deliveries, alive)
  {
    if m < n {
      ErrorEndsBatch(config, start, events, m, n - 1, now, deliveries, alive);
    }
  }

  class Dispatcher {
    const store: MemoryStore.Store
    const publisher: Publisher
    const config: Config

    constructor (store: MemoryStore.Store, publisher: Publisher, config: Config)
      ensures this.store == store && this.publisher == publisher && this.config == config
    {
      this.store, this.publisher, this.config := store, publisher, config;
    }

    ghost function Snapshot(): World
      reads store.table, publisher
    {
      World(store.Model(), publisher.log)
    }

    /** Publishes one claimed event and completes it. */
    method Dispatch(pending: PendingEvent, now: Time, delivery: Delivery, cancelled: bool)
      returns (ok: bool, error: Option<StoreError>)
      requires store.Valid() && Int64(config.baseDelay)
      modifies store.table`records, store.table.repr, publisher
      ensures store.Valid() && ok == (delivery == Delivered)
      ensures publisher.log == Landed(old(publisher.log), pending.event, delivery)
      ensures (store.Model(), error) == Complete(config, old(store.Model()), pending, now, ok, cancelled)
    {
      ok := publisher.Publish(pending.event, delivery);
      if ok {
        error := store.MarkPublished(pending.event.id, pending.claimToken, cancelled);
        return;
      }
      var attempts := pending.attempts + 1;
      var terminal := attempts >= config.maxAttempts;
      var retryAt := ZERO;
      if !terminal {
        var delay := RetryDelay(config.baseDelay, config.maxDelay, attempts);
        retryAt := now + delay;
      }
      error := store.RecordFailure(
        PublishFailure(pending.event.id, pending.claimToken, attempts, retryAt, terminal, "publish_failed"), cancelled);
    }

    /** The loop of a batch over the claimed events, which ends at the first error. */
    method DispatchAll(events: seq<PendingEvent>, now: Time, deliveries: seq<Delivery>, alive: nat)
      returns (result: DispatchResult, error: Option<StoreError>)
      requires store.Valid() && Int64(config.baseDelay) && |events| <= |deliveries|
      modifies store.table`records, store.table.repr, publisher
      ensures store.Valid()
      ensures Progress(Snapshot(), result, error) ==
              Resolved(config, Progress(old(Snapshot()), DispatchResult(|events|, 0, 0), None), events, |events|, now, deliveries, alive)
    {
      hide Complete, MemoryStore.Store.Valid, MemoryStore.Store.Model;
      result, error := DispatchResult(|events|, 0, 0), None;
      ghost var start := Progress(Snapshot(), result, None);
      var n := 0;
      while n < |events|
        invariant n <= |events| && error.None?
        invariant store.Valid() && store.table.repr == old(store.table.repr)
        invariant Progress(Snapshot(), result, error) == Resolved(config, start, events, n, now, deliveries, alive)
      {
        var ok;
        ok, error := Dispatch(events[n], now, deliveries[n], alive <= n + 1);
        n := n + 1;
        if error.Some? {
          ErrorEndsBatch(config, start, events, n, |events|, now, deliveries, alive);
          return;
        }
        if ok {
          result := result.(published := result.published + 1);
        } else {
          result := result.(failed := result.failed + 1);
        }
      }
    }

    /**
     One batch. The clock, the tokens the store draws, the fate of each publish call and the
     number of store calls for which the context stays live are inputs.
     */
    method RunBatch(now: Time, tokens: seq<string>, deliveries: seq<Delivery>, alive: nat)
      returns (result: DispatchResult, error: Option<StoreError>)
      requires store.Valid() && Int64(config.baseDelay)
      requires |store.Model().events| <= |tokens| && |store.Model().events| <= |deliveries|
      modifies store.table`records, store.table.repr, publisher
      ensures store.Valid()
      ensures Progress(Snapshot(), result, error) == Batch(config, old(Snapshot()), now, tokens, deliveries, alive)
    {
      ChosenFit(store.table.records, now, config.batchSize);
      var claim := store.ClaimPending(now, config.lease, config.batchSize, tokens, alive == 0);
      if claim.Failure? {
        return DispatchResult(0, 0, 0), Some(claim.error);
      }
      result, error := DispatchAll(claim.value, now, deliveries, alive);
    }
  }
}
