/**
 Batches that run one after the other on a memory store: each resolves exactly what it
 claimed, and the attempts that are left bound all the claims of a run.
 */
module BatchRuns {
  import opened Wrappers
  import opened Ordering
  import opened Timestamps
  import opened Outbox
  import opened RetryDelays
  import opened Dispatcher

  // ----- One batch

  /** Every record is stored under its event's ID. */
  ghost predicate WellKeyed(events: map<string, Record>) {
    forall id | id in events :: events[id].event.id == id
  }

  ghost predicate Supplied(w: World, tokens: seq<string>, deliveries: seq<Delivery>) {
    && |w.store.events| <= |tokens| && |w.store.events| <= |deliveries|
    && forall i | 0 <= i < |tokens| :: tokens[i] != ""
  }

  /** What a batch makes of a record it claimed. */
  function Outcome(config: Config, r: Record, now: Time, delivery: Delivery): Record
    requires Int64(config.baseDelay)
  {
    if delivery == Delivered then
      Record(r.event, r.attempts, r.retryAt, ZERO, "", true, r.terminal)
    else
      var exhausted := r.attempts + 1 >= config.maxAttempts;
      var retryAt := if exhausted then ZERO else now + Delay(config.baseDelay, config.maxDelay, r.attempts + 1);
      Record(r.event, r.attempts + 1, retryAt, ZERO, "", r.published, exhausted)
  }

  /** A batch after its claim: the records before the claim, the chosen IDs and what was handed out. */
  datatype ClaimedBatch = ClaimedBatch(
    config: Config, before: map<string, Record>, ids: seq<string>, until: Time, tokens: seq<string>,
    start: Progress, events: seq<PendingEvent>, now: Time, deliveries: seq<Delivery>, alive: nat)
  {
    ghost predicate HandedOut() {
      && |events| == |ids| <= |tokens| && ids == Chosen(before, now, config.batchSize)
      && start.error == None && start.world.store.events.Keys == before.Keys
      && forall j | 0 <= j < |ids| ::
           && tokens[j] != "" && before[ids[j]].event.id == ids[j]
           && events[j] == PendingEvent(before[ids[j]].event, before[ids[j]].attempts, tokens[j])
           && start.world.store.events[ids[j]] == before[ids[j]].(leaseUntil := until, claimToken := tokens[j])
    }

    ghost predicate Live() {
      Int64(config.baseDelay) && |events| < alive && |events| <= |deliveries|
    }

    /** The batch after its first n events. */
    function At(n: nat): Progress
      requires Live() && n <= |events|
    {
      Resolved(config, start, events, n, now, deliveries, alive)
    }
  }

  /** A batch whose context outlives it. */
  type LiveBatch = c: ClaimedBatch | c.HandedOut() && c.Live() witness IDLE

  const IDLE: ClaimedBatch := ClaimedBatch(Config(0, 0, 0, 0, 0), map[], [], ZERO, [],
    Progress(World(EMPTY, []), DispatchResult(0, 0, 0), None), [], ZERO, [], 1)

  /** A claim that is still held is completed, and no other record changes. */
  lemma CompletesHeld(
      config: Config, s: State, pending: PendingEvent, now: Time, delivery: Delivery, r: Record, until: Time)
    requires Int64(config.baseDelay) && pending.claimToken != "" && pending.event.id in s.events
    requires pending.event == r.event && pending.attempts == r.attempts
    requires s.events[pending.event.id] == r.(leaseUntil := until, claimToken := pending.claimToken)
    ensures Complete(config, s, pending, now, delivery == Delivered, false) ==
            (s.(events := s.events[pending.event.id := Outcome(config, r, now, delivery)]), None)
  {
  }

  /** The next event, when its record is still held as it was claimed. */
  lemma NextResolved(c: LiveBatch, n: nat)
    requires n < |c.events| && c.At(n).error == None && c.ids[n] in c.At(n).world.store.events
    requires c.At(n).world.store.events[c.ids[n]] == c.start.world.store.events[c.ids[n]]
    ensures var p, d := c.At(n), c.deliveries[n];
            c.At(n + 1) == Progress(
              World(p.world.store.(events := p.world.store.events[c.ids[n] := Outcome(c.config, c.before[c.ids[n]], c.now, d)]),
                    Landed(p.world.log, c.events[n].event, d)),
              Counted(p.result, d == Delivered), None)
  {
    CompletesHeld(c.config, c.At(n).world.store, c.events[n], c.now, c.deliveries[n], c.before[c.ids[n]], c.until);
  }

  lemma ClaimedOnce(c: LiveBatch, i: nat, j: nat)
    requires i < |c.ids| && j < |c.ids|
    ensures c.ids[i] == c.ids[j] ==> i == j
  {
    ChosenDistinct(c.before, c.now, c.config.batchSize);
  }

  lemma AtStart(c: LiveBatch)
    ensures c.At(0) == c.start
  {
  }

  /** One claimed record at any time of the batch. */
  lemma ClaimedRecord(c: LiveBatch, n: nat, j: nat)
    requires n <= |c.events| && j < |c.events|
    ensures var p := c.At(n);
            && p.error == None && p.world.store.events.Keys == c.before.Keys
            && p.world.store.events[c.ids[j]] ==
               if j < n then Outcome(c.config, c.before[c.ids[j]], c.now, c.deliveries[j]) else c.start.world.store.events[c.ids[j]]
  {
    hide ClaimedBatch.At, Outcome;
    if n == 0 {
      AtStart(c);
    } else {
      ClaimedRecord(c, n - 1, j);
      ClaimedRecord(c, n - 1, n - 1);
      NextResolved(c, n - 1);
      ClaimedOnce(c, j, n - 1);
    }
  }

  /** A record that was not claimed. */
  lemma OtherRecord(c: LiveBatch, n: nat, id: string)
    requires n <= |c.events| && id in c.before && id !in c.ids
    ensures id in c.At(n).world.store.events && c.At(n).world.store.events[id] == c.start.world.store.events[id]
  {
    hide ClaimedBatch.At, Outcome;
    if n == 0 {
      AtStart(c);
    } else {
      OtherRecord(c, n - 1, id);
      ClaimedRecord(c, n - 1, n - 1);
      NextResolved(c, n - 1);
      assert c.ids[n - 1] != id;
    }
  }

  /** How many of the calls were acknowledged. */
  function Acknowledged(deliveries: seq<Delivery>): nat {
    if deliveries == [] then 0
    else Acknowledged(deliveries[..|deliveries| - 1]) + if deliveries[|deliveries| - 1] == Delivered then 1 else 0
  }

  /** The messages of the calls that landed, in order. */
  function Messages(events: seq<PendingEvent>, deliveries: seq<Delivery>): seq<OutboxEvent>
    requires |events| == |deliveries|
  {
    if events == [] then []
    else
      var last := |events| - 1;
      Landed(Messages(events[..last], deliveries[..last]), events[last].event, deliveries[last])
  }

  lemma LandedAfter(log: seq<OutboxEvent>, more: seq<OutboxEvent>, event: OutboxEvent, d: Delivery)
    ensures Landed(log + more, event, d) == log + Landed(more, event, d)
  {
  }

  lemma NothingCounted(log: seq<OutboxEvent>, events: seq<PendingEvent>, deliveries: seq<Delivery>)
    ensures Acknowledged(deliveries[..0]) == 0 && log + Messages(events[..0], deliveries[..0]) == log
  {
  }

  /** The counters and the log at any time of the batch. */
  lemma Counters(c: LiveBatch, n: nat)
    requires n <= |c.events|
    ensures var p, acknowledged := c.At(n), Acknowledged(c.deliveries[..n]);
            && p.error == None
            && p.world.store.transactions == c.start.world.store.transactions
            && p.result == DispatchResult(c.start.result.claimed, c.start.result.published + acknowledged,
                 c.start.result.failed + n - acknowledged)
            && p.world.log == c.start.world.log + Messages(c.events[..n], c.deliveries[..n])
  {
    hide ClaimedBatch.At, Outcome, Messages, Acknowledged, Landed;
    if n == 0 {
      AtStart(c);
      NothingCounted(c.start.world.log, c.events, c.deliveries);
    } else {
      Counters(c, n - 1);
      ClaimedRecord(c, n - 1, n - 1);
      NextResolved(c, n - 1);
      OneMore(c.start.world.log, c.events, c.deliveries, n);
    }
  }

  /**
   Any batch, whenever its context ends or its tokens were lost: it completed some of its
   events, the first ones in order, and counted each of them once. If it stopped at an
   error, the error is that of the next completion, whose message may have landed.
   */
  lemma BatchStops(
      config: Config, start: Progress, events: seq<PendingEvent>, n: nat, now: Time, deliveries: seq<Delivery>, alive: nat)
    returns (done: nat)
    requires Int64(config.baseDelay) && n <= |events| <= |deliveries| && start.error.None?
    ensures var p := Resolved(config, start, events, n, now, deliveries, alive);
            && done <= n && (p.error.None? <==> done == n)
            && p.result == DispatchResult(start.result.claimed, start.result.published + Acknowledged(deliveries[..done]),
                 start.result.failed + done - Acknowledged(deliveries[..done]))
            && var attempted := if p.error.None? then done else done + 1;
               p.world.log == start.world.log + Messages(events[..attempted], deliveries[..attempted])
    ensures var p := Resolved(config, start, events, n, now, deliveries, alive);
            p.error.Some? ==>
              var before := Resolved(config, start, events, done, now, deliveries, alive);
              (p.world.store, p.error) ==
                Complete(config, before.world.store, events[done], now, deliveries[done] == Delivered, alive <= done + 1)
  {
    hide Complete, Messages, Acknowledged, Landed;
    if n == 0 {
      done := 0;
      NothingCounted(start.world.log, events, deliveries);
    } else {
      done := BatchStops(config, start, events, n - 1, now, deliveries, alive);
      var p := Resolved(config, start, events, n - 1, now, deliveries, alive);
      if p.error.None? {
        OneMore(start.world.log, events, deliveries, n);
        done := if Resolved(config, start, events, n, now, deliveries, alive).error.None? then n else n - 1;
      }
    }
  }

  lemma OneMore(log: seq<OutboxEvent>, events: seq<PendingEvent>, deliveries: seq<Delivery>, n: nat)
    requires 0 < n <= |events| <= |deliveries|
    ensures Acknowledged(deliveries[..n]) == Acknowledged(deliveries[..n - 1]) + if deliveries[n - 1] == Delivered then 1 else 0
    ensures Landed(log + Messages(events[..n - 1], deliveries[..n - 1]), events[n - 1].event, deliveries[n - 1]) ==
            log + Messages(events[..n], deliveries[..n])
  {
    assert deliveries[..n][..n - 1] == deliveries[..n - 1] && events[..n][..n - 1] == events[..n - 1];
    LandedAfter(log, Messages(events[..n - 1], deliveries[..n - 1]), events[n - 1].event, deliveries[n - 1]);
  }

  /** The batch after the claim. */
  ghost function ClaimsOf(config: Config, w: World, now: Time, tokens: seq<string>, deliveries: seq<Delivery>, alive: nat): ClaimedBatch
    requires |Chosen(w.store.events, now, config.batchSize)| <= |tokens|
  {
    var (s, events) := Claim(w.store, now, config.lease, config.batchSize, tokens);
    ClaimedBatch(config, w.store.events, Chosen(w.store.events, now, config.batchSize), now + config.lease, tokens,
      Progress(World(s, w.log), DispatchResult(|events|, 0, 0), None), events, now, deliveries, alive)
  }

  ghost predicate LeftAlone(before: map<string, Record>, ids: seq<string>, after: map<string, Record>) {
    forall id | id in before && id !in ids :: id in after && after[id] == before[id]
  }

  lemma ClaimsAreLive(
      config: Config, w: World, now: Time, tokens: seq<string>, deliveries: seq<Delivery>, alive: nat)
    requires Int64(config.baseDelay) && WellKeyed(w.store.events) && Supplied(w, tokens, deliveries)
    requires alive > |w.store.events|
    ensures |Chosen(w.store.events, now, config.batchSize)| <= |w.store.events|
    ensures var c := ClaimsOf(config, w, now, tokens, deliveries, alive);
            c.HandedOut() && c.Live() && LeftAlone(w.store.events, c.ids, c.start.world.store.events)
  {
    hide Chosen, Leased, Handed, Less;
    ChosenFit(w.store.events, now, config.batchSize);
    ChosenDistinct(w.store.events, now, config.batchSize);
    TakeHandsOut(w.store.events, Chosen(w.store.events, now, config.batchSize), now + config.lease, tokens);
  }

  lemma {:induction false} TakeHandsOut(before: map<string, Record>, ids: seq<string>, until: Time, tokens: seq<string>)
    requires WellKeyed(before) && Known(ids, before) && |ids| <= |tokens| && Distinct(ids)
    requires forall i | 0 <= i < |tokens| :: tokens[i] != ""
    ensures var after, events := Leased(before, ids, until, tokens), Handed(before, ids, tokens);
            && |events| == |ids| && after.Keys == before.Keys && LeftAlone(before, ids, after)
            && forall j | 0 <= j < |ids| ::
                 && tokens[j] != "" && before[ids[j]].event.id == ids[j]
                 && events[j] == PendingEvent(before[ids[j]].event, before[ids[j]].attempts, tokens[j])
                 && after[ids[j]] == before[ids[j]].(leaseUntil := until, claimToken := tokens[j])
  {
    LeasedRecords(before, ids, until, tokens);
  }

  /**
   A batch alone on the store with a live context never fails. It claims the least due IDs
   in ascending order, as many as the batch size allows, resolves every one of them, counts
   each once, appends their messages in order and leaves every other record as it was.
   */
  lemma SequentialBatch(
      config: Config, w: World, now: Time, tokens: seq<string>, deliveries: seq<Delivery>, alive: nat)
    requires Int64(config.baseDelay) && WellKeyed(w.store.events) && Supplied(w, tokens, deliveries)
    requires alive > |w.store.events|
    ensures var ids := Chosen(w.store.events, now, config.batchSize);
            var after := Batch(config, w, now, tokens, deliveries, alive);
            && |ids| <= |w.store.events|
            && after.error == None
            && after.result == DispatchResult(|ids|, Acknowledged(deliveries[..|ids|]), |ids| - Acknowledged(deliveries[..|ids|]))
            && after.world.store.transactions == w.store.transactions
            && after.world.store.events.Keys == w.store.events.Keys
            && (forall j | 0 <= j < |ids| ::
                  after.world.store.events[ids[j]] == Outcome(config, w.store.events[ids[j]], now, deliveries[j]))
            && LeftAlone(w.store.events, ids, after.world.store.events)
            && after.world.log == w.log + Messages(Handed(w.store.events, ids, tokens), deliveries[..|ids|])
  {
    ClaimsAreLive(config, w, now, tokens, deliveries, alive);
    var c: LiveBatch := ClaimsOf(config, w, now, tokens, deliveries, alive);
    var n := |c.events|;
    BatchIsItsEvents(config, w, now, tokens, deliveries, alive);
    Counters(c, n);
    assert c.events[..n] == c.events;
    ResolvedAll(c);
  }

  lemma BatchIsItsEvents(
      config: Config, w: World, now: Time, tokens: seq<string>, deliveries: seq<Delivery>, alive: nat)
    requires Int64(config.baseDelay) && Supplied(w, tokens, deliveries) && alive > 0
    requires |Chosen(w.store.events, now, config.batchSize)| <= |w.store.events|
    requires ClaimsOf(config, w, now, tokens, deliveries, alive).Live()
    ensures var c := ClaimsOf(config, w, now, tokens, deliveries, alive);
            Batch(config, w, now, tokens, deliveries, alive) == c.At(|c.events|)
  {
  }

  /** Every claimed record is resolved, and the others are as the claim left them. */
  lemma ResolvedAll(c: LiveBatch)
    ensures var after := c.At(|c.events|).world.store.events;
            && after.Keys == c.before.Keys
            && (forall j | 0 <= j < |c.ids| :: after[c.ids[j]] == Outcome(c.config, c.before[c.ids[j]], c.now, c.deliveries[j]))
            && LeftAlone(c.start.world.store.events, c.ids, after)
  {
    var n := |c.events|;
    var after := c.At(n).world.store.events;
    if n > 0 {
      ClaimedRecord(c, n, 0);
    }
    forall j | 0 <= j < n ensures after[c.ids[j]] == Outcome(c.config, c.before[c.ids[j]], c.now, c.deliveries[j]) {
      ClaimedRecord(c, n, j);
    }
    forall id | id in c.before && id !in c.ids ensures id in after && after[id] == c.start.world.store.events[id] {
      OtherRecord(c, n, id);
    }
  }
}
