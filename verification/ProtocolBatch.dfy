/** A dispatcher's batch that meets no other worker is one path of the protocol. */
module ProtocolBatch {
  import opened Wrappers
  import opened Timestamps
  import opened Outbox
  import D = Dispatcher
  import opened BatchRuns
  import opened Termination
  import opened Protocol

  /** A finite path of enabled steps. */
  ghost predicate Path(max: int, systems: seq<System>, actions: seq<Action>, from: System, to: System) {
    && |systems| == |actions| + 1 && systems[0] == from && systems[|actions|] == to
    && forall i | 0 <= i < |actions| :: Enabled(max, systems[i], actions[i]) && systems[i + 1] == Apply(max, systems[i], actions[i])
  }

  lemma OneMore(max: int, systems: seq<System>, actions: seq<Action>, from: System, to: System, action: Action)
    returns (longer: seq<System>)
    requires Path(max, systems, actions, from, to) && Enabled(max, to, action)
    ensures Path(max, longer, actions + [action], from, Apply(max, to, action))
  {
    hide Enabled, Apply;
    longer := systems + [Apply(max, to, action)];
  }

  /** The system stands where the batch stands after its first n events. */
  ghost predicate Matches(c: LiveBatch, s: System, worker: nat, n: nat) {
    && n <= |c.events| && worker in s.flights
    && s.store == c.At(n).world.store && s.log == c.At(n).world.log
    && s.flights[worker] == Flight(c.config, c.now, c.events, n, None)
  }

  /** Publishing and finishing one event takes the system along. */
  lemma EventSteps(max: int, c: LiveBatch, s: System, worker: nat, n: nat)
    requires Usable(c.config) && Matches(c, s, worker, n) && n < |c.events|
    ensures Enabled(max, s, Publish(worker, c.deliveries[n]))
    ensures var published := Apply(max, s, Publish(worker, c.deliveries[n]));
            Enabled(max, published, Finish(worker)) && Matches(c, Apply(max, published, Finish(worker)), worker, n + 1)
  {
    hide D.Complete, D.Landed;
    ClaimedRecord(c, n, n);
    ClaimedRecord(c, n + 1, n);
    NextAt(c, n);
  }

  /** The batch one event further, as long as nothing fails. */
  lemma NextAt(c: LiveBatch, n: nat)
    requires n < |c.events| && c.At(n).error == None && c.At(n + 1).error == None
    ensures var p, d := c.At(n), c.deliveries[n];
            && D.Complete(c.config, p.world.store, c.events[n], c.now, d == D.Delivered, false) == (c.At(n + 1).world.store, None)
            && c.At(n + 1).world.log == D.Landed(p.world.log, c.events[n].event, d)
  {
    hide D.Complete, D.Landed;
  }

  lemma EventPath(max: int, c: LiveBatch, from: System, worker: nat, n: nat)
    returns (systems: seq<System>, actions: seq<Action>, to: System)
    requires Usable(c.config) && Matches(c, from, worker, 0) && n <= |c.events|
    ensures Path(max, systems, actions, from, to) && Matches(c, to, worker, n)
  {
    hide Enabled, Apply, Matches, Path;
    if n == 0 {
      systems, actions, to := [from], [], from;
      NoSteps(max, from);
    } else {
      systems, actions, to := EventPath(max, c, from, worker, n - 1);
      EventSteps(max, c, to, worker, n - 1);
      var publish := Publish(worker, c.deliveries[n - 1]);
      systems := OneMore(max, systems, actions, from, to, publish);
      actions, to := actions + [publish], Apply(max, to, publish);
      systems := OneMore(max, systems, actions, from, to, Finish(worker));
      actions, to := actions + [Finish(worker)], Apply(max, to, Finish(worker));
    }
  }

  lemma NoSteps(max: int, s: System)
    ensures Path(max, [s], [], s, s)
  {
  }

  /** The claim of the memory store. */
  function MemoryClaim(w: System, worker: nat, config: D.Config, now: Time, tokens: seq<string>): Action {
    ClaimBatch(worker, config, now, Chosen(w.store.events, now, config.batchSize), tokens)
  }

  /** It is a step of the protocol for every idle worker and fresh tokens. */
  lemma MemoryClaimEnabled(max: int, w: System, worker: nat, config: D.Config, now: Time, tokens: seq<string>)
    requires worker !in w.flights && Usable(config) && config.maxAttempts == max && |w.store.events| <= |tokens|
    requires forall i | 0 <= i < |tokens| :: tokens[i] != "" && tokens[i] !in w.issued
    ensures Enabled(max, w, MemoryClaim(w, worker, config, now, tokens))
  {
    hide Chosen, Selection;
    ChosenIsSelection(w.store.events, now, config.batchSize);
  }

  /**
   From any reachable state an idle worker's batch with a live context, run to its end
   without interruption, is a path of the protocol that ends in the batch's store and log.
   */
  lemma BatchIsPath(
      max: int, w: System, worker: nat, config: D.Config, now: Time, tokens: seq<string>, deliveries: seq<D.Delivery>)
    returns (systems: seq<System>, actions: seq<Action>, to: System)
    requires Inv(max, w) && Enabled(max, w, MemoryClaim(w, worker, config, now, tokens))
    requires |w.store.events| <= |tokens| && |w.store.events| <= |deliveries|
    ensures Path(max, systems, actions, w, to) && worker !in to.flights
    ensures var batch := D.Batch(config, D.World(w.store, w.log), now, tokens, deliveries, |w.store.events| + 1);
            batch.error == None && to.store == batch.world.store && to.log == batch.world.log
  {
    hide Path, Inv, Matches, D.Resolved, ClaimedBatch.At, Chosen, Apply;
    var start, alive := D.World(w.store, w.log), |w.store.events| + 1;
    InvRecords(max, w);
    RecordsAreWellKeyed(max, w);
    ClaimsAreLive(config, start, now, tokens, deliveries, alive);
    BatchIsItsEvents(config, start, now, tokens, deliveries, alive);
    SequentialBatch(config, start, now, tokens, deliveries, alive);
    var c: LiveBatch := ClaimsOf(config, start, now, tokens, deliveries, alive);
    var claim := MemoryClaim(w, worker, config, now, tokens);
    ClaimStep(max, w, worker, config, now, tokens, deliveries);
    NoSteps(max, w);
    systems := OneMore(max, [w], [], w, w, claim);
    actions, to := [] + [claim], Apply(max, w, claim);
    var more, others, end := EventPath(max, c, to, worker, |c.events|);
    systems, actions := Joined(max, systems, actions, w, to, more, others, end);
    LeaveStep(max, c, end, worker);
    systems := OneMore(max, systems, actions, w, end, Leave(worker));
    actions, to := actions + [Leave(worker)], Apply(max, end, Leave(worker));
  }

  lemma ClaimStep(
      max: int, w: System, worker: nat, config: D.Config, now: Time, tokens: seq<string>, deliveries: seq<D.Delivery>)
    requires Inv(max, w) && Enabled(max, w, MemoryClaim(w, worker, config, now, tokens))
    requires |w.store.events| <= |tokens| && |w.store.events| <= |deliveries|
    ensures |Chosen(w.store.events, now, config.batchSize)| <= |tokens|
    ensures var c := ClaimsOf(config, D.World(w.store, w.log), now, tokens, deliveries, |w.store.events| + 1);
            && c.HandedOut() && c.Live()
            && Matches(c, Apply(max, w, MemoryClaim(w, worker, config, now, tokens)), worker, 0)
  {
    hide Inv, Chosen, Take;
    InvRecords(max, w);
    RecordsAreWellKeyed(max, w);
    ClaimsAreLive(config, D.World(w.store, w.log), now, tokens, deliveries, |w.store.events| + 1);
    var c: LiveBatch := ClaimsOf(config, D.World(w.store, w.log), now, tokens, deliveries, |w.store.events| + 1);
    AtStart(c);
  }

  lemma LeaveStep(max: int, c: LiveBatch, s: System, worker: nat)
    requires Matches(c, s, worker, |c.events|)
    ensures Enabled(max, s, Leave(worker)) && worker !in Apply(max, s, Leave(worker)).flights
    ensures Apply(max, s, Leave(worker)).store == c.At(|c.events|).world.store
    ensures Apply(max, s, Leave(worker)).log == c.At(|c.events|).world.log
  {
  }

  lemma Joined(
      max: int, s1: seq<System>, a1: seq<Action>, from: System, middle: System, s2: seq<System>, a2: seq<Action>, to: System)
    returns (systems: seq<System>, actions: seq<Action>)
    requires Path(max, s1, a1, from, middle) && Path(max, s2, a2, middle, to)
    ensures Path(max, systems, actions, from, to)
  {
    hide Enabled, Apply;
    systems, actions := s1 + s2[1..], a1 + a2;
    forall i | 0 <= i < |actions|
      ensures Enabled(max, systems[i], actions[i]) && systems[i + 1] == Apply(max, systems[i], actions[i])
    {
      if i >= |a1| {
        assert systems[i] == s2[i - |a1|] && actions[i] == a2[i - |a1|];
        assert systems[i + 1] == s2[i - |a1| + 1];
      }
    }
  }
}
