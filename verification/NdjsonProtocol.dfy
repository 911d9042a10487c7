/** The operations, crashes and restarts of the NDJSON store as steps of the outbox protocol. */
module NdjsonProtocol {
  import opened Wrappers
  import opened Timestamps
  import opened Outbox
  import opened Dispatcher
  import opened Termination
  import opened Protocol
  import Ndjson
  import Runs = NdjsonRuns

  /** The open store holds the state of the system. */
  ghost predicate Holds(d: Runs.Disk, w: System) {
    Runs.Described(d) && d.live == Some(w.store)
  }

  /** Opening the file again is the restart that forgets all leases, when every line can be decoded. */
  lemma ReopenIsRestart(max: int, w: System, d: Runs.Disk, after: Runs.Disk)
    requires Holds(d, w) && Runs.Next(d, Runs.Reopen, after) && Ndjson.AllReadable(d.lines)
    ensures Enabled(max, w, Restart) && Holds(after, Apply(max, w, Restart))
  {
    hide Erase, Runs.Described;
    Runs.RestartLosesLeases(d, after);
    Runs.StepDescribed(d, Runs.Reopen, after);
  }

  /** A crash behind the append is the operation and a restart right behind it. */
  lemma CrashIsStepAndRestart(max: int, w: System, d: Runs.Disk, op: Runs.Operation, after: Runs.Disk, step: Action)
    requires Holds(d, w) && Runs.Next(d, Runs.Perform(op, Runs.Crashed), after) && Ndjson.AllReadable(after.lines)
    requires Runs.Appended(d, Runs.Perform(op, Runs.Crashed)).Some?
    requires Enabled(max, w, step) && Apply(max, w, step).store == Runs.After(w.store, op)
    ensures Holds(after, Apply(max, Apply(max, w, step), Restart))
  {
    hide Erase, Apply, Enabled, Runs.Described, Runs.After, Runs.Appended, Runs.LogOf;
    var line := Runs.Appended(d, Runs.Perform(op, Runs.Crashed)).value;
    Runs.OneMoreLine(d.lines, line);
    LinesOf(d, op, after);
    Runs.CrashLosesLeases(d, op, line, after);
    Runs.StepDescribed(d, Runs.Perform(op, Runs.Crashed), after);
    RestartErases(max, Apply(max, w, step));
  }

  lemma LinesOf(d: Runs.Disk, op: Runs.Operation, after: Runs.Disk)
    requires Runs.Next(d, Runs.Perform(op, Runs.Crashed), after) && Runs.Appended(d, Runs.Perform(op, Runs.Crashed)).Some?
    ensures after.lines == d.lines + [Runs.Appended(d, Runs.Perform(op, Runs.Crashed)).value]
  {
    hide Runs.After, Runs.Opened;
  }

  lemma RestartErases(max: int, w: System)
    ensures Enabled(max, w, Restart) && Apply(max, w, Restart).store == Erase(w.store)
  {
  }

  /** An acceptance of a new event is its submission. */
  lemma AcceptingIsSubmit(max: int, w: System, a: Acceptance)
    requires a.event.payload == a.transaction && Built(a) && Runs.Proper(w.store, Runs.Accepting(a))
    ensures Enabled(max, w, Submit(a)) && Apply(max, w, Submit(a)).store == Runs.After(w.store, Runs.Accepting(a))
  {
    hide Key;
    Ndjson.BuiltIsPreserved(a);
  }

  /** A claim under fresh tokens is the claim of an idle worker. */
  lemma ClaimingIsClaimBatch(max: int, w: System, worker: nat, config: Config, now: Time, limit: nat, tokens: seq<string>)
    requires worker !in w.flights && Usable(config) && config.maxAttempts == max
    requires Runs.Proper(w.store, Runs.Claiming(now, config.lease, limit, tokens))
    requires forall i | 0 <= i < |tokens| :: tokens[i] != "" && tokens[i] !in w.issued
    ensures var claim := ClaimBatch(worker, config, now, Selected(w.store.events, now, limit), tokens);
            Enabled(max, w, claim) && Apply(max, w, claim).store == Runs.After(w.store, Runs.Claiming(now, config.lease, limit, tokens))
  {
    hide Selected, Leased, Handed, Usable;
    Ndjson.SelectedFit(w.store.events, now, limit);
    Runs.SelectedAreDue(w.store.events, now, limit);
  }

  /** The operation by which a worker completes the next event of its batch. */
  function Completion(f: Flight, at: Time): Runs.Operation
    requires f.next < |f.events| && f.acked.Some? && Usable(f.config)
  {
    var p := f.events[f.next];
    if f.acked.value then Runs.Publishing(p.event.id, p.claimToken, at) else Runs.Failing(FailureOf(f.config, p, f.now))
  }

  /** Completing an event is the end of its publication. */
  lemma CompletionIsFinish(max: int, w: System, worker: nat, at: Time)
    requires Enabled(max, w, Finish(worker))
    ensures Apply(max, w, Finish(worker)).store == Runs.After(w.store, Completion(w.flights[worker], at))
  {
  }
}
