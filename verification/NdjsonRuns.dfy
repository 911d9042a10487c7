/**
 Whole runs of the NDJSON store: operations, failed appends, crashes between append and
 apply, and reopening; and the same operations on a memory store.
 */
module NdjsonRuns {
  import opened Wrappers
  import opened Timestamps
  import opened Marshalling
  import opened Outbox
  import opened Ndjson
  import Memory = MemoryStore

  datatype Operation =
    | Accepting(acceptance: Acceptance)
    | Claiming(now: Time, lease: int, limit: nat, tokens: seq<string>)
    | Publishing(eventId: string, token: string, at: Time)
    | Failing(failure: PublishFailure)

  /** What becomes of a step: it runs to its end, its append fails, or the process stops behind the append. */
  datatype Fate = Completed | NotAppended | Crashed

  datatype Step = Perform(operation: Operation, fate: Fate) | Reopen

  /** The live state, if a store is open, and the file. */
  datatype Disk = Disk(live: Option<State>, lines: seq<Line>)

  /** The record an operation logs, if it changes anything that outlives a restart. */
  function LogOf(s: State, op: Operation): Option<LogRecord> {
    match op
    case Accepting(a) => if Accept(s, Stored(a)).1.Accepted? then Some(AcceptedRecord(a)) else None
    case Claiming(_, _, _, _) => None
    case Publishing(id, token, at) => if MarkPublished(s, id, token).1 == None then Some(PublishedLog(id, at)) else None
    case Failing(f) => if RecordFailure(s, f).1 == None then Some(FailedLog(f)) else None
  }

  /** Event IDs are fresh, payloads are such that marshalling preserves them, tokens suffice. */
  ghost predicate Proper(s: State, op: Operation) {
    match op
    case Accepting(a) => Preserved(a) && a.event.id !in s.events
    case Claiming(_, _, _, tokens) => |s.events| <= |tokens|
    case _ => true
  }

  /** The state behind a completed operation. */
  ghost function After(s: State, op: Operation): State
    requires Proper(s, op)
  {
    match op
    case Accepting(a) => Accept(s, Stored(a)).0
    case Claiming(now, lease, limit, tokens) =>
      SelectedFit(s.events, now, limit);
      Take(s, Selected(s.events, now, limit), now + lease, tokens).0
    case Publishing(id, token, _) => MarkPublished(s, id, token).0
    case Failing(f) => RecordFailure(s, f).0
  }

  /** What opening a file gives: a store, or none when the log cannot be replayed. */
  function Opened(lines: seq<Line>): Option<State> {
    if Rebuild(lines).Success? then Some(Rebuild(lines).value) else None
  }

  /** Whether a step appends a line, and which. */
  function Appended(d: Disk, step: Step): Option<Line> {
    if step.Reopen? || d.live.None? || step.fate == NotAppended then None
    else
      var r := LogOf(d.live.value, step.operation);
      if r.None? then None else LineOf(r.value)
  }

  /** A failed append changes nothing; a crash behind an append and a restart open the file anew. */
  ghost predicate Next(d: Disk, step: Step, after: Disk) {
    match step
    case Reopen => after == Disk(Opened(d.lines), d.lines)
    case Perform(op, fate) =>
      && d.live.Some? && Proper(d.live.value, op)
      && match LogOf(d.live.value, op)
         case None => after == Disk(Some(After(d.live.value, op)), d.lines)
         case Some(r) =>
           match Appended(d, step)
           case None => after == d
           case Some(line) =>
             && after.lines == d.lines + [line]
             && (if fate == Completed then after.live.Some? && Apply(d.live.value, r) == Success(after.live.value)
                 else after.live == Opened(after.lines))
  }

  ghost predicate Run(disks: seq<Disk>, steps: seq<Step>) {
    && |disks| == |steps| + 1 && disks[0] == Disk(Some(EMPTY), [])
    && forall i | 0 <= i < |steps| :: Next(disks[i], steps[i], disks[i + 1])
  }

  // ----- The log always describes the live state without its leases

  /** An open store is described by its file; without one the file has a line that cannot be decoded. */
  ghost predicate Described(d: Disk) {
    if d.live.Some? then Describes(d.lines, d.live.value)
    else !AllReadable(d.lines) && Rebuild(d.lines) == Failure(CorruptLine)
  }

  /** Logging an operation leads to its state, live and, if the line can be decoded, in a replay. */
  lemma LogDescribes(lines: seq<Line>, s: State, op: Operation, r: LogRecord)
    requires Proper(s, op) && LogOf(s, op) == Some(r) && LineOf(r).Some? && Describes(lines, s)
    ensures Apply(s, r) == Success(After(s, op)) && Describes(lines + [LineOf(r).value], After(s, op))
  {
    hide Describes, Apply, LineOf, Erase, Preserved, Stored, Key;
    match op
    case Accepting(a) =>
      StoredKeepsIdentity(a);
      AcceptedDescribed(lines, s, a);
    case Publishing(id, token, at) => PublishedDescribed(lines, s, id, at);
    case Failing(f) => FailedDescribed(lines, s, f);
  }

  lemma UnloggedLeavesNoTrace(s: State, op: Operation)
    requires Proper(s, op) && LogOf(s, op) == None
    ensures Erase(After(s, op)) == Erase(s)
  {
    hide Erase, Take, Selected;
    match op
    case Claiming(now, lease, limit, tokens) =>
      SelectedFit(s.events, now, limit);
      ClaimsCommute(s, Selected(s.events, now, limit), now + lease, tokens);
    case _ =>
  }

  lemma EraseTwice(s: State)
    ensures Erase(Erase(s)) == Erase(s)
  {
    assert Erase(Erase(s)).events == Erase(s).events;
  }

  /** Opening a described file gives the live state without its leases, or no store at all. */
  lemma OpenedDescribed(lines: seq<Line>, s: State)
    requires Describes(lines, s)
    ensures Opened(lines) == if AllReadable(lines) then Some(Erase(s)) else None
    ensures Described(Disk(Opened(lines), lines))
  {
    hide Erase, Rebuild;
    EraseTwice(s);
  }

  /** A crash between append and apply: the operation has happened and only leases are lost, unless a line cannot be decoded. */
  lemma CrashLosesLeases(d: Disk, op: Operation, line: Line, after: Disk)
    requires Described(d) && Next(d, Perform(op, Crashed), after) && Appended(d, Perform(op, Crashed)) == Some(line)
    ensures after.live ==
            if AllReadable(d.lines) && line.Entry? then Some(Erase(After(d.live.value, op))) else None
  {
    hide Erase, Apply, LogOf, After, LineOf, Describes, Opened, Preserved;
    LogDescribes(d.lines, d.live.value, op, LogOf(d.live.value, op).value);
    OpenedDescribed(after.lines, After(d.live.value, op));
    OneMoreLine(d.lines, line);
  }

  /** A restart loses the leases and nothing else, unless a line cannot be decoded. */
  lemma RestartLosesLeases(d: Disk, after: Disk)
    requires Described(d) && d.live.Some? && Next(d, Reopen, after)
    ensures after.lines == d.lines && after.live == if AllReadable(d.lines) then Some(Erase(d.live.value)) else None
  {
    hide Erase, Describes, Opened;
    OpenedDescribed(d.lines, d.live.value);
  }

  lemma OneMoreLine(lines: seq<Line>, line: Line)
    ensures AllReadable(lines + [line]) <==> AllReadable(lines) && line.Entry?
  {
    assert (lines + [line])[|lines|] == line;
    assert forall i | 0 <= i < |lines| :: (lines + [line])[i] == lines[i];
  }

  lemma StepDescribed(d: Disk, step: Step, after: Disk)
    requires Described(d) && Next(d, step, after)
    ensures Described(after) && d.lines <= after.lines <= d.lines + (if Appended(d, step).Some? then [Appended(d, step).value] else [])
  {
    hide Erase, Apply, LogOf, After, LineOf, Describes, Opened, Preserved, Rebuild;
    match step
    case Reopen => ReopenDescribed(d);
    case Perform(op, fate) =>
      var s := d.live.value;
      if LogOf(s, op).None? {
        UnloggedLeavesNoTrace(s, op);
        DescribedStays(d.lines, s, After(s, op));
      } else if Appended(d, step).Some? {
        LogDescribes(d.lines, s, op, LogOf(s, op).value);
        OpenedDescribed(after.lines, After(s, op));
      }
  }

  lemma ReopenDescribed(d: Disk)
    requires Described(d)
    ensures Described(Disk(Opened(d.lines), d.lines))
  {
    hide Erase, Rebuild, Describes;
    if d.live.Some? {
      OpenedDescribed(d.lines, d.live.value);
    }
  }

  lemma AllDescribed(disks: seq<Disk>, steps: seq<Step>, n: nat)
    requires Run(disks, steps) && n <= |steps|
    ensures Described(disks[n])
  {
    hide Described, Next;
    if n == 0 {
      EmptyDescribed();
    } else {
      AllDescribed(disks, steps, n - 1);
      assert Next(disks[n - 1], steps[n - 1], disks[n - 1 + 1]);
      StepDescribed(disks[n - 1], steps[n - 1], disks[n]);
    }
  }

  lemma EmptyDescribed()
    ensures Described(Disk(Some(EMPTY), []))
  {
    assert Erase(EMPTY).events == EMPTY.events;
  }

  lemma LinesGrow(disks: seq<Disk>, steps: seq<Step>, m: nat, n: nat)
    requires Run(disks, steps) && m <= n <= |steps|
    ensures disks[m].lines <= disks[n].lines
  {
    hide Described, Next;
    if m < n {
      LinesGrow(disks, steps, m, n - 1);
      AllDescribed(disks, steps, n - 1);
      assert Next(disks[n - 1], steps[n - 1], disks[n - 1 + 1]);
      StepDescribed(disks[n - 1], steps[n - 1], disks[n]);
    }
  }

  /** Every record boundary of the file was the end of the file at some time. */
  lemma BoundaryReached(disks: seq<Disk>, steps: seq<Step>, n: nat, k: nat) returns (m: nat)
    requires Run(disks, steps) && n <= |steps| && k <= |disks[n].lines|
    ensures m <= n && disks[m].lines == disks[n].lines[..k]
  {
    hide Described, Next;
    if k == |disks[n].lines| {
      m := n;
      assert disks[n].lines[..k] == disks[n].lines;
    } else {
      assert n > 0;
      AllDescribed(disks, steps, n - 1);
      assert Next(disks[n - 1], steps[n - 1], disks[n - 1 + 1]);
      StepDescribed(disks[n - 1], steps[n - 1], disks[n]);
      m := BoundaryReached(disks, steps, n - 1, k);
      assert disks[n].lines[..k] == disks[n - 1].lines[..k];
    }
  }

  /**
   At every record boundary of every run: the file cut off there is the file of an earlier
   time, and replaying it gives the live state of that time with only its leases gone. It
   fails exactly when a line of it cannot be decoded.
   */
  lemma ReplayRebuilds(disks: seq<Disk>, steps: seq<Step>, n: nat, k: nat) returns (m: nat)
    requires Run(disks, steps) && n <= |steps| && k <= |disks[n].lines|
    ensures m <= n && disks[m].lines == disks[n].lines[..k]
    ensures if AllReadable(disks[m].lines)
            then disks[m].live.Some? && Rebuild(disks[n].lines[..k]) == Success(Erase(disks[m].live.value))
            else Rebuild(disks[n].lines[..k]) == Failure(CorruptLine)
  {
    hide Rebuild, Erase, Next;
    m := BoundaryReached(disks, steps, n, k);
    AllDescribed(disks, steps, m);
  }

  // ----- When replay succeeds

  /** The acceptance whose line a step appends. */
  function LoggedAcceptance(d: Disk, step: Step): Option<Acceptance> {
    if Appended(d, step).Some? && step.operation.Accepting? then Some(step.operation.acceptance) else None
  }

  lemma StepReadable(d: Disk, step: Step, after: Disk)
    requires Described(d) && Next(d, step, after)
    ensures AllReadable(after.lines) <==>
            AllReadable(d.lines) && (LoggedAcceptance(d, step).Some? ==> Readable(LoggedAcceptance(d, step).value))
  {
    hide Described, Apply, After, Opened, Preserved, Readable, Written;
    if Appended(d, step).Some? {
      OneMoreLine(d.lines, Appended(d, step).value);
    }
  }

  lemma LinesReadable(disks: seq<Disk>, steps: seq<Step>, n: nat)
    requires Run(disks, steps) && n <= |steps|
    ensures AllReadable(disks[n].lines) <==>
            forall i | 0 <= i < n && LoggedAcceptance(disks[i], steps[i]).Some? :: Readable(LoggedAcceptance(disks[i], steps[i]).value)
  {
    hide Described, Next, LoggedAcceptance, Readable;
    if n > 0 {
      LinesReadable(disks, steps, n - 1);
      AllDescribed(disks, steps, n - 1);
      assert Next(disks[n - 1], steps[n - 1], disks[n - 1 + 1]);
      StepReadable(disks[n - 1], steps[n - 1], disks[n]);
    }
  }

  /**
   Replay succeeds at every record boundary of a run exactly when the raw messages of every
   logged acceptance nest at most 9996 deep, in a run whose events carry their transactions.
   */
  lemma ReplaySucceedsExactly(disks: seq<Disk>, steps: seq<Step>, n: nat)
    requires Run(disks, steps) && n <= |steps|
    requires forall i | 0 <= i < n && LoggedAcceptance(disks[i], steps[i]).Some? ::
               var a := LoggedAcceptance(disks[i], steps[i]).value; a.event.payload == a.transaction
    ensures (forall k | 0 <= k <= |disks[n].lines| :: Rebuild(disks[n].lines[..k]).Success?) <==>
            (forall i | 0 <= i < n && LoggedAcceptance(disks[i], steps[i]).Some? ::
               Shallow(LoggedAcceptance(disks[i], steps[i]).value.transaction))
  {
    hide Rebuild, Next, LoggedAcceptance, Readable, Shallow, Described;
    LinesReadable(disks, steps, n);
    BoundariesReadable(disks, steps, n);
    forall i | 0 <= i < n && LoggedAcceptance(disks[i], steps[i]).Some?
      ensures Readable(LoggedAcceptance(disks[i], steps[i]).value) <==> Shallow(LoggedAcceptance(disks[i], steps[i]).value.transaction)
    {
      BuiltIsReadable(LoggedAcceptance(disks[i], steps[i]).value);
    }
  }

  lemma BoundariesReadable(disks: seq<Disk>, steps: seq<Step>, n: nat)
    requires Run(disks, steps) && n <= |steps|
    ensures (forall k | 0 <= k <= |disks[n].lines| :: Rebuild(disks[n].lines[..k]).Success?) <==> AllReadable(disks[n].lines)
  {
    hide Rebuild, Next, Erase;
    var lines := disks[n].lines;
    assert lines[..|lines|] == lines;
    AllDescribed(disks, steps, n);
    if AllReadable(lines) {
      forall k | 0 <= k <= |lines| ensures Rebuild(lines[..k]).Success? {
        var m := ReplayRebuilds(disks, steps, n, k);
        assert forall i | 0 <= i < k :: lines[..k][i] == lines[i];
      }
    }
  }

  /** A store that cannot be opened is lost: no later step of the run brings it back. */
  lemma LostForever(disks: seq<Disk>, steps: seq<Step>, m: nat, n: nat)
    requires Run(disks, steps) && m <= n <= |steps| && disks[m].live.None?
    ensures disks[n].live.None? && disks[n].lines == disks[m].lines
  {
    hide Rebuild, After, LogOf, Appended, Proper;
    if m < n {
      LostForever(disks, steps, m, n - 1);
      AllDescribed(disks, steps, n - 1);
      assert Next(disks[n - 1], steps[n - 1], disks[n - 1 + 1]);
    }
  }

  // ----- What survives restarts

  /** Only pending records are held. */
  ghost predicate DoneIsFree(s: State) {
    forall id | id in s.events && !Pending(s.events[id]) :: Forget(s.events[id]) == s.events[id]
  }

  /** Identities stay, and records that are done stay as they are. */
  ghost predicate Survives(s: State, after: State) {
    && (forall key | key in s.transactions :: key in after.transactions && after.transactions[key] == s.transactions[key])
    && (forall id | id in s.events :: id in after.events && after.events[id].event == s.events[id].event
          && (!Pending(s.events[id]) ==> after.events[id] == s.events[id]))
  }

  lemma EraseSurvives(s: State)
    requires DoneIsFree(s)
    ensures Survives(s, Erase(s)) && DoneIsFree(Erase(s))
  {
  }

  lemma AfterSurvives(s: State, op: Operation)
    requires Proper(s, op) && DoneIsFree(s)
    ensures Survives(s, After(s, op)) && DoneIsFree(After(s, op))
  {
    hide Survives, DoneIsFree, Preserved, Stored, Key;
    match op
    case Accepting(a) =>
      StoredKeepsIdentity(a);
      AcceptSurvives(s, Stored(a));
    case Claiming(now, lease, limit, tokens) =>
      SelectedFit(s.events, now, limit);
      ClaimSurvives(s, now, lease, limit, tokens);
    case Publishing(id, token, at) => MarkSurvives(s, id, token);
    case Failing(f) => FailureSurvives(s, f);
  }

  lemma AcceptSurvives(s: State, a: Acceptance)
    requires DoneIsFree(s) && a.event.id !in s.events
    ensures Survives(s, Accept(s, a).0) && DoneIsFree(Accept(s, a).0)
  {
    hide Key;
  }

  lemma MarkSurvives(s: State, id: string, token: string)
    requires DoneIsFree(s)
    ensures Survives(s, MarkPublished(s, id, token).0) && DoneIsFree(MarkPublished(s, id, token).0)
  {
  }

  lemma FailureSurvives(s: State, f: PublishFailure)
    requires DoneIsFree(s)
    ensures Survives(s, RecordFailure(s, f).0) && DoneIsFree(RecordFailure(s, f).0)
  {
  }

  lemma ClaimSurvives(s: State, now: Time, lease: int, limit: nat, tokens: seq<string>)
    requires DoneIsFree(s) && |Selected(s.events, now, limit)| <= |tokens|
    ensures var after := Take(s, Selected(s.events, now, limit), now + lease, tokens).0;
            Survives(s, after) && DoneIsFree(after)
  {
    hide Selected, Leased, Handed;
    ClaimedSurvive(s.events, Selected(s.events, now, limit), now, limit, now + lease, tokens);
  }

  lemma {:induction false} ClaimedSurvive(
      events: map<string, Record>, ids: seq<string>, now: Time, limit: nat, until: Time, tokens: seq<string>)
    requires ids == Selected(events, now, limit) && |ids| <= |tokens|
    ensures var after := Leased(events, ids, until, tokens);
            && after.Keys == events.Keys
            && forall id | id in events ::
                 after[id] == events[id] || (Pending(events[id]) && Pending(after[id]) && after[id].event == events[id].event)
  {
    hide Leased, Ordering.Less;
    SelectedAreDue(events, now, limit);
    LeasedRecords(events, ids, until, tokens);
    forall id | id in events
      ensures var after := Leased(events, ids, until, tokens);
              after[id] == events[id] || (Pending(events[id]) && Pending(after[id]) && after[id].event == events[id].event)
    {
      if id in ids {
        var j :| 0 <= j < |ids| && ids[j] == id;
      }
    }
  }

  lemma SelectedAreDue(events: map<string, Record>, now: Time, limit: nat)
    ensures var ids := Selected(events, now, limit);
            Ordering.Distinct(ids) && forall j | 0 <= j < |ids| :: ids[j] in events && Due(events[ids[j]], now)
  {
    DueIdsMembers(events, now);
    var ids, due := Selected(events, now, limit), DueIds(events, now);
    Ordering.AscendingIsDistinct(ids);
    forall j | 0 <= j < |ids| ensures ids[j] in events && Due(events[ids[j]], now) {
      assert due[j] in due;
    }
  }

  lemma SurvivesTransitive(a: State, b: State, c: State)
    requires Survives(a, b) && Survives(b, c)
    ensures Survives(a, c)
  {
  }

  lemma StepSurvives(d: Disk, step: Step, after: Disk)
    requires Described(d) && Next(d, step, after) && after.live.Some?
    requires d.live.Some? ==> DoneIsFree(d.live.value)
    ensures d.live.Some? && DoneIsFree(after.live.value) && Survives(d.live.value, after.live.value)
  {
    hide Erase, Apply, LogOf, After, LineOf, Describes, Preserved, Rebuild, DoneIsFree, Survives;
    if d.live.Some? {
      var s := d.live.value;
      Same(s);
      EraseSurvives(s);
      match step
      case Reopen => OpenedDescribed(d.lines, s);
      case Perform(op, fate) =>
        AfterSurvives(s, op);
        EraseSurvives(After(s, op));
        SurvivesTransitive(s, After(s, op), Erase(After(s, op)));
        if Appended(d, step).Some? {
          LogDescribes(d.lines, s, op, LogOf(s, op).value);
          OpenedDescribed(after.lines, After(s, op));
        }
    }
  }

  lemma Same(s: State)
    ensures Survives(s, s)
  {
  }

  /**
   Over any run with any restarts, as long as a store is open: accepted identities stay
   what they were, so replays return the original IDs, and published or terminal records
   never change again, so no claim ever takes them.
   */
  lemma NothingDoneComesBack(disks: seq<Disk>, steps: seq<Step>, m: nat, n: nat)
    requires Run(disks, steps) && m <= n <= |steps| && disks[n].live.Some?
    ensures disks[m].live.Some?
    ensures var s, after := disks[m].live.value, disks[n].live.value;
            && (forall a: Acceptance | Key(a.transaction) in s.transactions ::
                  Accept(after, a) == (after, Judge(s.transactions[Key(a.transaction)], a.fingerprint)))
            && (forall id, now | id in s.events && !Pending(s.events[id]) ::
                  id in after.events && after.events[id] == s.events[id] && !Due(after.events[id], now))
  {
    hide Next, Key;
    SurvivesRun(disks, steps, m, n);
  }

  lemma SurvivesRun(disks: seq<Disk>, steps: seq<Step>, m: nat, n: nat)
    requires Run(disks, steps) && m <= n <= |steps| && disks[n].live.Some?
    ensures disks[m].live.Some? && Survives(disks[m].live.value, disks[n].live.value) && DoneIsFree(disks[n].live.value)
    decreases n
  {
    hide Next, Survives, Described;
    if n > 0 {
      var k := if m < n then m else n - 1;
      AllDescribed(disks, steps, n - 1);
      assert Next(disks[n - 1], steps[n - 1], disks[n - 1 + 1]);
      OpenBefore(disks[n - 1], steps[n - 1], disks[n]);
      SurvivesRun(disks, steps, k, n - 1);
      StepSurvives(disks[n - 1], steps[n - 1], disks[n]);
      SurvivesTransitive(disks[k].live.value, disks[n - 1].live.value, disks[n].live.value);
    }
    Same(disks[n].live.value);
  }

  /** An open store was open before. */
  lemma OpenBefore(d: Disk, step: Step, after: Disk)
    requires Described(d) && Next(d, step, after) && after.live.Some?
    ensures d.live.Some?
  {
    hide Rebuild, After, LogOf, Appended, Proper, Describes;
  }

  // ----- The same operations on a memory store

  datatype Reply =
    | Outcome(outcome: Result<StoreOutcome, StoreError>)
    | Events(events: Result<seq<PendingEvent>, StoreError>)
    | Done(error: Option<StoreError>)

  /** Operations that need nothing but a positive limit, enough tokens and records that can be marshalled. */
  ghost predicate Comparable(op: Operation, size: nat) {
    match op
    case Accepting(a) => a.event.payload == a.transaction && AcceptanceMarshals(a)
    case Claiming(_, _, limit, tokens) => limit >= 1 && size <= |tokens|
    case Publishing(id, _, at) => InYears(at)
    case Failing(f) => InYears(f.retryAt)
  }

  ghost function Replied(s: State, op: Operation): (State, Reply)
    requires Comparable(op, |s.events|)
  {
    match op
    case Accepting(a) => var (after, answer) := Accept(s, a); (after, Outcome(Success(answer)))
    case Claiming(now, lease, limit, tokens) =>
      SelectedFit(s.events, now, limit);
      var (after, events) := Take(s, Selected(s.events, now, limit), now + lease, tokens);
      (after, Events(Success(events)))
    case Publishing(id, token, _) => var (after, answer) := MarkPublished(s, id, token); (after, Done(answer))
    case Failing(f) => var (after, answer) := RecordFailure(s, f); (after, Done(answer))
  }

  lemma ReplyGrows(s: State, op: Operation)
    requires Comparable(op, |s.events|)
    ensures |Replied(s, op).0.events| <= |s.events| + 1
  {
    hide Selected, Leased, Handed, Key;
    match op
    case Accepting(a) =>
      assert s.events[a.event.id := NewRecord(a.event)].Keys == s.events.Keys + {a.event.id};
    case Claiming(now, lease, limit, tokens) =>
      SelectedFit(s.events, now, limit);
      LeasedErased(s.events, Selected(s.events, now, limit), now + lease, tokens);
      var after := Leased(s.events, Selected(s.events, now, limit), now + lease, tokens);
      assert |after| == |after.Keys| && |s.events| == |s.events.Keys|;
    case Publishing(id, token, _) =>
      if id in s.events {
        var after := WithPublished(s, id).events;
        assert after.Keys == s.events.Keys && |after| == |after.Keys|;
      }
    case Failing(f) =>
      if f.eventId in s.events {
        var after := WithFailure(s, f).events;
        assert after.Keys == s.events.Keys && |after| == |after.Keys|;
      }
  }

  method PerformMemory(store: Memory.Store, op: Operation) returns (reply: Reply)
    requires store.Valid() && Comparable(op, |store.Model().events|)
    modifies store.table, store.table.repr
    ensures store.Valid() && fresh(store.table.repr - old(store.table.repr))
    ensures (store.Model(), reply) == Replied(old(store.Model()), op)
  {
    hide Selected, Take, Key, Memory.Store.Valid, Memory.Store.Model;
    match op {
      case Accepting(a) =>
        var outcome := store.Accept(a, false);
        reply := Outcome(outcome);
      case Claiming(now, lease, limit, tokens) =>
        var events := store.ClaimPending(now, lease, limit, tokens, false);
        reply := Events(events);
      case Publishing(id, token, at) =>
        var error := store.MarkPublished(id, token, false);
        reply := Done(error);
      case Failing(f) =>
        var error := store.RecordFailure(f, false);
        reply := Done(error);
    }
  }

  method PerformNdjson(store: Store, op: Operation) returns (reply: Reply)
    requires store.Valid() && Comparable(op, |store.Model().events|)
    modifies store.table, store.table.repr, store.file
    ensures store.Valid() && fresh(store.table.repr - old(store.table.repr))
    ensures (store.Model(), reply) == Replied(old(store.Model()), op)
  {
    hide Selected, Take, Key, Rebuild, Erase, Written, Stored, Store.Valid, Store.Model;
    match op {
      case Accepting(a) =>
        BuiltIsPreserved(a);
        var outcome := store.Accept(a, false, false);
        reply := Outcome(outcome);
      case Claiming(now, lease, limit, tokens) =>
        var events := store.ClaimPending(now, lease, limit, tokens, false);
        reply := Events(events);
      case Publishing(id, token, at) =>
        var error := store.MarkPublished(id, token, at, false, false);
        reply := Done(error);
      case Failing(f) =>
        var error := store.RecordFailure(f, false, false);
        reply := Done(error);
    }
  }

  method PerformBoth(memory: Memory.Store, ndjson: Store, op: Operation) returns (left: Reply, right: Reply)
    requires memory.Valid() && ndjson.Valid() && memory.Model() == ndjson.Model()
    requires memory.table != ndjson.table && memory.table.repr !! ndjson.table.repr
    requires Comparable(op, |memory.Model().events|)
    modifies memory.table, memory.table.repr, ndjson.table, ndjson.table.repr, ndjson.file
    ensures memory.Valid() && ndjson.Valid() && memory.Model() == ndjson.Model()
    ensures memory.table.repr !! ndjson.table.repr
    ensures fresh(memory.table.repr - old(memory.table.repr)) && fresh(ndjson.table.repr - old(ndjson.table.repr))
    ensures left == right && |memory.Model().events| <= |old(memory.Model()).events| + 1
  {
    hide Comparable, Replied, Rebuild, Memory.Store.Valid, Store.Valid, Memory.Store.Model, Store.Model;
    ReplyGrows(memory.Model(), op);
    left := PerformMemory(memory, op);
    right := PerformNdjson(ndjson, op);
  }

  /**
   Both stores from one state, over any operations with a positive limit, the same tokens
   and successful appends: every reply is the same and so is the state at the end.
   */
  method RunBoth(memory: Memory.Store, ndjson: Store, ops: seq<Operation>) returns (left: seq<Reply>, right: seq<Reply>)
    requires memory.Valid() && ndjson.Valid() && memory.Model() == ndjson.Model()
    requires memory.table != ndjson.table && memory.table.repr !! ndjson.table.repr
    requires forall i | 0 <= i < |ops| :: Comparable(ops[i], |memory.Model().events| + i)
    modifies memory.table, memory.table.repr, ndjson.table, ndjson.table.repr, ndjson.file
    ensures memory.Valid() && ndjson.Valid() && memory.Model() == ndjson.Model()
    ensures left == right && |left| == |ops|
  {
    hide Comparable, Rebuild, Memory.Store.Valid, Store.Valid, Memory.Store.Model, Store.Model;
    left, right := [], [];
    var i := 0;
    while i < |ops|
      invariant |left| == i <= |ops| && left == right
      invariant memory.Valid() && ndjson.Valid() && memory.Model() == ndjson.Model()
      invariant memory.table.repr !! ndjson.table.repr
      invariant fresh(memory.table.repr - old(memory.table.repr)) && fresh(ndjson.table.repr - old(ndjson.table.repr))
      invariant |memory.Model().events| <= |old(memory.Model()).events| + i
    {
      FewerTokens(ops[i], |memory.Model().events|, |old(memory.Model()).events| + i);
      var m, n := PerformBoth(memory, ndjson, ops[i]);
      left, right := left + [m], right + [n];
      i := i + 1;
    }
  }

  lemma FewerTokens(op: Operation, size: nat, more: nat)
    requires Comparable(op, more) && size <= more
    ensures Comparable(op, size)
  {
  }

  /**
   For a limit of zero the stores differ: the memory store claims nothing and the NDJSON
   store everything that is due. They agree exactly when nothing is due.
   */
  lemma ZeroLimit(s: State, now: Time, lease: int, tokens: seq<string>)
    requires |Selected(s.events, now, 0)| <= |tokens|
    ensures Take(s, Selected(s.events, now, 0), now + lease, tokens) == Claim(s, now, lease, 0, tokens) <==>
            forall id | id in s.events :: !Due(s.events[id], now)
  {
    hide Leased;
    DueIdsMembers(s.events, now);
    ClaimNothing(s, now, lease, 0, tokens);
    var due := DueIds(s.events, now);
    if due != [] {
      assert due[0] in due;
      assert |Take(s, due, now + lease, tokens).1| > 0;
    } else {
      ClaimNothing(s, now, lease, 0, tokens);
    }
  }
}
