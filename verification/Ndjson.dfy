/**
 The NDJSON store: the memory store's maps behind an append-only log. An operation first
 appends its record and then applies it; opening the store applies the whole log. Claims
 are not logged.
 */
module Ndjson {
  import opened Wrappers
  import opened Ordering
  import opened Timestamps
  import opened Domain
  import opened CanonicalJson
  import opened Compact
  import opened Nesting
  import opened Marshalling
  import opened Outbox
  import opened Records

  datatype LogRecord = LogRecord(
    kind: string,
    acceptance: Option<Acceptance>,
    failure: Option<PublishFailure>,
    eventId: string,
    recordedAt: Time,
    locationRaw: string,
    metadataRaw: string)

  /** One line of the file: a record that can be decoded, or a line that cannot. */
  datatype Line = Entry(record: LogRecord) | Corrupt

  datatype ApplyError = NoAcceptance | NoFailure | UnknownEvent | UnknownKind

  datatype OpenError = CorruptLine | BadRecord(error: ApplyError)

  function AcceptedRecord(a: Acceptance): LogRecord {
    LogRecord("accepted", Some(a), None, "", ZERO, a.transaction.locationRaw, a.transaction.metadataRaw)
  }

  function PublishedLog(eventId: string, at: Time): LogRecord {
    LogRecord("published", None, None, eventId, at, "", "")
  }

  function FailedLog(failure: PublishFailure): LogRecord {
    LogRecord("failed", None, Some(failure), "", ZERO, "", "")
  }

  // ----- Writing a record and reading it back

  /** Times are marshalled for the years 0000 to 9999 only. */
  predicate TimesWritable(r: LogRecord) {
    && FourDigitYear(r.recordedAt)
    && (r.failure.Some? ==> FourDigitYear(r.failure.value.retryAt))
    && (r.acceptance.Some? ==>
          && FourDigitYear(r.acceptance.value.transaction.time) && FourDigitYear(r.acceptance.value.event.payload.time)
          && FourDigitYear(r.acceptance.value.event.occurredAt))
  }

  /** The record as its marshalled text tells it; raw messages that are not JSON and other years cannot be marshalled. */
  function Written(r: LogRecord): Option<LogRecord> {
    if !TimesWritable(r) then None
    else
      match r.acceptance
      case None => Some(r)
      case Some(a) =>
        var transaction, payload := RereadTransaction(a.transaction), RereadTransaction(a.event.payload);
        if transaction.None? || payload.None? then None
        else Some(r.(acceptance := Some(a.(transaction := transaction.value, event := a.event.(payload := payload.value)))))
  }

  /**
   Whether the line of an acceptance can be decoded: the transaction's messages stand in
   three objects, the record, the acceptance and the transaction, and the payload's in four.
   */
  predicate Readable(a: Acceptance) {
    && Decodable(a.transaction.locationRaw, 3) && Decodable(a.transaction.metadataRaw, 3)
    && Decodable(a.event.payload.locationRaw, 4) && Decodable(a.event.payload.metadataRaw, 4)
  }

  /** The line that an append writes. */
  function LineOf(r: LogRecord): Option<Line> {
    var written := Written(r);
    if written.None? then None
    else if r.acceptance.Some? && !Readable(r.acceptance.value) then Some(Corrupt)
    else Some(Entry(written.value))
  }

  // ----- Applying records

  function WithRaw(t: Transaction, locationRaw: string, metadataRaw: string): Transaction {
    t.(locationRaw := if locationRaw == "" then t.locationRaw else locationRaw,
       metadataRaw := if metadataRaw == "" then t.metadataRaw else metadataRaw)
  }

  /** The acceptance of a record with its raw bytes put back. */
  function Restored(a: Acceptance, locationRaw: string, metadataRaw: string): Acceptance {
    a.(transaction := WithRaw(a.transaction, locationRaw, metadataRaw),
       event := a.event.(payload := WithRaw(a.event.payload, locationRaw, metadataRaw)))
  }

  function Apply(s: State, r: LogRecord): Result<State, ApplyError> {
    if r.kind == "accepted" then
      if r.acceptance.None? then Failure(NoAcceptance)
      else Success(WithAcceptance(s, Restored(r.acceptance.value, r.locationRaw, r.metadataRaw)))
    else if r.kind == "failed" then
      if r.failure.None? then Failure(NoFailure)
      else if r.failure.value.eventId !in s.events then Failure(UnknownEvent)
      else Success(WithFailure(s, r.failure.value))
    else if r.kind == "published" then
      if r.eventId !in s.events then Failure(UnknownEvent) else Success(WithPublished(s, r.eventId))
    else Failure(UnknownKind)
  }

  function ApplyLine(s: State, line: Line): Result<State, OpenError> {
    match line
    case Corrupt => Failure(CorruptLine)
    case Entry(r) =>
      var after := Apply(s, r);
      if after.Failure? then Failure(BadRecord(after.error)) else Success(after.value)
  }

  /** The state that a log describes. */
  function Rebuild(lines: seq<Line>): Result<State, OpenError> {
    if lines == [] then Success(EMPTY)
    else
      var last := |lines| - 1;
      var before := Rebuild(lines[..last]);
      if before.Failure? then before else ApplyLine(before.value, lines[last])
  }

  predicate AllReadable(lines: seq<Line>) {
    forall i | 0 <= i < |lines| :: lines[i].Entry?
  }

  /** The log rebuilds the state without its leases, unless it has a line that cannot be decoded. */
  ghost predicate Describes(lines: seq<Line>, s: State) {
    Rebuild(lines) == if AllReadable(lines) then Success(Erase(s)) else Failure(CorruptLine)
  }

  // ----- The commuting square

  lemma RawComesBack(t: Transaction)
    requires RereadTransaction(t).Some?
    ensures WithRaw(RereadTransaction(t).value, t.locationRaw, t.metadataRaw) == t
    ensures WithRaw(t, t.locationRaw, t.metadataRaw) == t
  {
  }

  /** The acceptance as the store keeps it: the transaction's raw messages, when there are any, replace the payload's. */
  function Stored(a: Acceptance): Acceptance {
    Restored(a, a.transaction.locationRaw, a.transaction.metadataRaw)
  }

  /** Whether the file gives the payload of an acceptance back as the live store keeps it. */
  predicate Preserved(a: Acceptance) {
    && (a.transaction.locationRaw == "" ==> Reread(a.event.payload.locationRaw) == Some(a.event.payload.locationRaw))
    && (a.transaction.metadataRaw == "" ==> Reread(a.event.payload.metadataRaw) == Some(a.event.payload.metadataRaw))
  }

  /** An event that carries its transaction is kept as it is and preserved by the file. */
  lemma BuiltIsPreserved(a: Acceptance)
    requires a.event.payload == a.transaction
    ensures Stored(a) == a && Preserved(a)
  {
    hide Compacted;
  }

  /** How deep the raw messages of an acceptance may nest for its line to be decoded. */
  lemma ReadableExactly(a: Acceptance)
    ensures Readable(a) <==>
            && NestsWithin(a.transaction.locationRaw, MAX_NESTING - 3) && NestsWithin(a.transaction.metadataRaw, MAX_NESTING - 3)
            && NestsWithin(a.event.payload.locationRaw, MAX_NESTING - 4) && NestsWithin(a.event.payload.metadataRaw, MAX_NESTING - 4)
  {
    hide Decodable, NestsWithin;
    DecodableExactly(a.transaction.locationRaw, 3);
    DecodableExactly(a.transaction.metadataRaw, 3);
    DecodableExactly(a.event.payload.locationRaw, 4);
    DecodableExactly(a.event.payload.metadataRaw, 4);
  }

  lemma RestoredPayloads(a: Acceptance)
    requires Written(AcceptedRecord(a)).Some?
    ensures var live := Stored(a);
            var replayed := Restored(Written(AcceptedRecord(a)).value.acceptance.value,
              a.transaction.locationRaw, a.transaction.metadataRaw);
            && replayed == live.(event := live.event.(payload := replayed.event.payload))
            && (replayed.event.payload == live.event.payload <==> Preserved(a))
  {
    hide Compacted, FourDigitYear;
    RawComesBack(a.transaction);
  }

  /** Two acceptances of one transaction leave the same state, leases aside, exactly when their events are equal. */
  lemma WithAcceptanceErased(s: State, a: Acceptance, b: Acceptance)
    requires b == a.(event := b.event) && b.event.id == a.event.id
    ensures WithAcceptance(Erase(s), b) == Erase(WithAcceptance(s, a)) <==> b.event == a.event
  {
    hide Key;
    var m, n := WithAcceptance(Erase(s), b), Erase(WithAcceptance(s, a));
    assert m.transactions == n.transactions;
    assert m.events[a.event.id].event == b.event && n.events[a.event.id].event == a.event;
    if a.event == b.event {
      assert m.events == n.events;
    }
  }

  /**
   For any acceptance that can be marshalled, replaying its line gives the live state
   without its leases exactly when the line can be decoded and each raw message of the
   payload is either replaced by the transaction's or not changed by marshalling.
   */
  lemma AcceptedCommutesExactly(s: State, a: Acceptance)
    requires LineOf(AcceptedRecord(a)).Some?
    ensures Apply(s, AcceptedRecord(a)) == Success(WithAcceptance(s, Stored(a)))
    ensures ApplyLine(Erase(s), LineOf(AcceptedRecord(a)).value) == Success(Erase(WithAcceptance(s, Stored(a)))) <==>
            Readable(a) && Preserved(a)
  {
    hide Compacted, Key, Readable, Preserved, Erase, TimesWritable;
    if Readable(a) {
      var b := Written(AcceptedRecord(a)).value.acceptance.value;
      RestoredPayloads(a);
      WithAcceptanceErased(s, Stored(a), Restored(b, a.transaction.locationRaw, a.transaction.metadataRaw));
    }
  }

  /** The raw messages of a transaction nest at most 9996 deep: the decoder's limit less the four objects around the payload's. */
  predicate Shallow(t: Transaction) {
    NestsWithin(t.locationRaw, MAX_NESTING - 4) && NestsWithin(t.metadataRaw, MAX_NESTING - 4)
  }

  /**
   For an event that carries its transaction the line of its acceptance, applied without
   leases, gives the accepted state without leases exactly when the raw messages nest at
   most 9996 deep; else the line cannot be decoded.
   */
  lemma AcceptedCommutes(s: State, a: Acceptance)
    requires a.event.payload == a.transaction && LineOf(AcceptedRecord(a)).Some?
    ensures Apply(s, AcceptedRecord(a)) == Success(WithAcceptance(s, a))
    ensures Readable(a) <==> Shallow(a.transaction)
    ensures ApplyLine(Erase(s), LineOf(AcceptedRecord(a)).value) ==
            if Shallow(a.transaction) then Success(Erase(WithAcceptance(s, a))) else Failure(CorruptLine)
  {
    hide Decodable, NestsWithin, Erase, Apply, WithAcceptance, Stored, Preserved;
    BuiltIsPreserved(a);
    AcceptedCommutesExactly(s, a);
    BuiltIsReadable(a);
  }

  lemma BuiltIsReadable(a: Acceptance)
    requires a.event.payload == a.transaction
    ensures Readable(a) <==> Shallow(a.transaction)
  {
    hide Decodable, NestsWithin;
    ReadableExactly(a);
    if Shallow(a.transaction) {
      NestsDeeper(a.transaction.locationRaw, MAX_NESTING - 4, MAX_NESTING - 3);
      NestsDeeper(a.transaction.metadataRaw, MAX_NESTING - 4, MAX_NESTING - 3);
    }
  }

  lemma PublishedCommutes(s: State, id: string, at: Time)
    requires id in s.events && LineOf(PublishedLog(id, at)).Some?
    ensures Apply(s, PublishedLog(id, at)) == Success(WithPublished(s, id))
    ensures ApplyLine(Erase(s), LineOf(PublishedLog(id, at)).value) == Success(Erase(WithPublished(s, id)))
  {
    hide FourDigitYear;
    assert WithPublished(Erase(s), id).events == Erase(WithPublished(s, id)).events;
  }

  lemma FailedCommutes(s: State, f: PublishFailure)
    requires f.eventId in s.events && LineOf(FailedLog(f)).Some?
    ensures Apply(s, FailedLog(f)) == Success(WithFailure(s, f))
    ensures ApplyLine(Erase(s), LineOf(FailedLog(f)).value) == Success(Erase(WithFailure(s, f)))
  {
    hide FourDigitYear;
    assert WithFailure(Erase(s), f).events == Erase(WithFailure(s, f)).events;
  }

  /** Claims leave no trace in the log, and none is needed. */
  lemma ClaimsCommute(s: State, ids: seq<string>, until: Time, tokens: seq<string>)
    requires |ids| <= |tokens| && Known(ids, s.events)
    ensures Erase(Take(s, ids, until, tokens).0) == Erase(s)
    decreases |ids|
  {
    LeasedErased(s.events, ids, until, tokens);
    var after := Take(s, ids, until, tokens).0;
    assert Erase(after).events == Erase(s).events;
  }

  lemma {:induction false} LeasedErased(events: map<string, Record>, ids: seq<string>, until: Time, tokens: seq<string>)
    requires |ids| <= |tokens| && Known(ids, events)
    ensures var after := Leased(events, ids, until, tokens);
            after.Keys == events.Keys && forall id | id in events :: Forget(after[id]) == Forget(events[id])
  {
    if ids != [] {
      LeasedErased(events, ids[..|ids| - 1], until, tokens);
    }
  }

  // ----- The store

  class File {
    var lines: seq<Line>

    constructor ()
      ensures lines == []
    {
      lines := [];
    }
  }

  class Store {
    const table: Table
    const file: File

    ghost predicate Valid()
      reads table, table.repr
    {
      table.Valid()
    }

    /** Opening the file again would rebuild the live state without its leases, or fail at a line that cannot be decoded. */
    ghost predicate Described()
      reads table, file
    {
      Describes(file.lines, table.Model())
    }

    ghost function Model(): State
      reads table
    {
      table.Model()
    }

    /** A store over an empty table; Open applies the log to it. */
    constructor (file: File)
      ensures this.file == file && table.Valid() && table.Model() == EMPTY
      ensures fresh(table) && table.repr == {}
    {
      this.file := file;
      table := new Table();
    }

    /**
     Opens a store on a file: it fails exactly when the log cannot be replayed, and else
     starts from what the log describes.
     */
    static method Open(file: File) returns (store: Result<Store, OpenError>)
      ensures Rebuild(file.lines).Failure? ==> store == Failure(Rebuild(file.lines).error)
      ensures Rebuild(file.lines).Success? ==>
        store.Success? && store.value.file == file && store.value.Valid() && fresh(store.value)
        && store.value.Described() && store.value.Model() == Rebuild(file.lines).value
    {
      var rebuilt := new Store(file);
      var i := 0;
      while i < |file.lines|
        invariant i <= |file.lines| && rebuilt.table.Valid() && fresh(rebuilt.table) && fresh(rebuilt.table.repr)
        invariant Rebuild(file.lines[..i]) == Success(rebuilt.Model())
      {
        ReplayNext(file.lines, i);
        var line := file.lines[i];
        if line.Corrupt? {
          return Failure(CorruptLine);
        }
        var error := rebuilt.ApplyRecord(line.record);
        if error.Some? {
          return Failure(BadRecord(error.value));
        }
        i := i + 1;
      }
      assert file.lines[..i] == file.lines;
      RebuiltIsDescribed(file.lines);
      store := Success(rebuilt);
    }

    method ApplyRecord(record: LogRecord) returns (error: Option<ApplyError>)
      requires table.Valid()
      modifies table, table.repr
      ensures table.Valid() && fresh(table.repr - old(table.repr))
      ensures match Apply(old(Model()), record)
              case Success(after) => error == None && Model() == after
              case Failure(e) => error == Some(e) && Model() == old(Model())
    {
      if record.kind == "accepted" {
        if record.acceptance.None? {
          return Some(NoAcceptance);
        }
        table.Put(Restored(record.acceptance.value, record.locationRaw, record.metadataRaw));
      } else if record.kind == "failed" {
        if record.failure.None? {
          return Some(NoFailure);
        }
        if record.failure.value.eventId !in table.events {
          return Some(UnknownEvent);
        }
        table.Fail(record.failure.value);
      } else if record.kind == "published" {
        if record.eventId !in table.events {
          return Some(UnknownEvent);
        }
        table.Publish(record.eventId);
      } else {
        return Some(UnknownKind);
      }
      error := None;
    }

    /** Appends one line, whether it can be decoded again or not; a failed append wrote nothing. */
    method Append(record: LogRecord, fails: bool) returns (ok: bool)
      modifies file
      ensures ok <==> !fails && RecordMarshals(record)
      ensures ok ==> LineOf(record).Some? && file.lines == old(file.lines) + [LineOf(record).value]
      ensures !ok ==> file.lines == old(file.lines)
    {
      hide LineOf, RecordMarshals;
      LineExactly(record);
      var line := LineOf(record);
      if fails || line.None? {
        return false;
      }
      file.lines := file.lines + [line.value];
      ok := true;
    }

    /** The log goes on describing the live state if the file preserves the payload, as it does for a payload that is the transaction. */
    method Accept(acceptance: Acceptance, cancelled: bool, fails: bool) returns (outcome: Result<StoreOutcome, StoreError>)
      requires Valid()
      modifies table, table.repr, file
      ensures Valid() && fresh(table.repr - old(table.repr))
      ensures old(Described()) && Preserved(acceptance) ==> Described()
      ensures cancelled ==> outcome == Failure(Cancelled) && Model() == old(Model())
      ensures !cancelled ==>
        var (after, answer) := Outbox.Accept(old(Model()), Stored(acceptance));
        if answer.Accepted? && (fails || !AcceptanceMarshals(acceptance)) then
          outcome == Failure(AppendFailed) && Model() == old(Model())
        else outcome == Success(answer) && Model() == after
    {
      hide Rebuild, Erase, Key, LineOf, Stored, WithAcceptance, Preserved, TransactionMarshals;
      StoredKeepsIdentity(acceptance);
      if cancelled {
        return Failure(Cancelled);
      }
      var key := Key(acceptance.transaction);
      if key in table.transactions {
        var existing := table.transactions[key];
        if existing.fingerprint == acceptance.fingerprint {
          return Success(Replay(existing.transactionId, existing.eventId));
        }
        return Success(Conflict);
      }
      var record := AcceptedRecord(acceptance);
      var ok := Append(record, fails);
      if !ok {
        return Failure(AppendFailed);
      }
      AcceptedDescribed(old(file.lines), Model(), acceptance);
      var error := ApplyRecord(record);
      outcome := Success(Accepted(acceptance.transaction.id, acceptance.event.id));
    }

    method ClaimPending(now: Time, lease: int, limit: int, tokens: seq<string>, cancelled: bool)
      returns (result: Result<seq<PendingEvent>, StoreError>)
      requires Valid() && |Model().events| <= |tokens|
      modifies table`records, table.repr
      ensures Valid() && (old(Described()) ==> Described())
      ensures cancelled ==> result == Failure(Cancelled) && Model() == old(Model())
      ensures !cancelled && limit < 0 ==> result == Failure(NegativeCapacity) && Model() == old(Model())
      ensures |Selected(old(Model()).events, now, if limit < 0 then 0 else limit)| <= |tokens|
      ensures !cancelled && limit >= 0 ==>
        var (after, handed) := Take(old(Model()), Selected(old(Model()).events, now, limit), now + lease, tokens);
        result == Success(handed) && Model() == after
    {
      hide Selected, Rebuild, Take, Erase;
      SelectedFit(table.records, now, if limit < 0 then 0 else limit);
      if cancelled {
        return Failure(Cancelled);
      }
      if limit < 0 {
        return Failure(NegativeCapacity);
      }
      var claimed := table.Scan(now, now + lease, limit, tokens);
      ghost var before := old(Model());
      ClaimsCommute(before, Selected(before.events, now, limit), now + lease, tokens);
      assert (Model(), claimed) == Take(before, Selected(before.events, now, limit), now + lease, tokens);
      DescribedStays(file.lines, before, Model());
      result := Success(claimed);
    }

    method MarkPublished(eventId: string, claimToken: string, at: Time, cancelled: bool, fails: bool)
      returns (error: Option<StoreError>)
      requires Valid()
      modifies table, table.repr, file
      ensures Valid() && fresh(table.repr - old(table.repr)) && (old(Described()) ==> Described())
      ensures cancelled ==> error == Some(Cancelled) && Model() == old(Model())
      ensures !cancelled ==>
        var (after, answer) := Outbox.MarkPublished(old(Model()), eventId, claimToken);
        if answer == None && (fails || !InYears(at)) then error == Some(AppendFailed) && Model() == old(Model())
        else error == answer && Model() == after
    {
      hide LineOf, Describes, Rebuild, Erase, AcceptanceMarshals;
      if cancelled {
        return Some(Cancelled);
      }
      if eventId !in table.events {
        return Some(NotFound);
      }
      var event := table.events[eventId];
      if event.claimToken == "" || event.claimToken != claimToken {
        return Some(LeaseLost);
      }
      var record := PublishedLog(eventId, at);
      var ok := Append(record, fails);
      if !ok {
        return Some(AppendFailed);
      }
      PublishedDescribed(old(file.lines), Model(), eventId, at);
      var failed := ApplyRecord(record);
      error := None;
    }

    method RecordFailure(failure: PublishFailure, cancelled: bool, fails: bool) returns (error: Option<StoreError>)
      requires Valid()
      modifies table, table.repr, file
      ensures Valid() && fresh(table.repr - old(table.repr)) && (old(Described()) ==> Described())
      ensures cancelled ==> error == Some(Cancelled) && Model() == old(Model())
      ensures !cancelled ==>
        var (after, answer) := Outbox.RecordFailure(old(Model()), failure);
        if answer == None && (fails || !InYears(failure.retryAt)) then error == Some(AppendFailed) && Model() == old(Model())
        else error == answer && Model() == after
    {
      hide LineOf, Describes, Rebuild, Erase, AcceptanceMarshals;
      if cancelled {
        return Some(Cancelled);
      }
      if failure.eventId !in table.events {
        return Some(NotFound);
      }
      var event := table.events[failure.eventId];
      if event.claimToken == "" || event.claimToken != failure.claimToken {
        return Some(LeaseLost);
      }
      var record := FailedLog(failure);
      var ok := Append(record, fails);
      if !ok {
        return Some(AppendFailed);
      }
      FailedDescribed(old(file.lines), Model(), failure);
      var failed := ApplyRecord(record);
      error := None;
    }
  }

  /** Which records can be marshalled: by their times, and by the raw messages of an acceptance. */
  ghost predicate RecordMarshals(r: LogRecord) {
    && InYears(r.recordedAt) && (r.failure.Some? ==> InYears(r.failure.value.retryAt))
    && (r.acceptance.Some? ==> AcceptanceMarshals(r.acceptance.value))
  }

  /** A record has a line exactly when it can be marshalled. */
  lemma LineExactly(r: LogRecord)
    ensures LineOf(r).Some? <==> RecordMarshals(r)
  {
    hide FourDigitYear, InYears, Reread, AcceptanceMarshals, Readable;
    FourDigitYearExactly(r.recordedAt);
    if r.failure.Some? {
      FourDigitYearExactly(r.failure.value.retryAt);
    }
    if r.acceptance.Some? {
      EncodableExactly(r.acceptance.value);
    }
  }

  /** The records of the three operations: the zero time and absent messages can always be marshalled. */
  lemma LogsExactly(a: Acceptance, eventId: string, at: Time, f: PublishFailure)
    ensures LineOf(AcceptedRecord(a)).Some? <==> AcceptanceMarshals(a)
    ensures LineOf(PublishedLog(eventId, at)).Some? <==> InYears(at)
    ensures LineOf(FailedLog(f)).Some? <==> InYears(f.retryAt)
  {
    hide LineOf, AcceptanceMarshals;
    LineExactly(AcceptedRecord(a));
    LineExactly(PublishedLog(eventId, at));
    LineExactly(FailedLog(f));
  }

  lemma StoredKeepsIdentity(a: Acceptance)
    ensures Key(Stored(a).transaction) == Key(a.transaction) && Stored(a).fingerprint == a.fingerprint
    ensures Stored(a).transaction.id == a.transaction.id && Stored(a).event.id == a.event.id
  {
  }

  /** A state with the same records, leases aside, is described by the same log. */
  lemma DescribedStays(lines: seq<Line>, s: State, after: State)
    requires Erase(s) == Erase(after)
    ensures Describes(lines, s) <==> Describes(lines, after)
  {
  }

  /** One more line describes the next state if it cannot be decoded or leads there without leases. */
  lemma DescribesMore(lines: seq<Line>, s: State, line: Line, after: State)
    requires Describes(lines, s) && (line.Entry? ==> ApplyLine(Erase(s), line) == Success(Erase(after)))
    ensures Describes(lines + [line], after)
  {
    hide Erase, Apply;
    var longer := lines + [line];
    assert longer[..|lines|] == lines;
    assert AllReadable(longer) <==> AllReadable(lines) && line.Entry? by {
      assert longer[|lines|] == line;
      assert forall i | 0 <= i < |lines| :: longer[i] == lines[i];
    }
  }

  lemma AcceptedDescribed(lines: seq<Line>, s: State, a: Acceptance)
    requires LineOf(AcceptedRecord(a)).Some?
    ensures Apply(s, AcceptedRecord(a)) == Success(WithAcceptance(s, Stored(a)))
    ensures Describes(lines, s) && Preserved(a) ==>
            Describes(lines + [LineOf(AcceptedRecord(a)).value], WithAcceptance(s, Stored(a)))
  {
    hide Erase, Apply, Readable, Preserved, Describes, ApplyLine, WithAcceptance, Stored;
    AcceptedCommutesExactly(s, a);
    if Describes(lines, s) && Preserved(a) {
      DescribesMore(lines, s, LineOf(AcceptedRecord(a)).value, WithAcceptance(s, Stored(a)));
    }
  }

  lemma PublishedDescribed(lines: seq<Line>, s: State, id: string, at: Time)
    requires id in s.events && LineOf(PublishedLog(id, at)).Some?
    ensures Apply(s, PublishedLog(id, at)) == Success(WithPublished(s, id))
    ensures Describes(lines, s) ==> Describes(lines + [LineOf(PublishedLog(id, at)).value], WithPublished(s, id))
  {
    hide Erase, Apply, Describes, ApplyLine, WithPublished;
    PublishedCommutes(s, id, at);
    if Describes(lines, s) {
      DescribesMore(lines, s, LineOf(PublishedLog(id, at)).value, WithPublished(s, id));
    }
  }

  lemma FailedDescribed(lines: seq<Line>, s: State, f: PublishFailure)
    requires f.eventId in s.events && LineOf(FailedLog(f)).Some?
    ensures Apply(s, FailedLog(f)) == Success(WithFailure(s, f))
    ensures Describes(lines, s) ==> Describes(lines + [LineOf(FailedLog(f)).value], WithFailure(s, f))
  {
    hide Erase, Apply, Describes, ApplyLine, WithFailure;
    FailedCommutes(s, f);
    if Describes(lines, s) {
      DescribesMore(lines, s, LineOf(FailedLog(f)).value, WithFailure(s, f));
    }
  }

  lemma {:induction false} ReplayNext(lines: seq<Line>, i: nat)
    requires i < |lines| && Rebuild(lines[..i]).Success?
    ensures Rebuild(lines[..i + 1]) == ApplyLine(Rebuild(lines[..i]).value, lines[i])
    ensures Rebuild(lines[..i + 1]).Failure? ==> Rebuild(lines) == Rebuild(lines[..i + 1])
  {
    assert lines[..i + 1][..i] == lines[..i];
    if Rebuild(lines[..i + 1]).Failure? {
      FailureStays(lines, i + 1);
    }
  }

  lemma {:induction false} FailureStays(lines: seq<Line>, n: nat)
    requires n <= |lines| && Rebuild(lines[..n]).Failure?
    ensures Rebuild(lines) == Rebuild(lines[..n])
    decreases |lines| - n
  {
    if n == |lines| {
      assert lines[..n] == lines;
    } else {
      assert lines[..n + 1][..n] == lines[..n];
      FailureStays(lines, n + 1);
    }
  }

  /** A rebuilt state holds no leases, and every line of its log could be decoded. */
  lemma {:induction false} RebuiltHoldsNothing(lines: seq<Line>)
    requires Rebuild(lines).Success?
    ensures Erase(Rebuild(lines).value) == Rebuild(lines).value && AllReadable(lines)
  {
    if lines == [] {
      assert Erase(EMPTY).events == EMPTY.events;
    } else {
      var last := |lines| - 1;
      RebuiltHoldsNothing(lines[..last]);
      AppliedHoldsNothing(Rebuild(lines[..last]).value, lines[last].record);
      assert forall i | 0 <= i < last :: lines[..last][i] == lines[i];
    }
  }

  lemma {:induction false} RebuiltIsDescribed(lines: seq<Line>)
    requires Rebuild(lines).Success?
    ensures Describes(lines, Rebuild(lines).value)
  {
    hide Erase, Rebuild;
    RebuiltHoldsNothing(lines);
  }

  lemma AppliedHoldsNothing(s: State, r: LogRecord)
    requires Erase(s) == s && Apply(s, r).Success?
    ensures Erase(Apply(s, r).value) == Apply(s, r).value
  {
    var after := Apply(s, r).value;
    forall id | id in after.events ensures Forget(after.events[id]) == after.events[id] {
      if id in s.events {
        assert Forget(s.events[id]) == s.events[id] by {
          assert Erase(s).events[id] == s.events[id];
        }
      }
    }
    assert Erase(after).events == after.events;
  }

  lemma SelectedFit(events: map<string, Record>, now: Time, limit: nat)
    ensures |Selected(events, now, limit)| <= |events|
  {
    SortedKnown(events);
    SortCorrect(events.Keys);
  }
}
