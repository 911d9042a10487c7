/**
 Claims and completions on PostgreSQL: each is one SQL statement, and they do to the rows
 exactly what the outbox rules do to the records, with one token for a whole claim.
 */
module PostgresOutbox {
  import opened Wrappers
  import opened Ordering
  import opened Timestamps
  import opened Outbox
  import opened Columns

  /** A row of outbox_events; a null column is None. */
  datatype Row = Row(
    event: OutboxEvent,
    status: Status,
    attempts: int,
    retryAt: Option<Time>,
    leaseUntil: Option<Time>,
    claimToken: Option<string>,
    publishedAt: Option<Time>,
    lastError: Option<string>)

  type Rows = map<string, Row>

  function NewRow(event: OutboxEvent): Row {
    Row(event, IsPending, 0, None, None, None, None, None)
  }

  predicate Reached(t: Option<Time>, now: Time) {
    t.None? || t.value <= now
  }

  predicate Claimable(row: Row, now: Time) {
    row.status == IsPending && Reached(row.retryAt, now) && Reached(row.leaseUntil, now)
  }

  // ----- The statements

  /** Rows that a claim may take: claimable, and not locked by another transaction. */
  predicate Available(rows: Rows, now: Time, locked: set<string>, id: string) {
    id in rows && id !in locked && Claimable(rows[id], now)
  }

  /** The candidates: the oldest available rows, oldest first, at most as many as the limit. */
  ghost predicate Candidates(rows: Rows, now: Time, locked: set<string>, limit: nat, ids: seq<string>) {
    && Distinct(ids) && |ids| <= limit
    && (forall k | 0 <= k < |ids| :: Available(rows, now, locked, ids[k]))
    && (forall j, k | 0 <= j < k < |ids| :: rows[ids[j]].event.occurredAt <= rows[ids[k]].event.occurredAt)
    && (forall id | Available(rows, now, locked, id) && id !in ids ::
          |ids| == limit && forall k | 0 <= k < |ids| :: rows[ids[k]].event.occurredAt <= rows[id].event.occurredAt)
  }

  /** The rows behind a claim of these candidates. */
  function ClaimedRows(rows: Rows, ids: seq<string>, until: Time, token: string): Rows
    requires forall k | 0 <= k < |ids| :: ids[k] in rows
  {
    map id | id in rows ::
      if id in ids then rows[id].(leaseUntil := Some(until), claimToken := Some(token)) else rows[id]
  }

  /** The rows a completion applies to: at most one. */
  predicate HeldBy(rows: Rows, id: string, token: string) {
    id in rows && rows[id].status == IsPending && rows[id].claimToken == Some(token)
  }

  function PublishedRows(rows: Rows, id: string, token: string, at: Time): Rows {
    if !HeldBy(rows, id, token) then rows
    else rows[id := PublishedRow(rows[id], at)]
  }

  function PublishedRow(row: Row, at: Time): Row {
    row.(status := IsPublished, publishedAt := Some(at), leaseUntil := None, claimToken := None)
  }

  function FailedRows(rows: Rows, f: PublishFailure): Rows {
    if !HeldBy(rows, f.eventId, f.claimToken) then rows
    else rows[f.eventId := FailedRow(rows[f.eventId], f)]
  }

  function FailedRow(row: Row, f: PublishFailure): Row {
    row.(status := if f.terminal then IsFailed else IsPending, attempts := f.attempts, retryAt := Some(f.retryAt),
         lastError := Some(f.reason), leaseUntil := None, claimToken := None)
  }

  /** An update of anything but one row means that the lease was lost. */
  function ClaimUpdated(rows: Rows, id: string, token: string): Option<StoreError> {
    if HeldBy(rows, id, token) then None else Some(LeaseLost)
  }

  /** The events a claim returns, in the order in which the database returns the updated rows. */
  function Returned(rows: Rows, order: seq<string>): seq<PendingEvent>
    requires forall k | 0 <= k < |order| :: order[k] in rows && rows[order[k]].claimToken.Some?
  {
    seq(|order|, k requires 0 <= k < |order| =>
      PendingEvent(rows[order[k]].event, rows[order[k]].attempts, rows[order[k]].claimToken.value))
  }

  class Store {
    var rows: Rows

    ghost predicate Valid()
      reads this
    {
      RowsOk(rows)
    }

    /** The outbox state that the rows stand for. */
    ghost function Model(): State
      reads this
    {
      State(map[], RecordsOf(rows))
    }

    constructor ()
      ensures Valid() && rows == map[]
    {
      rows := map[];
    }

    /**
     The candidates and the order of the returned rows are the database's choice. A statement
     that reports a failure may have landed, but not one with a negative limit. An event that
     cannot be decoded makes the claim fail behind its leases.
     */
    method ClaimPending(
        now: Time, lease: int, limit: int, claimToken: string, locked: set<string>, ids: seq<string>, order: seq<string>,
        fails: bool, lands: bool)
      returns (result: Result<seq<PendingEvent>, StoreError>)
      requires Valid() && claimToken != ""
      requires Candidates(rows, now, locked, if limit < 0 then 0 else limit, ids) && multiset(order) == multiset(ids)
      modifies this
      ensures Valid()
      ensures forall k | 0 <= k < |order| :: order[k] in rows
      ensures if limit < 0 || (fails && !lands) then rows == old(rows)
              else RecordsOf(rows) == Leased(RecordsOf(old(rows)), ids, now + lease, Repeated(claimToken, |ids|))
      ensures now >= ZERO ==> OldestDue(old(Model()).events, now, locked, if limit < 0 then 0 else limit, ids)
      ensures fails || limit < 0 ==> result == Failure(Unavailable)
      ensures !fails && limit >= 0 ==>
        && Known(order, old(Model()).events)
        && (if forall k | 0 <= k < |order| :: EventDecodable(rows[order[k]].event)
            then result == Success(Handed(old(Model()).events, order, Repeated(claimToken, |order|)))
            else result == Failure(Undecodable))
    {
      hide EventDecodable, Leased, Handed, Candidates, OldestDue, RowsOk, ClaimedRows, RecordOf;
      SameIds(order, ids);
      if now >= ZERO {
        CandidatesExactly(rows, now, locked, if limit < 0 then 0 else limit, ids);
      }
      ClaimLeases(rows, now, locked, if limit < 0 then 0 else limit, ids, now + lease, claimToken);
      ReturnedIsHanded(rows, ids, order, now + lease, claimToken);
      if limit >= 0 && (!fails || lands) {
        rows := ClaimedRows(rows, ids, now + lease, claimToken);
      }
      if fails || limit < 0 {
        return Failure(Unavailable);
      }
      var events: seq<PendingEvent> := [];
      var k := 0;
      while k < |order|
        invariant k == |events| <= |order|
        invariant forall i | 0 <= i < |order| :: order[i] in rows && rows[order[i]].claimToken == Some(claimToken)
        invariant forall i | 0 <= i < k :: EventDecodable(rows[order[i]].event)
        invariant events == Returned(rows, order)[..k]
      {
        var row := rows[order[k]];
        if !EventDecodable(row.event) {
          return Failure(Undecodable);
        }
        events := events + [PendingEvent(row.event, row.attempts, row.claimToken.value)];
        k := k + 1;
      }
      assert Returned(rows, order)[..|order|] == Returned(rows, order);
      result := Success(events);
    }

    /** The record is published as the outbox rules say; an update of anything but one row means that the lease was lost. */
    method MarkPublished(eventId: string, claimToken: string, at: Time, fails: bool, lands: bool) returns (error: Option<StoreError>)
      requires Valid()
      modifies this
      ensures Valid()
      ensures Model() == if fails && !lands then old(Model()) else Outbox.MarkPublished(old(Model()), eventId, claimToken).0
      ensures if fails then error == Some(Unavailable)
              else if Outbox.MarkPublished(old(Model()), eventId, claimToken).1 == None
              then error == None && eventId in rows && rows[eventId].publishedAt == Some(at)
              else error == Some(LeaseLost)
      ensures forall id | id in old(rows) && id != eventId :: id in rows && rows[id] == old(rows)[id]
    {
      PublishingAgrees(rows, map[], eventId, claimToken, at);
      PublishingKeeps(rows, eventId, claimToken, at);
      var updated := 0;
      if (!fails || lands) && HeldBy(rows, eventId, claimToken) {
        rows := rows[eventId := rows[eventId].(
          status := IsPublished, publishedAt := Some(at), leaseUntil := None, claimToken := None)];
        updated := 1;
      }
      if fails {
        return Some(Unavailable);
      }
      error := if updated != 1 then Some(LeaseLost) else None;
    }

    method RecordFailure(failure: PublishFailure, fails: bool, lands: bool) returns (error: Option<StoreError>)
      requires Valid()
      modifies this
      ensures Valid()
      ensures Model() == if fails && !lands then old(Model()) else Outbox.RecordFailure(old(Model()), failure).0
      ensures if fails then error == Some(Unavailable)
              else if Outbox.RecordFailure(old(Model()), failure).1 == None
              then error == None && failure.eventId in rows && rows[failure.eventId].lastError == Some(failure.reason)
              else error == Some(LeaseLost)
      ensures forall id | id in old(rows) && id != failure.eventId :: id in rows && rows[id] == old(rows)[id]
    {
      FailingAgrees(rows, map[], failure);
      FailingKeeps(rows, failure);
      var updated := 0;
      if (!fails || lands) && HeldBy(rows, failure.eventId, failure.claimToken) {
        rows := rows[failure.eventId := rows[failure.eventId].(
          status := if failure.terminal then IsFailed else IsPending, attempts := failure.attempts,
          retryAt := Some(failure.retryAt), lastError := Some(failure.reason), leaseUntil := None, claimToken := None)];
        updated := 1;
      }
      if fails {
        return Some(Unavailable);
      }
      error := if updated != 1 then Some(LeaseLost) else None;
    }
  }

  lemma SameIds(order: seq<string>, ids: seq<string>)
    requires multiset(order) == multiset(ids)
    ensures |order| == |ids| && forall k | 0 <= k < |order| :: order[k] in ids
  {
    assert |multiset(order)| == |order| && |multiset(ids)| == |ids|;
    forall k | 0 <= k < |order| ensures order[k] in ids {
      assert order[k] in multiset(order);
      assert order[k] in multiset(ids);
    }
  }

  // ----- The database always has candidates to choose

  lemma CandidatesExist(rows: Rows, now: Time, locked: set<string>, limit: nat) returns (ids: seq<string>)
    ensures Candidates(rows, now, locked, limit, ids)
  {
    hide Claimable;
    if limit == 0 {
      ids := [];
    } else {
      ids := CandidatesExist(rows, now, locked, limit - 1);
      var others := set id | id in rows && Available(rows, now, locked, id) && id !in ids;
      if others != {} {
        var oldest := Oldest(rows, others);
        OneMoreCandidate(rows, now, locked, limit, ids, oldest);
        ids := ids + [oldest];
      } else {
        assert forall id | Available(rows, now, locked, id) :: id in ids by {
          forall id | Available(rows, now, locked, id) ensures id in ids {
            assert id !in others;
          }
        }
      }
    }
  }

  lemma OneMoreCandidate(rows: Rows, now: Time, locked: set<string>, limit: nat, ids: seq<string>, oldest: string)
    requires limit > 0 && Candidates(rows, now, locked, limit - 1, ids)
    requires Available(rows, now, locked, oldest) && oldest !in ids
    requires forall id | Available(rows, now, locked, id) && id !in ids :: rows[oldest].event.occurredAt <= rows[id].event.occurredAt
    ensures Candidates(rows, now, locked, limit, ids + [oldest])
  {
    hide Claimable;
    var longer := ids + [oldest];
    forall id | Available(rows, now, locked, id) && id !in longer
      ensures |longer| == limit && forall k | 0 <= k < |longer| :: rows[longer[k]].event.occurredAt <= rows[id].event.occurredAt
    {
      assert id !in ids;
    }
  }

  lemma Oldest(rows: Rows, ids: set<string>) returns (oldest: string)
    requires ids != {} && forall id | id in ids :: id in rows
    ensures oldest in ids && forall id | id in ids :: rows[oldest].event.occurredAt <= rows[id].event.occurredAt
    decreases |ids|
  {
    var id :| id in ids;
    if ids == {id} {
      oldest := id;
    } else {
      oldest := Oldest(rows, ids - {id});
      if rows[id].event.occurredAt < rows[oldest].event.occurredAt {
        oldest := id;
      }
    }
  }

  // ----- The rows as outbox records

  /** Lease and token are set together, and only on a pending row. */
  ghost predicate RowsOk(rows: Rows) {
    forall id | id in rows ::
      && rows[id].event.id == id
      && (rows[id].leaseUntil.Some? <==> rows[id].claimToken.Some?)
      && (rows[id].claimToken.Some? ==> rows[id].status == IsPending && rows[id].claimToken.value != "")
  }

  function RecordOf(row: Row): Record {
    RecordWith(row.event, row.status, row.attempts, row.retryAt, row.leaseUntil, row.claimToken)
  }

  function RecordsOf(rows: Rows): map<string, Record> {
    map id | id in rows :: RecordOf(rows[id])
  }

  lemma ClaimingKeeps(rows: Rows, ids: seq<string>, until: Time, token: string)
    requires RowsOk(rows) && (forall k | 0 <= k < |ids| :: ids[k] in rows && rows[ids[k]].status == IsPending) && token != ""
    ensures RowsOk(ClaimedRows(rows, ids, until, token))
  {
  }

  lemma PublishingKeeps(rows: Rows, id: string, token: string, at: Time)
    requires RowsOk(rows)
    ensures RowsOk(PublishedRows(rows, id, token, at))
  {
  }

  lemma FailingKeeps(rows: Rows, f: PublishFailure)
    requires RowsOk(rows)
    ensures RowsOk(FailedRows(rows, f))
  {
  }

  function Repeated(token: string, n: nat): (tokens: seq<string>)
    ensures |tokens| == n && forall i | 0 <= i < n :: tokens[i] == token
  {
    seq(n, _ => token)
  }

  /** A claim leases as the outbox rules do, with one token for all. */
  lemma {:induction false} ClaimLeases(rows: Rows, now: Time, locked: set<string>, limit: nat, ids: seq<string>, until: Time, token: string)
    requires Candidates(rows, now, locked, limit, ids)
    ensures Known(ids, RecordsOf(rows)) && forall k | 0 <= k < |ids| :: ids[k] in rows
    ensures RecordsOf(ClaimedRows(rows, ids, until, token)) == Leased(RecordsOf(rows), ids, until, Repeated(token, |ids|))
    ensures RowsOk(rows) && token != "" ==> RowsOk(ClaimedRows(rows, ids, until, token))
  {
    hide Leased;
    forall k | 0 <= k < |ids| ensures ids[k] in rows && rows[ids[k]].status == IsPending {
      assert Available(rows, now, locked, ids[k]);
    }
    LeasedRecords(RecordsOf(rows), ids, until, Repeated(token, |ids|));
    var after, leased := RecordsOf(ClaimedRows(rows, ids, until, token)), Leased(RecordsOf(rows), ids, until, Repeated(token, |ids|));
    forall id | id in rows ensures after[id] == leased[id] {
      if id in ids {
        var k :| 0 <= k < |ids| && ids[k] == id;
      }
    }
    assert after.Keys == rows.Keys == leased.Keys;
    if RowsOk(rows) && token != "" {
      ClaimingKeeps(rows, ids, until, token);
    }
  }

  /** A row is available exactly when its record is due and nobody has locked it. */
  lemma AvailableExactly(rows: Rows, now: Time, locked: set<string>, id: string)
    requires now >= ZERO
    ensures Available(rows, now, locked, id) <==> id in DueUnlocked(RecordsOf(rows), now, locked)
  {
  }

  function DueUnlocked(events: map<string, Record>, now: Time, locked: set<string>): set<string> {
    set id | id in events && id !in locked && Due(events[id], now)
  }

  /** As many of the due events that nobody has locked as the limit allows, oldest first, and none of the others is older. */
  ghost predicate OldestDue(events: map<string, Record>, now: Time, locked: set<string>, limit: nat, ids: seq<string>) {
    && Distinct(ids) && (forall k | 0 <= k < |ids| :: ids[k] in DueUnlocked(events, now, locked))
    && |ids| == Lesser(limit, |DueUnlocked(events, now, locked)|)
    && (forall j, k | 0 <= j < k < |ids| :: events[ids[j]].event.occurredAt <= events[ids[k]].event.occurredAt)
    && forall id, k | id in DueUnlocked(events, now, locked) && id !in ids && 0 <= k < |ids| ::
         events[ids[k]].event.occurredAt <= events[id].event.occurredAt
  }

  function Lesser(a: nat, b: nat): nat {
    if a <= b then a else b
  }

  lemma CandidatesExactly(rows: Rows, now: Time, locked: set<string>, limit: nat, ids: seq<string>)
    requires now >= ZERO
    ensures Candidates(rows, now, locked, limit, ids) <==> OldestDue(RecordsOf(rows), now, locked, limit, ids)
  {
    hide Available, DueUnlocked;
    var due := DueUnlocked(RecordsOf(rows), now, locked);
    forall id ensures Available(rows, now, locked, id) <==> id in due {
      AvailableExactly(rows, now, locked, id);
    }
    DueAreRows(rows, now, locked);
    if Distinct(ids) && forall k | 0 <= k < |ids| :: ids[k] in due {
      DistinctSize(ids);
      assert Elements(ids) <= due;
      SubsetFits(Elements(ids), due);
      assert (forall id | id in due :: id in ids) <==> Elements(ids) == due;
    }
  }

  lemma DueAreRows(rows: Rows, now: Time, locked: set<string>)
    ensures forall id | id in DueUnlocked(RecordsOf(rows), now, locked) :: id in rows && RecordsOf(rows)[id].event == rows[id].event
  {
  }

  /**
   A claim by the outbox rules: the oldest due events that nobody has locked, as many as
   there are up to the limit, each handed the same token.
   */
  lemma {:induction false} ClaimAgrees(rows: Rows, now: Time, locked: set<string>, limit: nat, ids: seq<string>, until: Time, token: string)
    requires Candidates(rows, now, locked, limit, ids) && now >= ZERO
    ensures Selection(RecordsOf(rows), now, ids) && OldestDue(RecordsOf(rows), now, locked, limit, ids)
    ensures RecordsOf(ClaimedRows(rows, ids, until, token)) == Leased(RecordsOf(rows), ids, until, Repeated(token, |ids|))
  {
    hide Leased, Candidates, OldestDue;
    CandidatesAreDue(rows, now, locked, limit, ids);
    CandidatesExactly(rows, now, locked, limit, ids);
    ClaimLeases(rows, now, locked, limit, ids, until, token);
  }

  lemma CandidatesAreDue(rows: Rows, now: Time, locked: set<string>, limit: nat, ids: seq<string>)
    requires Candidates(rows, now, locked, limit, ids) && now >= ZERO
    ensures Selection(RecordsOf(rows), now, ids)
  {
    forall k | 0 <= k < |ids| ensures ids[k] in RecordsOf(rows) && Due(RecordsOf(rows)[ids[k]], now) {
      assert Available(rows, now, locked, ids[k]);
    }
  }

  /** What a claim returns is what the outbox rules hand out, in the database's order. */
  lemma ReturnedIsHanded(rows: Rows, ids: seq<string>, order: seq<string>, until: Time, token: string)
    requires (forall k | 0 <= k < |ids| :: ids[k] in rows) && multiset(order) == multiset(ids)
    ensures var after := ClaimedRows(rows, ids, until, token);
            && (forall k | 0 <= k < |order| :: order[k] in after && after[order[k]].claimToken == Some(token))
            && Known(order, RecordsOf(rows))
            && Returned(after, order) == Handed(RecordsOf(rows), order, Repeated(token, |order|))
  {
    SameIds(order, ids);
  }

  /** Both completions do to the rows exactly what the outbox rules do to the records; an unknown event counts as a lost lease. */
  lemma CompletionsAgree(rows: Rows, transactions: map<string, Identity>, f: PublishFailure, at: Time)
    requires RowsOk(rows)
    ensures var (after, answer) := Outbox.MarkPublished(State(transactions, RecordsOf(rows)), f.eventId, f.claimToken);
            RecordsOf(PublishedRows(rows, f.eventId, f.claimToken, at)) == after.events
              && (ClaimUpdated(rows, f.eventId, f.claimToken) == None <==> answer == None)
    ensures var (after, answer) := Outbox.RecordFailure(State(transactions, RecordsOf(rows)), f);
            RecordsOf(FailedRows(rows, f)) == after.events
              && (ClaimUpdated(rows, f.eventId, f.claimToken) == None <==> answer == None)
  {
    hide RowsOk, RecordsOf, PublishedRows, FailedRows, HeldBy;
    PublishingAgrees(rows, transactions, f.eventId, f.claimToken, at);
    FailingAgrees(rows, transactions, f);
  }

  lemma PublishingAgrees(rows: Rows, transactions: map<string, Identity>, id: string, token: string, at: Time)
    requires RowsOk(rows)
    ensures var (after, answer) := Outbox.MarkPublished(State(transactions, RecordsOf(rows)), id, token);
            RecordsOf(PublishedRows(rows, id, token, at)) == after.events && (ClaimUpdated(rows, id, token) == None <==> answer == None)
  {
    hide RowsOk, RecordOf, HeldBy, Holds, PublishedRecord;
    HeldExactly(rows, id, token);
    if HeldBy(rows, id, token) {
      RowCompleted(rows[id], at, PublishFailure(id, token, 0, ZERO, false, ""));
      assert RecordsOf(PublishedRows(rows, id, token, at)).Keys == rows.Keys;
    }
  }

  lemma FailingAgrees(rows: Rows, transactions: map<string, Identity>, f: PublishFailure)
    requires RowsOk(rows)
    ensures var (after, answer) := Outbox.RecordFailure(State(transactions, RecordsOf(rows)), f);
            RecordsOf(FailedRows(rows, f)) == after.events && (ClaimUpdated(rows, f.eventId, f.claimToken) == None <==> answer == None)
  {
    hide RowsOk, RecordOf, HeldBy, Holds, FailedRecord, FailedRow;
    HeldExactly(rows, f.eventId, f.claimToken);
    if HeldBy(rows, f.eventId, f.claimToken) {
      RowCompleted(rows[f.eventId], ZERO, f);
      assert RecordsOf(FailedRows(rows, f)).Keys == rows.Keys;
    }
  }

  /** An update applies exactly when the record holds the token. */
  lemma HeldExactly(rows: Rows, id: string, token: string)
    requires RowsOk(rows)
    ensures HeldBy(rows, id, token) <==> id in RecordsOf(rows) && Holds(RecordsOf(rows)[id], token)
    ensures HeldBy(rows, id, token) ==> rows[id].status == IsPending
  {
  }

  lemma RowCompleted(row: Row, at: Time, f: PublishFailure)
    requires row.status == IsPending
    ensures RecordOf(PublishedRow(row, at)) == PublishedRecord(RecordOf(row))
    ensures RecordOf(FailedRow(row, f)) == FailedRecord(RecordOf(row), f)
  {
  }

  // ----- Sequences of statements

  datatype Statement =
    | Insert(event: OutboxEvent)
    | Claim(now: Time, until: Time, locked: set<string>, limit: nat, ids: seq<string>, token: string)
    | Publish(id: string, token: string, at: Time)
    | Fail(failure: PublishFailure)

  /** Event IDs are unique, claims take what they may, tokens are not empty. */
  ghost predicate Admissible(rows: Rows, st: Statement) {
    match st
    case Insert(event) => event.id !in rows
    case Claim(now, _, locked, limit, ids, token) => Candidates(rows, now, locked, limit, ids) && token != ""
    case _ => true
  }

  function Executed(rows: Rows, st: Statement): Rows
    requires Admissible(rows, st)
  {
    match st
    case Insert(event) => rows[event.id := NewRow(event)]
    case Claim(_, until, _, _, ids, token) => ClaimedRows(rows, ids, until, token)
    case Publish(id, token, at) => PublishedRows(rows, id, token, at)
    case Fail(f) => FailedRows(rows, f)
  }

  ghost predicate Execution(states: seq<Rows>, statements: seq<Statement>) {
    && |states| == |statements| + 1 && states[0] == map[]
    && forall i | 0 <= i < |statements| ::
         Admissible(states[i], statements[i]) && states[i + 1] == Executed(states[i], statements[i])
  }

  /** Finished rows stay as they are, and no row changes its event. */
  ghost predicate RowsProgress(rows: Rows, after: Rows) {
    forall id | id in rows ::
      id in after && after[id].event == rows[id].event && (rows[id].status != IsPending ==> after[id] == rows[id])
  }

  lemma StatementKeeps(rows: Rows, st: Statement)
    requires RowsOk(rows) && Admissible(rows, st)
    ensures RowsOk(Executed(rows, st)) && RowsProgress(rows, Executed(rows, st))
  {
    match st
    case Insert(event) =>
    case Claim(now, until, locked, limit, ids, token) =>
      forall k | 0 <= k < |ids| ensures ids[k] in rows && rows[ids[k]].status == IsPending {
        assert Available(rows, now, locked, ids[k]);
      }
      ClaimingKeeps(rows, ids, until, token);
    case Publish(id, token, at) => PublishingKeeps(rows, id, token, at);
    case Fail(f) => FailingKeeps(rows, f);
  }

  /** In every execution from an empty table lease and token go together and only on pending rows, and finished rows stay as they are. */
  lemma ReachableRows(states: seq<Rows>, statements: seq<Statement>, m: nat, n: nat)
    requires Execution(states, statements) && m <= n <= |statements|
    ensures RowsOk(states[n]) && RowsProgress(states[m], states[n])
    decreases n
  {
    hide Executed, Admissible;
    if n > 0 {
      var k := if m < n then m else n - 1;
      ReachableRows(states, statements, k, n - 1);
      StatementKeeps(states[n - 1], statements[n - 1]);
      assert states[n - 1 + 1] == Executed(states[n - 1], statements[n - 1]);
    }
  }
}
