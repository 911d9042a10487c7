/**
 The transactional outbox as a state machine on values: what one atomic store operation
 does to the accepted identities and the outbox records. Every store is proved against it.
 */
module Outbox {
  import opened Wrappers
  import opened Ordering
  import opened Strings
  import opened Timestamps
  import opened Domain

  datatype OutboxEvent = OutboxEvent(
    id: string,
    kind: string,
    schemaVersion: int,
    occurredAt: Time,
    correlationId: string,
    source: string,
    sourceReference: string,
    transactionId: string,
    key: string,
    payload: Transaction)

  datatype Acceptance = Acceptance(transaction: Transaction, fingerprint: string, event: OutboxEvent)

  datatype StoreOutcome =
    | Accepted(transactionId: string, eventId: string)
    | Replay(transactionId: string, eventId: string)
    | Conflict

  datatype PendingEvent = PendingEvent(event: OutboxEvent, attempts: int, claimToken: string)

  datatype PublishFailure = PublishFailure(
    eventId: string, claimToken: string, attempts: int, retryAt: Time, terminal: bool, reason: string)

  datatype StoreError =
    | Cancelled
    | NotFound
    | LeaseLost
    | AppendFailed
    | Unavailable
    | NegativeCapacity
    | Undecodable

  /** What is remembered of an accepted transaction. */
  datatype Identity = Identity(fingerprint: string, transactionId: string, eventId: string)

  /** An outbox record; the empty claim token means that nobody holds it. */
  datatype Record = Record(
    event: OutboxEvent,
    attempts: int,
    retryAt: Time,
    leaseUntil: Time,
    claimToken: string,
    published: bool,
    terminal: bool)

  datatype State = State(transactions: map<string, Identity>, events: map<string, Record>)

  const EMPTY: State := State(map[], map[])

  /** The store key of a transaction. */
  function Key(t: Transaction): string {
    Join(t.source, ':', t.sourceReference)
  }

  // ----- Acceptance

  function NewRecord(event: OutboxEvent): Record {
    Record(event, 0, ZERO, ZERO, "", false, false)
  }

  function IdentityOf(a: Acceptance): Identity {
    Identity(a.fingerprint, a.transaction.id, a.event.id)
  }

  /** The answer to an acceptance whose identity is taken. */
  function Judge(existing: Identity, fingerprint: string): StoreOutcome {
    if existing.fingerprint == fingerprint then Replay(existing.transactionId, existing.eventId) else Conflict
  }

  /** Acceptances as the intake builds them. */
  predicate Built(a: Acceptance) {
    && a.event.key == Key(a.transaction) && a.event.transactionId == a.transaction.id
    && a.event.source == a.transaction.source && a.event.sourceReference == a.transaction.sourceReference
    && a.event.payload == a.transaction
  }

  /** The state with a new identity and its record. */
  function WithAcceptance(s: State, a: Acceptance): State {
    State(s.transactions[Key(a.transaction) := IdentityOf(a)], s.events[a.event.id := NewRecord(a.event)])
  }

  function Accept(s: State, a: Acceptance): (State, StoreOutcome) {
    var key := Key(a.transaction);
    if key in s.transactions then
      (s, Judge(s.transactions[key], a.fingerprint))
    else
      (WithAcceptance(s, a), Accepted(a.transaction.id, a.event.id))
  }

  // ----- Claiming

  predicate Pending(r: Record) {
    !r.published && !r.terminal
  }

  predicate Due(r: Record, now: Time) {
    Pending(r) && r.retryAt <= now && r.leaseUntil <= now
  }

  predicate Known(ids: seq<string>, events: map<string, Record>) {
    forall k | 0 <= k < |ids| :: ids[k] in events
  }

  /** The due ones of a list of IDs. */
  function DueOf(ids: seq<string>, events: map<string, Record>, now: Time): (due: seq<string>)
    requires Known(ids, events)
    ensures Known(due, events) && |due| <= |ids|
  {
    if ids == [] then []
    else
      var last := |ids| - 1;
      var front := DueOf(ids[..last], events, now);
      if Due(events[ids[last]], now) then front + [ids[last]] else front
  }

  function DueIds(events: map<string, Record>, now: Time): (due: seq<string>)
    ensures Known(due, events)
  {
    SortedKnown(events);
    DueOf(Sort(events.Keys), events, now)
  }

  lemma SortedKnown(events: map<string, Record>)
    ensures Known(Sort(events.Keys), events)
  {
    var ids := Sort(events.Keys);
    SortCorrect(events.Keys);
    forall k | 0 <= k < |ids| ensures ids[k] in events {
      assert ids[k] in Elements(ids);
    }
  }

  /** The first due IDs in ascending order, at most limit of them unless the limit is zero. */
  function Selected(events: map<string, Record>, now: Time, limit: nat): (ids: seq<string>)
    ensures Known(ids, events)
  {
    var due := DueIds(events, now);
    if 0 < limit < |due| then due[..limit] else due
  }

  /** What a claim chooses: nothing for a limit that is not positive. */
  function Chosen(events: map<string, Record>, now: Time, limit: int): (ids: seq<string>)
    ensures Known(ids, events)
  {
    if limit <= 0 then [] else Selected(events, now, limit)
  }

  /** The records after the listed ones were leased, each under its own token. */
  function Leased(events: map<string, Record>, ids: seq<string>, until: Time, tokens: seq<string>): map<string, Record>
    requires |ids| <= |tokens| && Known(ids, events)
  {
    if ids == [] then events
    else
      var last := |ids| - 1;
      Leased(events, ids[..last], until, tokens)
        [ids[last] := events[ids[last]].(leaseUntil := until, claimToken := tokens[last])]
  }

  function Handed(events: map<string, Record>, ids: seq<string>, tokens: seq<string>): seq<PendingEvent>
    requires |ids| <= |tokens| && Known(ids, events)
  {
    seq(|ids|, i requires 0 <= i < |ids| => PendingEvent(events[ids[i]].event, events[ids[i]].attempts, tokens[i]))
  }

  /** Leasing and handing out the listed records. */
  function Take(s: State, ids: seq<string>, until: Time, tokens: seq<string>): (State, seq<PendingEvent>)
    requires |ids| <= |tokens| && Known(ids, s.events)
  {
    (s.(events := Leased(s.events, ids, until, tokens)), Handed(s.events, ids, tokens))
  }

  /** One claim; tokens are what the generator returns during the call, in order. */
  function Claim(s: State, now: Time, lease: int, limit: int, tokens: seq<string>): (State, seq<PendingEvent>)
    requires |Chosen(s.events, now, limit)| <= |tokens|
  {
    Take(s, Chosen(s.events, now, limit), now + lease, tokens)
  }

  // ----- Completion

  /** Whether the token is the one the record was last claimed under. */
  predicate Holds(r: Record, token: string) {
    r.claimToken != "" && r.claimToken == token
  }

  function PublishedRecord(r: Record): Record {
    r.(published := true, leaseUntil := ZERO, claimToken := "")
  }

  function FailedRecord(r: Record, f: PublishFailure): Record {
    r.(attempts := f.attempts, retryAt := f.retryAt, terminal := f.terminal, leaseUntil := ZERO, claimToken := "")
  }

  function WithPublished(s: State, id: string): State
    requires id in s.events
  {
    s.(events := s.events[id := PublishedRecord(s.events[id])])
  }

  function WithFailure(s: State, f: PublishFailure): State
    requires f.eventId in s.events
  {
    s.(events := s.events[f.eventId := FailedRecord(s.events[f.eventId], f)])
  }

  function MarkPublished(s: State, id: string, token: string): (State, Option<StoreError>) {
    if id !in s.events then (s, Some(NotFound))
    else if !Holds(s.events[id], token) then (s, Some(LeaseLost))
    else (WithPublished(s, id), None)
  }

  function RecordFailure(s: State, f: PublishFailure): (State, Option<StoreError>) {
    if f.eventId !in s.events then (s, Some(NotFound))
    else if !Holds(s.events[f.eventId], f.claimToken) then (s, Some(LeaseLost))
    else (WithFailure(s, f), None)
  }

  // ----- Restart

  /** A record without its lease. */
  function Forget(r: Record): Record {
    r.(leaseUntil := ZERO, claimToken := "")
  }

  /** Leases are not logged, so a restart forgets them and nothing else. */
  function Erase(s: State): State {
    s.(events := map id | id in s.events :: Forget(s.events[id]))
  }

  // ----- What a claim selects

  /** Any selection of due events, each at most once. */
  predicate Selection(events: map<string, Record>, now: Time, ids: seq<string>) {
    Distinct(ids) && forall k | 0 <= k < |ids| :: ids[k] in events && Due(events[ids[k]], now)
  }

  lemma {:induction false} DueOfMembers(ids: seq<string>, events: map<string, Record>, now: Time)
    requires Known(ids, events) && Ascending(ids)
    ensures var due := DueOf(ids, events, now);
            && Ascending(due)
            && forall id :: id in due <==> id in ids && id in events && Due(events[id], now)
  {
    if ids != [] {
      var last := |ids| - 1;
      DueOfMembers(ids[..last], events, now);
      assert ids == ids[..last] + [ids[last]];
      forall id | id in DueOf(ids[..last], events, now) ensures Less(id, ids[last]) {
        var i :| 0 <= i < last && ids[..last][i] == id;
        assert ids[i] == id;
      }
    }
  }

  lemma DueIdsMembers(events: map<string, Record>, now: Time)
    ensures Ascending(DueIds(events, now))
    ensures forall id :: id in DueIds(events, now) <==> id in events && Due(events[id], now)
  {
    var sorted := Sort(events.Keys);
    SortCorrect(events.Keys);
    assert forall id :: id in sorted <==> id in Elements(sorted);
    SortedKnown(events);
    DueOfMembers(sorted, events, now);
  }

  lemma ChosenAscend(events: map<string, Record>, now: Time, limit: int)
    ensures Ascending(Chosen(events, now, limit))
  {
    DueIdsMembers(events, now);
  }

  lemma ChosenDistinct(events: map<string, Record>, now: Time, limit: int)
    ensures Distinct(Chosen(events, now, limit))
  {
    ChosenAscend(events, now, limit);
    AscendingIsDistinct(Chosen(events, now, limit));
  }

  lemma ChosenFirst(events: map<string, Record>, now: Time, limit: int, i: nat)
    requires i < |DueIds(events, now)|
    ensures i < |Chosen(events, now, limit)| ==> DueIds(events, now)[i] in Chosen(events, now, limit)
  {
    var ids := Chosen(events, now, limit);
    if i < |ids| {
      assert ids[i] == DueIds(events, now)[i];
    }
  }

  /**
   A claim takes the least due IDs in ascending order: as many as the limit allows, each of
   them due, and no due ID below one that was taken is left out.
   */
  lemma ChosenAreLeast(events: map<string, Record>, now: Time, limit: int)
    ensures var ids := Chosen(events, now, limit);
            && Ascending(ids)
            && (forall id | id in ids :: id in events && Due(events[id], now))
            && (limit <= 0 ==> ids == [])
            && (limit > 0 ==> |ids| <= limit)
            && (forall id | id in events && Due(events[id], now) && id !in ids && limit > 0 ::
                  |ids| == limit && forall taken | taken in ids :: Less(taken, id))
  {
    var due := DueIds(events, now);
    DueIdsMembers(events, now);
    var ids := Chosen(events, now, limit);
    assert forall id | id in ids :: id in due;
    forall id | id in events && Due(events[id], now) && id !in ids && limit > 0
      ensures |ids| == limit && forall taken | taken in ids :: Less(taken, id)
    {
      var i :| 0 <= i < |due| && due[i] == id;
      ChosenFirst(events, now, limit, i);
      assert forall j | 0 <= j < |ids| :: ids[j] == due[j];
    }
  }

  /** What the memory store chooses is such a selection. */
  lemma ChosenIsSelection(events: map<string, Record>, now: Time, limit: int)
    ensures Selection(events, now, Chosen(events, now, limit)) && |Chosen(events, now, limit)| <= |events|
  {
    var ids := Chosen(events, now, limit);
    ChosenFit(events, now, limit);
    ChosenDistinct(events, now, limit);
    ChosenAreLeast(events, now, limit);
    forall j | 0 <= j < |ids| ensures ids[j] in events && Due(events[ids[j]], now) {
      assert ids[j] in ids;
    }
  }

  lemma {:induction false} LeasedKeys(events: map<string, Record>, ids: seq<string>, until: Time, tokens: seq<string>)
    requires |ids| <= |tokens| && Known(ids, events)
    ensures Leased(events, ids, until, tokens).Keys == events.Keys
  {
    if ids != [] {
      LeasedKeys(events, ids[..|ids| - 1], until, tokens);
    }
  }

  lemma {:induction false} LeasedOther(events: map<string, Record>, ids: seq<string>, until: Time, tokens: seq<string>, other: string)
    requires |ids| <= |tokens| && Known(ids, events) && other in events && other !in ids
    ensures var after := Leased(events, ids, until, tokens); other in after && after[other] == events[other]
  {
    if ids != [] {
      assert ids[|ids| - 1] != other;
      LeasedOther(events, ids[..|ids| - 1], until, tokens, other);
    }
  }

  lemma {:induction false} LeasedAt(events: map<string, Record>, ids: seq<string>, until: Time, tokens: seq<string>, i: nat)
    requires i < |ids| <= |tokens| && Distinct(ids) && Known(ids, events)
    ensures var after := Leased(events, ids, until, tokens);
            ids[i] in after && after[ids[i]] == events[ids[i]].(leaseUntil := until, claimToken := tokens[i])
  {
    hide Distinct;
    LastIsNew(ids);
    if i < |ids| - 1 {
      LeasedAt(events, ids[..|ids| - 1], until, tokens, i);
    }
  }

  /** Leasing pointwise: the i-th listed record gets the i-th token, every other record stays as it is. */
  lemma {:induction false} LeasedRecords(events: map<string, Record>, ids: seq<string>, until: Time, tokens: seq<string>)
    requires |ids| <= |tokens| && Distinct(ids) && Known(ids, events)
    ensures var after := Leased(events, ids, until, tokens);
            && after.Keys == events.Keys
            && (forall id | id in events && id !in ids :: after[id] == events[id])
            && (forall i | 0 <= i < |ids| :: after[ids[i]] == events[ids[i]].(leaseUntil := until, claimToken := tokens[i]))
  {
    hide Leased, Distinct;
    LeasedKeys(events, ids, until, tokens);
    forall id | id in events && id !in ids ensures Leased(events, ids, until, tokens)[id] == events[id] {
      LeasedOther(events, ids, until, tokens, id);
    }
    forall i | 0 <= i < |ids|
      ensures Leased(events, ids, until, tokens)[ids[i]] == events[ids[i]].(leaseUntil := until, claimToken := tokens[i])
    {
      LeasedAt(events, ids, until, tokens, i);
    }
  }

  lemma ChosenFit(events: map<string, Record>, now: Time, limit: int)
    ensures |Chosen(events, now, limit)| <= |events|
  {
    SortedKnown(events);
    SortCorrect(events.Keys);
  }

  lemma ClaimNothing(s: State, now: Time, lease: int, limit: int, tokens: seq<string>)
    requires limit <= 0
    ensures Claim(s, now, lease, limit, tokens) == (s, [])
  {
    assert Handed(s.events, [], tokens) == [];
  }

  // ----- Store keys

  /**
   Two identities share a store key exactly when they are equal or one source continues the
   other behind a colon and the references make up for it.
   */
  lemma KeysCollide(t: Transaction, u: Transaction)
    ensures Key(t) == Key(u) <==>
            (t.source == u.source && t.sourceReference == u.sourceReference)
            || (exists m :: t.source == Join(u.source, ':', m) && u.sourceReference == Join(m, ':', t.sourceReference))
            || (exists m :: u.source == Join(t.source, ':', m) && t.sourceReference == Join(m, ':', u.sourceReference))
  {
    JoinsCollide(t.source, t.sourceReference, u.source, u.sourceReference, ':');
  }

  /** For sources without a colon the store key is the identity. */
  lemma KeyIsIdentity(t: Transaction, u: Transaction)
    requires ':' !in t.source && ':' !in u.source
    ensures Key(t) == Key(u) <==> t.source == u.source && t.sourceReference == u.sourceReference
  {
    if Key(t) == Key(u) {
      SameAtSeparator(t.source, t.sourceReference, u.source, u.sourceReference, ':');
    }
  }
}
