/**
 The maps that the memory store and the NDJSON store keep: identities under their store
 keys, and records, mutated in place, under their event IDs.
 */
module Records {
  import opened Ordering
  import opened Timestamps
  import opened Outbox

  class StoredEvent {
    const event: OutboxEvent
    var attempts: int
    var retryAt: Time
    var leaseUntil: Time
    var claimToken: string
    var published: bool
    var terminal: bool

    function Value(): Record
      reads this
    {
      Record(event, attempts, retryAt, leaseUntil, claimToken, published, terminal)
    }

    constructor (event: OutboxEvent)
      ensures Value() == NewRecord(event)
    {
      this.event := event;
      attempts, retryAt, leaseUntil, claimToken, published, terminal := 0, ZERO, ZERO, "", false, false;
    }

    method Lease(until: Time, token: string)
      modifies this
      ensures Value() == old(Value()).(leaseUntil := until, claimToken := token)
    {
      leaseUntil, claimToken := until, token;
    }

    method Publish()
      modifies this
      ensures Value() == PublishedRecord(old(Value()))
    {
      published := true;
      leaseUntil, claimToken := ZERO, "";
    }

    method Fail(failure: PublishFailure)
      modifies this
      ensures Value() == FailedRecord(old(Value()), failure)
    {
      attempts, retryAt, terminal := failure.attempts, failure.retryAt, failure.terminal;
      leaseUntil, claimToken := ZERO, "";
    }
  }

  class Table {
    var transactions: map<string, Identity>
    var events: map<string, StoredEvent>

    /** The record objects and their values. */
    ghost var repr: set<StoredEvent>
    ghost var records: map<string, Record>

    /** Every record is stored under its event's ID, and records tells the values. */
    ghost predicate Valid()
      reads this, repr
    {
      && records.Keys == events.Keys
      && (forall id | id in events :: events[id] in repr && events[id].event.id == id)
      && (forall id | id in events :: events[id].Value() == records[id])
    }

    /** The abstract state. */
    ghost function Model(): State
      reads this
    {
      State(transactions, records)
    }

    constructor ()
      ensures Valid() && Model() == EMPTY && repr == {}
    {
      transactions, events, records, repr := map[], map[], map[], {};
    }

    method Put(acceptance: Acceptance)
      requires Valid()
      modifies this
      ensures Valid() && fresh(repr - old(repr))
      ensures Model() == WithAcceptance(old(Model()), acceptance)
    {
      transactions := transactions[Key(acceptance.transaction) :=
        Identity(acceptance.fingerprint, acceptance.transaction.id, acceptance.event.id)];
      var record := new StoredEvent(acceptance.event);
      events := events[acceptance.event.id := record];
      records := records[acceptance.event.id := record.Value()];
      repr := repr + {record};
    }

    method Publish(id: string)
      requires Valid() && id in events
      modifies `records, repr
      ensures Valid()
      ensures id in old(records) && Model() == WithPublished(old(Model()), id)
    {
      var record := events[id];
      record.Publish();
      records := records[id := record.Value()];
    }

    method Fail(failure: PublishFailure)
      requires Valid() && failure.eventId in events
      modifies `records, repr
      ensures Valid()
      ensures failure.eventId in old(records) && Model() == WithFailure(old(Model()), failure)
    {
      var record := events[failure.eventId];
      record.Fail(failure);
      records := records[failure.eventId := record.Value()];
    }

    /** Leases one record in place and hands its event out, if it is due. */
    method Visit(id: string, now: Time, until: Time, token: string) returns (due: bool, pending: PendingEvent)
      requires Valid() && id in records
      modifies `records, repr
      ensures Valid() && transactions == old(transactions) && events == old(events) && repr == old(repr)
      ensures due == Due(old(records)[id], now)
      ensures pending == PendingEvent(old(records)[id].event, old(records)[id].attempts, token)
      ensures records == if due then old(records)[id := old(records)[id].(leaseUntil := until, claimToken := token)] else old(records)
    {
      var record := events[id];
      pending := PendingEvent(record.event, record.attempts, token);
      if record.published || record.terminal || record.retryAt > now || record.leaseUntil > now {
        return false, pending;
      }
      due := true;
      record.Lease(until, token);
      records := records[id := record.Value()];
    }

    /** The loop of a claim over the sorted IDs; a limit of zero is never reached. */
    method Scan(now: Time, until: Time, limit: nat, tokens: seq<string>) returns (claimed: seq<PendingEvent>)
      requires Valid() && |events| <= |tokens|
      modifies `records, repr
      ensures Valid()
      ensures Known(Selected(old(records), now, limit), old(records))
      ensures |Selected(old(records), now, limit)| <= |tokens|
      ensures (Model(), claimed) == Take(old(Model()), Selected(old(records), now, limit), until, tokens)
    {
      hide Scanned, Selected, Known, Take, Due;
      ghost var before, identities := records, transactions;
      var ids := SortStrings(events.Keys);
      SortedIds(before, ids);
      claimed := [];
      ScanStart(before, ids, now, until, tokens);
      var i := 0;
      while i < |ids|
        invariant i <= |ids| && (limit == 0 || |claimed| < limit)
        invariant Valid() && transactions == identities && repr == old(repr)
        invariant Scanned(before, ids, i, now, until, tokens, claimed, records)
      {
        NextCandidate(before, ids, i, now, until, tokens, claimed, records);
        var due, pending := Visit(ids[i], now, until, tokens[|claimed|]);
        i := i + 1;
        if !due {
          continue;
        }
        claimed := claimed + [pending];
        if |claimed| == limit {
          break;
        }
      }
      ScanDone(before, ids, i, now, until, tokens, claimed, records, limit, identities);
    }
  }

  /**
   A scan that visited the first i IDs has leased the due ones among them, in order, each
   under the next token, and has handed them out.
   */
  ghost predicate Scanned(
      before: map<string, Record>, ids: seq<string>, i: nat, now: Time, until: Time, tokens: seq<string>,
      claimed: seq<PendingEvent>, records: map<string, Record>)
  {
    && i <= |ids| <= |tokens| && Known(ids, before)
    && var taken := DueOf(ids[..i], before, now);
       claimed == Handed(before, taken, tokens) && records == Leased(before, taken, until, tokens)
  }

  lemma SortedIds(events: map<string, Record>, ids: seq<string>)
    requires ids == Sort(events.Keys)
    ensures |ids| == |events| && forall k | 0 <= k < |ids| :: ids[k] in events
  {
    SortedKnown(events);
    SortCorrect(events.Keys);
  }

  lemma ScanStart(before: map<string, Record>, ids: seq<string>, now: Time, until: Time, tokens: seq<string>)
    requires ids == Sort(before.Keys) && |ids| <= |tokens|
    ensures Scanned(before, ids, 0, now, until, tokens, [], before)
  {
    SortedKnown(before);
  }

  lemma NextCandidate(
      before: map<string, Record>, ids: seq<string>, i: nat, now: Time, until: Time, tokens: seq<string>,
      claimed: seq<PendingEvent>, records: map<string, Record>)
    requires i < |ids| && ids == Sort(before.Keys)
    requires Scanned(before, ids, i, now, until, tokens, claimed, records)
    ensures |claimed| < |tokens| && ids[i] in records
    ensures var r := records[ids[i]];
            if Due(r, now) then
              Scanned(before, ids, i + 1, now, until, tokens,
                claimed + [PendingEvent(r.event, r.attempts, tokens[|claimed|])],
                records[ids[i] := r.(leaseUntil := until, claimToken := tokens[|claimed|])])
            else Scanned(before, ids, i + 1, now, until, tokens, claimed, records)
  {
    var id := ids[i];
    var taken := DueOf(ids[..i], before, now);
    NotEarlier(before, ids, i);
    NotTaken(ids[..i], before, now, id);
    LeasedOther(before, taken, until, tokens, id);
    assert ids[..i + 1][..i] == ids[..i];
    if Due(before[id], now) {
      TakeOne(before, taken, id, until, tokens);
    }
  }

  lemma {:induction false} TakeOne(before: map<string, Record>, taken: seq<string>, id: string, until: Time, tokens: seq<string>)
    requires |taken| < |tokens| && Known(taken, before) && id in before
    ensures Handed(before, taken + [id], tokens) ==
            Handed(before, taken, tokens) + [PendingEvent(before[id].event, before[id].attempts, tokens[|taken|])]
    ensures Leased(before, taken + [id], until, tokens) ==
            Leased(before, taken, until, tokens)[id := before[id].(leaseUntil := until, claimToken := tokens[|taken|])]
  {
    assert (taken + [id])[..|taken|] == taken;
  }

  lemma NotEarlier(before: map<string, Record>, ids: seq<string>, i: nat)
    requires i < |ids| && ids == Sort(before.Keys)
    ensures ids[i] !in ids[..i]
  {
    SortCorrect(before.Keys);
    AscendingIsDistinct(ids);
    assert forall k | 0 <= k < i :: ids[..i][k] == ids[k];
  }

  /** An ID that is not in a list is not among its due ones. */
  lemma {:induction false} NotTaken(ids: seq<string>, events: map<string, Record>, now: Time, other: string)
    requires Known(ids, events) && other !in ids
    ensures other !in DueOf(ids, events, now)
  {
    if ids != [] {
      NotTaken(ids[..|ids| - 1], events, now, other);
      assert ids[|ids| - 1] != other;
    }
  }

  /** A scan that ran out of IDs or reached the limit took what the limit selects. */
  lemma ScanDone(
      before: map<string, Record>, ids: seq<string>, i: nat, now: Time, until: Time, tokens: seq<string>,
      claimed: seq<PendingEvent>, records: map<string, Record>, limit: nat, transactions: map<string, Identity>)
    requires ids == Sort(before.Keys) && Scanned(before, ids, i, now, until, tokens, claimed, records)
    requires (i == |ids| && (limit == 0 || |claimed| <= limit)) || 0 < limit == |claimed|
    ensures |Selected(before, now, limit)| <= |tokens|
    ensures (State(transactions, records), claimed) == Take(State(transactions, before), Selected(before, now, limit), until, tokens)
  {
    DueOfPrefix(ids, i, before, now);
    assert ids[..|ids|] == ids;
    assert DueOf(ids[..i], before, now) == Selected(before, now, limit);
  }

  /** The due IDs of a prefix are a prefix of the due IDs. */
  lemma {:induction false} DueOfPrefix(ids: seq<string>, n: nat, events: map<string, Record>, now: Time)
    requires n <= |ids| && Known(ids, events)
    ensures DueOf(ids[..n], events, now) <= DueOf(ids, events, now)
  {
    if n == |ids| {
      assert ids[..n] == ids;
    } else {
      var last := |ids| - 1;
      DueOfPrefix(ids[..last], n, events, now);
      assert ids[..last][..n] == ids[..n];
    }
  }
}
