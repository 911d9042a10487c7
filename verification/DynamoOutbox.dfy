/**
 The outbox items of the DynamoDB table: optional attributes, conditional updates, and the
 dispatch index that only holds items with the dispatch attributes. Times are compared as
 the texts they are stored as.
 */
module DynamoOutbox {
  import opened Wrappers
  import opened Ordering
  import opened Strings
  import opened Timestamps
  import opened Outbox
  import opened Columns

  /** Absent attributes are None; a time stands for the text of its timestamp. */
  datatype Item = Item(
    event: OutboxEvent,
    status: Status,
    attempts: int,
    dispatch: Option<string>,
    retryAt: Option<Time>,
    leaseUntil: Option<Time>,
    claimToken: Option<string>,
    publishedAt: Option<Time>,
    lastError: Option<string>)

  /** The outbox items by event ID. */
  type Items = map<string, Item>

  /** The sort key of the dispatch index. */
  function SortKey(event: OutboxEvent): string {
    Join(Timestamp(event.occurredAt), '#', event.id)
  }

  function NewItem(event: OutboxEvent): Item {
    Item(event, IsPending, 0, Some(SortKey(event)), None, None, None, None, None)
  }

  /** Absent or, compared as texts, not after now. */
  predicate Reached(t: Option<Time>, now: Time) {
    t.None? || DueByText(t.value, now)
  }

  /** The filter of the query and the condition of the lease. */
  predicate Claimable(item: Item, now: Time) {
    item.status == IsPending && Reached(item.retryAt, now) && Reached(item.leaseUntil, now)
  }

  /** The condition of a completion. */
  predicate HeldBy(items: Items, id: string, token: string) {
    id in items && items[id].status == IsPending && items[id].claimToken == Some(token)
  }

  // ----- Conditional changes; one whose condition fails changes nothing

  datatype Change =
    | Put(event: OutboxEvent)
    | Lease(id: string, now: Time, until: Time, token: string)
    | MarkPublished(id: string, token: string, at: Time)
    | RecordFailure(failure: PublishFailure)

  predicate Condition(items: Items, c: Change) {
    match c
    case Put(event) => event.id !in items
    case Lease(id, now, _, _) => id in items && Claimable(items[id], now)
    case MarkPublished(id, token, _) => HeldBy(items, id, token)
    case RecordFailure(f) => HeldBy(items, f.eventId, f.claimToken)
  }

  function FailedItem(item: Item, f: PublishFailure): Item {
    if f.terminal then
      item.(status := IsFailed, attempts := f.attempts, lastError := Some(f.reason),
            leaseUntil := None, claimToken := None, retryAt := None, dispatch := None)
    else
      item.(status := IsPending, attempts := f.attempts, retryAt := Some(f.retryAt), lastError := Some(f.reason),
            leaseUntil := None, claimToken := None)
  }

  function Changed(items: Items, c: Change): Items {
    if !Condition(items, c) then items
    else
      match c
      case Put(event) => items[event.id := NewItem(event)]
      case Lease(id, _, until, token) => items[id := items[id].(leaseUntil := Some(until), claimToken := Some(token))]
      case MarkPublished(id, _, at) =>
        items[id := items[id].(status := IsPublished, publishedAt := Some(at),
                               leaseUntil := None, claimToken := None, retryAt := None, dispatch := None)]
      case RecordFailure(f) => items[f.eventId := FailedItem(items[f.eventId], f)]
  }

  function ChangedAll(items: Items, changes: seq<Change>): Items {
    if changes == [] then items
    else Changed(ChangedAll(items, changes[..|changes| - 1]), changes[|changes| - 1])
  }

  // ----- What every reachable item looks like

  /**
   An item is in the dispatch index exactly while it is pending, under its own sort key; its
   lease and its token are present together, and only while it is pending.
   */
  ghost predicate ItemOk(id: string, item: Item) {
    && item.event.id == id
    && item.dispatch == (if item.status == IsPending then Some(SortKey(item.event)) else None)
    && (item.leaseUntil.Some? <==> item.claimToken.Some?)
    && (item.claimToken.Some? ==> item.status == IsPending)
    && (item.status == IsPublished <==> item.publishedAt.Some?)
  }

  ghost predicate ItemsOk(items: Items) {
    forall id | id in items :: ItemOk(id, items[id])
  }

  /** No change takes an item away, changes its event, or brings a finished one back. */
  ghost predicate Progresses(items: Items, after: Items) {
    forall id | id in items ::
      && id in after && after[id].event == items[id].event
      && (items[id].status != IsPending ==> after[id] == items[id])
  }

  lemma ChangeKeeps(items: Items, c: Change)
    requires ItemsOk(items)
    ensures ItemsOk(Changed(items, c)) && Progresses(items, Changed(items, c))
  {
    hide SortKey, Reached;
  }

  lemma ProgressesTransitive(a: Items, b: Items, c: Items)
    requires Progresses(a, b) && Progresses(b, c)
    ensures Progresses(a, c)
  {
  }

  lemma {:induction false} ChangesKeep(items: Items, changes: seq<Change>)
    requires ItemsOk(items)
    ensures ItemsOk(ChangedAll(items, changes)) && Progresses(items, ChangedAll(items, changes))
  {
    hide Changed, ItemsOk;
    if changes != [] {
      var front := changes[..|changes| - 1];
      ChangesKeep(items, front);
      ChangeKeeps(ChangedAll(items, front), changes[|changes| - 1]);
      ProgressesTransitive(items, ChangedAll(items, front), ChangedAll(items, changes));
    }
  }

  /** Whatever changes the table went through, an item is indexed exactly while pending, and token and lease go together. */
  lemma {:induction false} ReachableItems(changes: seq<Change>, id: string)
    requires id in ChangedAll(map[], changes)
    ensures var item := ChangedAll(map[], changes)[id];
            && (item.dispatch.Some? <==> item.status == IsPending)
            && (item.claimToken.Some? <==> item.leaseUntil.Some?)
  {
    ChangesKeep(map[], changes);
  }

  /** A token that is not the item's own is refused, and so is any token of a finished item. */
  lemma Fenced(items: Items, id: string, token: string, at: Time, f: PublishFailure)
    requires ItemsOk(items) && f.eventId == id && f.claimToken == token
    ensures Condition(items, MarkPublished(id, token, at)) == Condition(items, RecordFailure(f)) ==
            (id in items && items[id].claimToken == Some(token))
  {
  }

  // ----- Sort keys

  /** Different events have different sort keys, and equal keys come from one instant and one ID. */
  lemma SortKeyInjective(a: OutboxEvent, b: OutboxEvent)
    requires SortKey(a) == SortKey(b)
    ensures a.id == b.id && a.occurredAt == b.occurredAt
  {
    hide Timestamp;
    TimestampHasNoHash(a.occurredAt);
    TimestampHasNoHash(b.occurredAt);
    SameAtSeparator(Timestamp(a.occurredAt), a.id, Timestamp(b.occurredAt), b.id, '#');
    TimestampInjective(a.occurredAt, b.occurredAt);
  }

  /** The dispatch index holds events of different seconds in the order of their times. */
  lemma SortKeyOrder(a: OutboxEvent, b: OutboxEvent)
    requires InYears(a.occurredAt) && InYears(b.occurredAt) && a.occurredAt / SECOND < b.occurredAt / SECOND
    ensures Less(SortKey(a), SortKey(b)) && !Less(SortKey(b), SortKey(a))
  {
    hide Timestamp, InYears;
    FourDigitYearExactly(a.occurredAt);
    FourDigitYearExactly(b.occurredAt);
    OrderAcrossSeconds(a.occurredAt, b.occurredAt, "#" + a.id, "#" + b.id);
    LessAsymmetric(SortKey(a), SortKey(b));
  }

  // ----- The items as outbox records

  function RecordOf(item: Item): Record {
    RecordWith(item.event, item.status, item.attempts, item.retryAt, item.leaseUntil, item.claimToken)
  }

  /** The item an acceptance puts is a new outbox record: pending, without attempts, retry time or lease. */
  lemma NewItemIsNewRecord(event: OutboxEvent)
    ensures RecordOf(NewItem(event)) == NewRecord(event)
    ensures NewItem(event).dispatch == Some(SortKey(event)) && NewItem(event).claimToken.None?
    ensures NewItem(event).publishedAt.None? && NewItem(event).lastError.None?
  {
  }

  ghost predicate NoneLeases(changes: seq<Change>, id: string) {
    forall i | 0 <= i < |changes| && changes[i].Lease? :: changes[i].id != id
  }

  /**
   From its put until its first lease an item stays a new record in the dispatch index under
   its own sort key, and a lease at any time succeeds, whatever else happens to the table.
   */
  lemma {:induction false} WaitsForLease(items: Items, event: OutboxEvent, changes: seq<Change>, now: Time, until: Time, token: string)
    requires event.id !in items && NoneLeases(changes, event.id)
    ensures var after := ChangedAll(Changed(items, Put(event)), changes);
            && event.id in after && RecordOf(after[event.id]) == NewRecord(event)
            && after[event.id].dispatch == Some(SortKey(event))
            && Condition(after, Lease(event.id, now, until, token))
  {
    hide SortKey;
    NewItemStays(items, event, changes);
    NewItemIsNewRecord(event);
  }

  lemma {:induction false} NewItemStays(items: Items, event: OutboxEvent, changes: seq<Change>)
    requires event.id !in items && NoneLeases(changes, event.id)
    ensures var after := ChangedAll(Changed(items, Put(event)), changes);
            event.id in after && after[event.id] == NewItem(event)
  {
    hide SortKey, Reached;
    if changes != [] {
      var last := |changes| - 1;
      assert forall i | 0 <= i < last :: changes[..last][i] == changes[i];
      NewItemStays(items, event, changes[..last]);
    }
  }

  predicate FourDigits(item: Item) {
    && (item.retryAt.Some? ==> FourDigitYear(item.retryAt.value))
    && (item.leaseUntil.Some? ==> FourDigitYear(item.leaseUntil.value))
  }

  /**
   The text comparison takes an item less than a second before the outbox rules would, and
   from the next whole second on it takes every item they would.
   */
  lemma ClaimableWithinASecond(item: Item, now: Time)
    requires FourDigits(item) && FourDigitYear(now) && now >= SECOND
    ensures Claimable(item, now) ==> Due(RecordOf(item), now + SECOND - 1)
    ensures Due(RecordOf(item), now / SECOND * SECOND - 1) ==> Claimable(item, now)
  {
    hide DueByText, FourDigitYear;
    ReachedWithinASecond(item.retryAt, now);
    ReachedWithinASecond(item.leaseUntil, now);
  }

  lemma ReachedWithinASecond(t: Option<Time>, now: Time)
    requires (t.Some? ==> FourDigitYear(t.value)) && FourDigitYear(now) && now >= SECOND
    ensures Reached(t, now) ==> TimeOr(t) <= now + SECOND - 1
    ensures TimeOr(t) <= now / SECOND * SECOND - 1 ==> Reached(t, now)
  {
    if t.Some? {
      DueByTextWithinASecond(t.value, now);
      EarlierSecond(t.value, now);
    }
  }

  lemma EarlierSecond(t: Time, now: Time)
    ensures t <= now / SECOND * SECOND - 1 ==> t / SECOND < now / SECOND
  {
  }

  /** A completion as the store answers it: a failed condition is a lost lease. */
  function UpdateOutcome(items: Items, c: Change): (Items, Option<StoreError>) {
    (Changed(items, c), if Condition(items, c) then None else Some(LeaseLost))
  }

  /** An item and a record that agree in all but the retry time of a finished one, which DynamoDB removes. */
  ghost predicate Agree(items: Items, s: State, id: string) {
    id in items && id in s.events &&
    var a, b := RecordOf(items[id]), s.events[id];
    a == b.(retryAt := a.retryAt) && (Pending(a) ==> a.retryAt == b.retryAt)
  }

  /** On a known item and with a real token both completions do to the item what the outbox rules do to its record. */
  lemma CompletionsAgree(items: Items, s: State, f: PublishFailure, at: Time)
    requires ItemsOk(items) && Agree(items, s, f.eventId) && f.claimToken != "" && items[f.eventId].claimToken != Some("")
    ensures var (after, error) := UpdateOutcome(items, MarkPublished(f.eventId, f.claimToken, at));
            var (expected, answer) := Outbox.MarkPublished(s, f.eventId, f.claimToken);
            && error == answer && Agree(after, expected, f.eventId)
            && (error == None ==> after[f.eventId].publishedAt == Some(at))
    ensures var (after, error) := UpdateOutcome(items, RecordFailure(f));
            var (expected, answer) := Outbox.RecordFailure(s, f);
            && error == answer && Agree(after, expected, f.eventId)
            && (error == None ==> after[f.eventId].lastError == Some(f.reason))
  {
    hide SortKey;
    assert ItemOk(f.eventId, items[f.eventId]);
  }
}
