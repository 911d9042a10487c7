/**
 Claiming on DynamoDB: pages of a filtered index query, and one conditional update for
 each item on a page. Other clients may change the table before every call; every call
 may fail.
 */
module DynamoClaims {
  import opened Wrappers
  import opened Ordering
  import opened Timestamps
  import opened Outbox
  import opened Columns
  import opened DynamoOutbox

  /** What the calls of a claim did: an index entry that a query evaluated, or a conditional update. */
  datatype Trace =
    | Evaluated(id: string, seen: Item)
    | Attempted(id: string, token: string, until: Time, found: Option<Item>, leased: bool)

  /** The items that passed the filter, and the key of the last entry if there may be more. */
  datatype Page = Page(items: seq<Item>, next: Option<string>)

  /** The IDs in the dispatch index. */
  function Indexed(items: Items): set<string> {
    set id | id in items && items[id].dispatch.Some?
  }

  /** The sort keys of the entries behind a cursor. */
  function KeysBehind(items: Items, cursor: Option<string>): set<string> {
    set id | id in items && items[id].dispatch.Some? && Behind(items[id].dispatch.value, cursor) :: items[id].dispatch.value
  }

  predicate Behind(key: string, cursor: Option<string>) {
    cursor.None? || Less(cursor.value, key)
  }

  /** The items of the listed IDs that pass the filter. */
  function Filtered(items: Items, ids: seq<string>, now: Time): (page: seq<Item>)
    requires forall k | 0 <= k < |ids| :: ids[k] in items
  {
    if ids == [] then []
    else
      var last := |ids| - 1;
      var front := Filtered(items, ids[..last], now);
      if Claimable(items[ids[last]], now) then front + [items[ids[last]]] else front
  }

  function Evaluations(items: Items, ids: seq<string>): (trace: seq<Trace>)
    requires forall k | 0 <= k < |ids| :: ids[k] in items
    ensures |trace| == |ids| && forall k | 0 <= k < |ids| :: trace[k] == Evaluated(ids[k], items[ids[k]])
  {
    seq(|ids|, k requires 0 <= k < |ids| => Evaluated(ids[k], items[ids[k]]))
  }

  /**
   A page read in index order: the entries right behind the cursor, at most as many as the
   limit, cut off where DynamoDB likes; without a next key nothing is left behind it.
   */
  ghost predicate PageOf(items: Items, cursor: Option<string>, limit: nat, ids: seq<string>, next: Option<string>) {
    && |ids| <= limit
    && (forall k | 0 <= k < |ids| :: ids[k] in items && items[ids[k]].dispatch.Some? && Behind(items[ids[k]].dispatch.value, cursor))
    && (forall j, k | 0 <= j < k < |ids| :: Less(items[ids[j]].dispatch.value, items[ids[k]].dispatch.value))
    && (next.Some? ==> ids != [] && next == items[ids[|ids| - 1]].dispatch)
    && (forall id | id in items && items[id].dispatch.Some? && Behind(items[id].dispatch.value, cursor)
          && (next.None? || !Less(next.value, items[id].dispatch.value)) :: id in ids)
  }

  class Table {
    var items: Items

    /** What other clients do before the calls, call by call, and which calls fail. */
    const script: seq<seq<Change>>
    const failing: set<nat>

    var calls: nat
    ghost var trace: seq<Trace>

    ghost predicate Valid()
      reads this
    {
      ItemsOk(items)
    }

    constructor (items: Items, script: seq<seq<Change>>, failing: set<nat>)
      requires ItemsOk(items)
      ensures Valid() && this.items == items && this.script == script && this.failing == failing && calls == 0 && trace == []
    {
      this.items, this.script, this.failing, calls, trace := items, script, failing, 0, [];
    }

    /** What the other clients do before a call. */
    function Turn(call: nat): seq<Change> {
      if call < |script| then script[call] else []
    }

    /** Before a call the other clients get their turn. */
    method Interfere() returns (fails: bool)
      requires Valid()
      modifies `items, `calls
      ensures Valid() && calls == old(calls) + 1 && Progresses(old(items), items)
      ensures items == ChangedAll(old(items), Turn(old(calls))) && (old(calls) >= |script| ==> items == old(items))
      ensures fails <==> old(calls) in failing
    {
      var changes := Turn(calls);
      ChangesKeep(items, changes);
      items := ChangedAll(items, changes);
      fails := calls in failing;
      calls := calls + 1;
    }

    /** One page of the index query with the filter on status, retry time and lease. */
    method Query(cursor: Option<string>, limit: nat, now: Time)
      returns (page: Result<Page, StoreError>, ghost ids: seq<string>)
      requires Valid() && limit > 0
      modifies `items, `calls, `trace
      ensures Valid() && calls == old(calls) + 1 && Progresses(old(items), items)
      ensures items == ChangedAll(old(items), Turn(old(calls))) && (old(calls) >= |script| ==> items == old(items))
      ensures page.Failure? <==> old(calls) in failing
      ensures page.Failure? ==> page == Failure(Unavailable) && trace == old(trace)
      ensures page.Success? ==>
        && PageOf(items, cursor, limit, ids, page.value.next)
        && page.value.items == Filtered(items, ids, now)
        && trace == old(trace) + Evaluations(items, ids)
    {
      hide ItemsOk, Progresses, PageOf, Filtered, SortKey, Less;
      ids := [];
      var fails := Interfere();
      if fails {
        return Failure(Unavailable), [];
      }
      var keys := SortStrings(KeysBehind(items, cursor));
      SortCorrect(KeysBehind(items, cursor));
      var cut: nat :| cut <= |keys| && cut <= limit && (cut == 0 ==> keys == []);
      var more: bool := *;
      var entries := EntriesOf(items, cursor, keys, cut);
      ids := entries;
      var next := if cut > 0 && (more || cut < |keys|) then Some(keys[cut - 1]) else None;
      PageIsOf(items, cursor, limit, keys, cut, next, ids);
      trace := trace + Evaluations(items, ids);
      page := Success(Page(Filtered(items, entries, now), next));
    }

    /** The conditional update that leases one item; a failed call may have landed. */
    method LeaseItem(id: string, now: Time, until: Time, token: string) returns (leased: Result<bool, StoreError>)
      requires Valid()
      modifies `items, `calls, `trace
      ensures Valid() && calls == old(calls) + 1 && Progresses(old(items), items)
      ensures old(calls) >= |script| ==> Indexed(items) == Indexed(old(items))
      ensures leased.Failure? <==> old(calls) in failing
      ensures leased.Failure? ==> leased == Failure(Unavailable) && trace == old(trace)
      ensures var before := ChangedAll(old(items), Turn(old(calls)));
              items == Changed(before, Lease(id, now, until, token)) || (leased.Failure? && items == before)
      ensures leased.Success? ==>
        && |trace| == |old(trace)| + 1 && trace[..|old(trace)|] == old(trace)
        && var t := trace[|old(trace)|];
           && t.Attempted? && t.id == id && t.token == token && t.until == until && t.leased == leased.value
           && t.leased == (t.found.Some? && Claimable(t.found.value, now))
           && (t.leased ==> id in items && items[id] == t.found.value.(leaseUntil := Some(until), claimToken := Some(token)))
           && (t.found.Some? && id in old(items) ==> t.found.value.event == old(items)[id].event)
           && var before := ChangedAll(old(items), Turn(old(calls)));
              t.found == if id in before then Some(before[id]) else None
    {
      hide ItemsOk, Progresses, Claimable, SortKey, ChangedAll;
      var fails := Interfere();
      ghost var before := items;
      ghost var found := if id in items then Some(items[id]) else None;
      var change := Lease(id, now, until, token);
      var holds := Condition(items, change);
      var lands: bool := *;
      LeaseEffect(items, id, now, until, token);
      if id in old(items) {
        SameEvent(old(items), items, id);
      }
      ProgressesTransitive(old(items), items, Changed(items, change));
      if !fails || lands {
        items := Changed(items, change);
      }
      if fails {
        return Failure(Unavailable);
      }
      trace := trace + [Attempted(id, token, until, found, holds)];
      leased := Success(holds);
    }
  }

  /** Whether one of these calls failed. */
  ghost predicate SomeFailed(failing: set<nat>, from: nat, to: nat) {
    exists c | from <= c < to :: c in failing
  }

  /** What a lease does to the table: it never touches the index. */
  lemma LeaseEffect(items: Items, id: string, now: Time, until: Time, token: string)
    requires ItemsOk(items)
    ensures var after := Changed(items, Lease(id, now, until, token));
            && ItemsOk(after) && Progresses(items, after) && Indexed(after) == Indexed(items)
            && (Condition(items, Lease(id, now, until, token)) ==>
                  id in after && after[id] == items[id].(leaseUntil := Some(until), claimToken := Some(token)))
  {
    hide SortKey, Claimable;
    ChangeKeeps(items, Lease(id, now, until, token));
  }

  lemma SameEvent(items: Items, after: Items, id: string)
    requires Progresses(items, after) && id in items
    ensures id in after && after[id].event == items[id].event
  {
  }

  function EntriesOf(items: Items, cursor: Option<string>, keys: seq<string>, cut: nat): (ids: seq<string>)
    requires ItemsOk(items) && Elements(keys) == KeysBehind(items, cursor) && cut <= |keys|
    ensures |ids| == cut
    ensures forall k | 0 <= k < cut :: ids[k] in items && items[ids[k]].dispatch == Some(keys[k]) && Behind(keys[k], cursor)
  {
    seq(cut, k requires 0 <= k < cut => IdOf(items, cursor, keys, k))
  }

  /** The ID behind a sort key. */
  function IdOf(items: Items, cursor: Option<string>, keys: seq<string>, k: nat): (id: string)
    requires ItemsOk(items) && Elements(keys) == KeysBehind(items, cursor) && k < |keys|
    ensures id in items && items[id].dispatch == Some(keys[k]) && Behind(keys[k], cursor)
  {
    assert keys[k] in KeysBehind(items, cursor);
    KeyHasOneId(items, keys[k]);
    var id :| id in items && items[id].dispatch == Some(keys[k]);
    id
  }

  lemma KeyHasOneId(items: Items, key: string)
    requires ItemsOk(items)
    ensures forall a, b | a in items && b in items && items[a].dispatch == Some(key) && items[b].dispatch == Some(key) :: a == b
  {
    hide SortKey;
    forall a, b | a in items && b in items && items[a].dispatch == Some(key) && items[b].dispatch == Some(key) ensures a == b {
      SortKeyInjective(items[a].event, items[b].event);
    }
  }

  lemma PageIsOf(
      items: Items, cursor: Option<string>, limit: nat, keys: seq<string>, cut: nat, next: Option<string>, ids: seq<string>)
    requires ItemsOk(items) && keys == Sort(KeysBehind(items, cursor)) && cut <= |keys| && cut <= limit
    requires |ids| == cut && forall k | 0 <= k < cut ::
               ids[k] in items && items[ids[k]].dispatch == Some(keys[k]) && Behind(keys[k], cursor)
    requires if next.Some? then cut > 0 && next.value == keys[cut - 1] else cut == |keys|
    ensures PageOf(items, cursor, limit, ids, next)
  {
    hide SortKey, Less;
    SortCorrect(KeysBehind(items, cursor));
    forall id | id in items && items[id].dispatch.Some? && Behind(items[id].dispatch.value, cursor)
                && (next.None? || !Less(next.value, items[id].dispatch.value))
      ensures id in ids
    {
      var key := items[id].dispatch.value;
      assert key in KeysBehind(items, cursor) && key in Elements(keys);
      var m :| 0 <= m < |keys| && keys[m] == key;
      assert m < cut;
      KeyHasOneId(items, key);
      assert ids[m] == id;
    }
  }

  // ----- Claiming

  /** A query saw the event with the attempts that the claim returns. */
  ghost predicate SeenAs(trace: seq<Trace>, base: nat, p: PendingEvent) {
    exists m | base <= m < |trace| ::
      trace[m].Evaluated? && trace[m].id == p.event.id && trace[m].seen.event == p.event && trace[m].seen.attempts == p.attempts
  }

  /** A conditional update leased the event under its token while it was pending and due. */
  ghost predicate Leased(trace: seq<Trace>, base: nat, p: PendingEvent, now: Time, until: Time) {
    exists m | base <= m < |trace| ::
      && trace[m].Attempted? && trace[m].leased && trace[m].id == p.event.id && trace[m].token == p.claimToken
      && trace[m].until == until
      && trace[m].found.Some? && trace[m].found.value.event == p.event && Claimable(trace[m].found.value, now)
  }

  /** The update that leased it is in the claims: same event, same token, and the event could be decoded. */
  ghost predicate ReturnedAs(t: Trace, claimed: seq<PendingEvent>) {
    t.Attempted? && exists k | 0 <= k < |claimed| ::
      && claimed[k].event.id == t.id && claimed[k].claimToken == t.token
      && t.found.Some? && t.found.value.event == claimed[k].event && EventDecodable(claimed[k].event)
  }

  /** Every lease that was taken is returned. */
  ghost predicate LeasesReturned(trace: seq<Trace>, base: nat, claimed: seq<PendingEvent>) {
    forall m | base <= m < |trace| && trace[m].Attempted? && trace[m].leased :: ReturnedAs(trace[m], claimed)
  }

  /** An update leased an event that cannot be decoded. */
  ghost predicate LeasedUndecodable(trace: seq<Trace>, base: nat) {
    exists m | base <= m < |trace| ::
      trace[m].Attempted? && trace[m].leased && trace[m].found.Some? && !EventDecodable(trace[m].found.value.event)
  }

  ghost predicate AllLeased(trace: seq<Trace>, base: nat, claimed: seq<PendingEvent>, now: Time, until: Time) {
    forall k | 0 <= k < |claimed| :: SeenAs(trace, base, claimed[k]) && Leased(trace, base, claimed[k], now, until)
  }

  /** The claimed events ascend by their sort keys, so no event is claimed twice. */
  ghost predicate InKeyOrder(claimed: seq<PendingEvent>) {
    forall j, k | 0 <= j < k < |claimed| :: Less(SortKey(claimed[j].event), SortKey(claimed[k].event))
  }

  /** Tokens are drawn one after the other, some of them for updates that were raced. */
  ghost predicate DrawnFrom(claimed: seq<PendingEvent>, tokens: nat -> string, draws: seq<nat>, drawn: nat) {
    && |draws| == |claimed|
    && (forall k | 0 <= k < |draws| :: draws[k] < drawn && claimed[k].claimToken == tokens(draws[k]))
    && (forall j, k | 0 <= j < k < |draws| :: draws[j] < draws[k])
  }

  ghost predicate AttemptedIn(trace: seq<Trace>, from: nat, id: string) {
    exists m | from <= m < |trace| :: trace[m].Attempted? && trace[m].id == id
  }

  /** An entry that a query evaluated and, unless the filter left it out, an update was attempted on. */
  ghost predicate Visited(trace: seq<Trace>, base: nat, id: string, now: Time) {
    exists m | base <= m < |trace| ::
      && trace[m].Evaluated? && trace[m].id == id
      && (Claimable(trace[m].seen, now) ==> AttemptedIn(trace, m + 1, id))
  }

  lemma SeenStays(trace: seq<Trace>, longer: seq<Trace>, base: nat, p: PendingEvent)
    requires SeenAs(trace, base, p) && trace <= longer
    ensures SeenAs(longer, base, p)
  {
    var m :| base <= m < |trace|
      && trace[m].Evaluated? && trace[m].id == p.event.id && trace[m].seen.event == p.event && trace[m].seen.attempts == p.attempts;
    assert longer[m] == trace[m];
  }

  lemma LeaseStays(trace: seq<Trace>, longer: seq<Trace>, base: nat, p: PendingEvent, now: Time, until: Time)
    requires Leased(trace, base, p, now, until) && trace <= longer
    ensures Leased(longer, base, p, now, until)
  {
    var m :| base <= m < |trace|
      && trace[m].Attempted? && trace[m].leased && trace[m].id == p.event.id && trace[m].token == p.claimToken
      && trace[m].until == until
      && trace[m].found.Some? && trace[m].found.value.event == p.event && Claimable(trace[m].found.value, now);
    assert longer[m] == trace[m];
  }

  lemma LeasedStays(
      trace: seq<Trace>, longer: seq<Trace>, base: nat, claimed: seq<PendingEvent>, now: Time, until: Time)
    requires AllLeased(trace, base, claimed, now, until) && trace <= longer
    ensures AllLeased(longer, base, claimed, now, until)
  {
    hide SeenAs, Leased;
    forall k | 0 <= k < |claimed| ensures SeenAs(longer, base, claimed[k]) && Leased(longer, base, claimed[k], now, until) {
      SeenStays(trace, longer, base, claimed[k]);
      LeaseStays(trace, longer, base, claimed[k], now, until);
    }
  }

  lemma AttemptedStays(trace: seq<Trace>, longer: seq<Trace>, from: nat, id: string)
    requires AttemptedIn(trace, from, id) && trace <= longer
    ensures AttemptedIn(longer, from, id)
  {
    var m :| from <= m < |trace| && trace[m].Attempted? && trace[m].id == id;
    assert longer[m] == trace[m];
  }

  lemma VisitedStays(trace: seq<Trace>, longer: seq<Trace>, base: nat, id: string, now: Time)
    requires Visited(trace, base, id, now) && trace <= longer
    ensures Visited(longer, base, id, now)
  {
    var m :| base <= m < |trace| && trace[m].Evaluated? && trace[m].id == id
      && (Claimable(trace[m].seen, now) ==> AttemptedIn(trace, m + 1, id));
    assert longer[m] == trace[m];
    if Claimable(trace[m].seen, now) {
      AttemptedStays(trace, longer, m + 1, id);
    }
  }

  /** The claims so far: the leases of this call and all of them, in key order, under tokens drawn one after the other. */
  ghost predicate ClaimsOk(
      trace: seq<Trace>, base: nat, claimed: seq<PendingEvent>, now: Time, until: Time, tokens: nat -> string, draws: seq<nat>, drawn: nat)
  {
    && base <= |trace| && AllLeased(trace, base, claimed, now, until) && LeasesReturned(trace, base, claimed)
    && InKeyOrder(claimed) && DrawnFrom(claimed, tokens, draws, drawn)
  }

  lemma NoMore(
      trace: seq<Trace>, longer: seq<Trace>, base: nat, claimed: seq<PendingEvent>, now: Time, until: Time,
      tokens: nat -> string, draws: seq<nat>, drawn: nat, more: nat)
    requires ClaimsOk(trace, base, claimed, now, until, tokens, draws, drawn) && trace <= longer && drawn <= more
    requires forall m | |trace| <= m < |longer| :: !(longer[m].Attempted? && longer[m].leased)
    ensures ClaimsOk(longer, base, claimed, now, until, tokens, draws, more)
  {
    hide AllLeased, ReturnedAs;
    LeasedStays(trace, longer, base, claimed, now, until);
    assert forall m | base <= m < |trace| :: longer[m] == trace[m];
  }

  lemma OneMore(
      trace: seq<Trace>, longer: seq<Trace>, base: nat, claimed: seq<PendingEvent>, now: Time, until: Time,
      tokens: nat -> string, draws: seq<nat>, drawn: nat, p: PendingEvent)
    requires ClaimsOk(trace, base, claimed, now, until, tokens, draws, drawn)
    requires trace <= longer && |longer| == |trace| + 1 && p.claimToken == tokens(drawn)
    requires var t := longer[|trace|];
             && t.Attempted? && t.leased && t.id == p.event.id && t.token == p.claimToken && t.until == until
             && t.found.Some? && t.found.value.event == p.event && Claimable(t.found.value, now)
    requires ClaimedBefore(claimed, SortKey(p.event)) && SeenAs(trace, base, p) && EventDecodable(p.event)
    ensures ClaimsOk(longer, base, claimed + [p], now, until, tokens, draws + [drawn], drawn + 1)
  {
    hide SortKey, Less, Claimable, SeenAs, EventDecodable, LeasesReturned;
    SeenStays(trace, longer, base, p);
    LeasedStays(trace, longer, base, claimed, now, until);
    assert Leased(longer, base, p, now, until);
    OneMoreReturned(trace, longer, base, claimed, p);
  }

  lemma OneMoreReturned(trace: seq<Trace>, longer: seq<Trace>, base: nat, claimed: seq<PendingEvent>, p: PendingEvent)
    requires LeasesReturned(trace, base, claimed) && trace <= longer && |longer| == |trace| + 1
    requires var t := longer[|trace|];
             t.Attempted? && t.id == p.event.id && t.token == p.claimToken && t.found.Some? && t.found.value.event == p.event
    requires EventDecodable(p.event)
    ensures LeasesReturned(longer, base, claimed + [p])
  {
    hide EventDecodable;
    forall m | base <= m < |longer| && longer[m].Attempted? && longer[m].leased ensures ReturnedAs(longer[m], claimed + [p]) {
      if m < |trace| {
        assert longer[m] == trace[m];
        var k :| 0 <= k < |claimed|
          && claimed[k].event.id == trace[m].id && claimed[k].claimToken == trace[m].token
          && trace[m].found.Some? && trace[m].found.value.event == claimed[k].event && EventDecodable(claimed[k].event);
        assert (claimed + [p])[k] == claimed[k];
      } else {
        assert (claimed + [p])[|claimed|] == p;
      }
    }
  }

  /** Where the claims come from. */
  ghost predicate FromPage(claimed: seq<PendingEvent>, before: seq<PendingEvent>, page: seq<Item>) {
    forall k | 0 <= k < |claimed| :: claimed[k] in before || exists i :: 0 <= i < |page| && claimed[k].event == page[i].event
  }

  lemma OneFromPage(claimed: seq<PendingEvent>, before: seq<PendingEvent>, page: seq<Item>, i: nat, p: PendingEvent)
    requires FromPage(claimed, before, page) && i < |page| && p.event == page[i].event
    ensures FromPage(claimed + [p], before, page)
  {
  }

  /** The claims are all in front of the rest of the page. */
  ghost predicate InFront(claimed: seq<PendingEvent>, page: seq<Item>, i: nat) {
    forall k | i <= k < |page| :: ClaimedBefore(claimed, SortKey(page[k].event))
  }

  lemma OneInFront(claimed: seq<PendingEvent>, page: seq<Item>, i: nat, p: PendingEvent)
    requires InFront(claimed, page, i) && PageInOrder(page) && i < |page| && p.event == page[i].event
    ensures InFront(claimed, page, i + 1) && InFront(claimed + [p], page, i + 1)
  {
    hide SortKey, Less;
  }

  lemma InFrontOf(claimed: seq<PendingEvent>, page: seq<Item>, i: nat)
    requires InFront(claimed, page, i) && i < |page|
    ensures ClaimedBefore(claimed, SortKey(page[i].event))
  {
  }

  /** The first items of the page were attempted. */
  ghost predicate PageAttempted(trace: seq<Trace>, from: nat, page: seq<Item>, i: nat) {
    i <= |page| && forall k | 0 <= k < i :: AttemptedIn(trace, from, page[k].event.id)
  }

  lemma OneAttempted(trace: seq<Trace>, longer: seq<Trace>, from: nat, page: seq<Item>, i: nat)
    requires PageAttempted(trace, from, page, i) && i < |page| && from <= |trace| && trace <= longer && |longer| == |trace| + 1
    requires longer[|trace|].Attempted? && longer[|trace|].id == page[i].event.id
    ensures PageAttempted(longer, from, page, i + 1)
  {
    forall k | 0 <= k < i ensures AttemptedIn(longer, from, page[k].event.id) {
      AttemptedStays(trace, longer, from, page[k].event.id);
    }
  }

  /** The items of a page in the order of their keys. */
  ghost predicate PageInOrder(page: seq<Item>) {
    forall j, k | 0 <= j < k < |page| :: Less(SortKey(page[j].event), SortKey(page[k].event))
  }

  ghost predicate ClaimedBefore(claimed: seq<PendingEvent>, key: string) {
    forall k | 0 <= k < |claimed| :: Less(SortKey(claimed[k].event), key)
  }

  /** The items of a page are items of the table, whatever changed about them since. */
  ghost predicate PageOfTable(page: seq<Item>, items: Items) {
    forall i | 0 <= i < |page| :: page[i].event.id in items && items[page[i].event.id].event == page[i].event
  }

  /** A query saw the items of the page. */
  ghost predicate PageSeen(trace: seq<Trace>, base: nat, page: seq<Item>) {
    forall i | 0 <= i < |page| :: forall token :: SeenAs(trace, base, PendingEvent(page[i].event, page[i].attempts, token))
  }

  lemma ItemSeen(trace: seq<Trace>, longer: seq<Trace>, base: nat, page: seq<Item>, i: nat, token: string)
    requires PageSeen(trace, base, page) && i < |page| && trace <= longer
    ensures SeenAs(longer, base, PendingEvent(page[i].event, page[i].attempts, token))
  {
    SeenStays(trace, longer, base, PendingEvent(page[i].event, page[i].attempts, token));
  }

  /** The conditional updates for one page, until the limit is reached. */
  method LeasePage(
      table: Table, page: seq<Item>, now: Time, until: Time, limit: nat, tokens: nat -> string,
      before: seq<PendingEvent>, first: nat, ghost firstDraws: seq<nat>, ghost base: nat)
    returns (result: Result<seq<PendingEvent>, StoreError>, drawn: nat, ghost draws: seq<nat>)
    requires table.Valid() && |before| < limit && base <= |table.trace| && PageOfTable(page, table.items)
    requires PageInOrder(page) && InFront(before, page, 0) && PageSeen(table.trace, base, page)
    requires ClaimsOk(table.trace, base, before, now, until, tokens, firstDraws, first)
    modifies table`items, table`calls, table`trace
    ensures table.Valid() && Progresses(old(table.items), table.items) && table.calls >= old(table.calls)
    ensures old(table.calls) >= |table.script| ==> Indexed(table.items) == Indexed(old(table.items))
    ensures old(table.trace) <= table.trace
    ensures result.Success? ==>
      && |result.value| <= limit && ClaimsOk(table.trace, base, result.value, now, until, tokens, draws, drawn)
      && FromPage(result.value, before, page)
      && (|result.value| < limit ==> PageAttempted(table.trace, |old(table.trace)|, page, |page|))
    ensures result == Failure(Undecodable) ==> LeasedUndecodable(table.trace, base)
    ensures result.Failure? ==> result.error == Unavailable || result.error == Undecodable
    ensures result == Failure(Unavailable) <==> SomeFailed(table.failing, old(table.calls), table.calls)
  {
    hide ItemsOk, Progresses, ClaimsOk, FromPage, InFront, PageAttempted, PageInOrder, PageSeen, SeenAs, SortKey, Claimable, EventDecodable;
    var claimed := before;
    drawn, draws := first, firstDraws;
    PageStart(table.items, table.trace, before, page);
    var i := 0;
    while i < |page|
      invariant i <= |page| && |claimed| < limit
      invariant table.Valid() && Progresses(old(table.items), table.items) && table.calls >= old(table.calls)
      invariant !SomeFailed(table.failing, old(table.calls), table.calls)
      invariant old(table.calls) >= |table.script| ==> Indexed(table.items) == Indexed(old(table.items))
      invariant old(table.trace) <= table.trace
      invariant ClaimsOk(table.trace, base, claimed, now, until, tokens, draws, drawn)
      invariant InFront(claimed, page, i) && FromPage(claimed, before, page)
      invariant PageAttempted(table.trace, |old(table.trace)|, page, i)
    {
      var item := page[i];
      var claimToken := tokens(drawn);
      ghost var earlier, known := table.trace, table.items;
      var leased := table.LeaseItem(item.event.id, now, until, claimToken);
      ProgressesTransitive(old(table.items), known, table.items);
      if leased.Failure? {
        return Failure(leased.error), drawn, draws;
      }
      var pending := PendingEvent(item.event, item.attempts, claimToken);
      OneAttempted(earlier, table.trace, |old(table.trace)|, page, i);
      InFrontOf(claimed, page, i);
      OneInFront(claimed, page, i, pending);
      i := i + 1;
      if !leased.value {
        NoMore(earlier, table.trace, base, claimed, now, until, tokens, draws, drawn, drawn + 1);
        drawn := drawn + 1;
        continue;
      }
      SameEvent(old(table.items), known, item.event.id);
      if !EventDecodable(item.event) {
        assert table.trace[|earlier|].found.value.event == item.event;
        return Failure(Undecodable), drawn + 1, draws;
      }
      ItemSeen(old(table.trace), earlier, base, page, i - 1, claimToken);
      OneMore(earlier, table.trace, base, claimed, now, until, tokens, draws, drawn, pending);
      OneFromPage(claimed, before, page, i - 1, pending);
      claimed, draws, drawn := claimed + [pending], draws + [drawn], drawn + 1;
      if |claimed| == limit {
        break;
      }
    }
    result := Success(claimed);
  }

  lemma PageStart(items: Items, trace: seq<Trace>, before: seq<PendingEvent>, page: seq<Item>)
    ensures Progresses(items, items) && FromPage(before, before, page) && PageAttempted(trace, |trace|, page, 0)
  {
  }

  // ----- Page after page

  ghost predicate Among(item: Item, items: Items, ids: seq<string>)
    requires forall k | 0 <= k < |ids| :: ids[k] in items
  {
    exists k | 0 <= k < |ids| :: item == items[ids[k]]
  }

  lemma AmongMore(item: Item, items: Items, ids: seq<string>)
    requires (forall k | 0 <= k < |ids| :: ids[k] in items) && ids != [] && Among(item, items, ids[..|ids| - 1])
    ensures Among(item, items, ids)
  {
    var front := ids[..|ids| - 1];
    var k :| 0 <= k < |front| && item == items[front[k]];
    assert item == items[ids[k]];
  }

  /** The items of a page are items of its IDs. */
  lemma {:induction false} FilteredItems(items: Items, ids: seq<string>, now: Time)
    requires forall k | 0 <= k < |ids| :: ids[k] in items
    ensures forall i | 0 <= i < |Filtered(items, ids, now)| :: Among(Filtered(items, ids, now)[i], items, ids)
  {
    hide Claimable;
    if ids != [] {
      var last := |ids| - 1;
      FilteredItems(items, ids[..last], now);
      var front, page := Filtered(items, ids[..last], now), Filtered(items, ids, now);
      forall i | 0 <= i < |page| ensures Among(page[i], items, ids) {
        if i < |front| {
          assert page[i] == front[i];
          AmongMore(page[i], items, ids);
        } else {
          assert page[i] == items[ids[last]];
        }
      }
    }
  }

  /** An item that passes the filter is on the page. */
  lemma FilteredHas(items: Items, ids: seq<string>, k: nat, now: Time) returns (i: nat)
    requires (forall m | 0 <= m < |ids| :: ids[m] in items) && k < |ids| && Claimable(items[ids[k]], now)
    ensures i < |Filtered(items, ids, now)| && Filtered(items, ids, now)[i] == items[ids[k]]
  {
    hide Claimable;
    var last := |ids| - 1;
    if k < last {
      assert ids[..last][k] == ids[k];
      i := FilteredHas(items, ids[..last], k, now);
    } else {
      i := |Filtered(items, ids[..last], now)|;
    }
  }

  lemma {:induction false} FilteredInOrder(items: Items, ids: seq<string>, now: Time)
    requires ItemsOk(items) && forall k | 0 <= k < |ids| :: ids[k] in items && items[ids[k]].dispatch.Some?
    requires forall j, k | 0 <= j < k < |ids| :: Less(items[ids[j]].dispatch.value, items[ids[k]].dispatch.value)
    ensures PageInOrder(Filtered(items, ids, now))
  {
    hide Claimable, Less, SortKey;
    if ids != [] {
      var last := |ids| - 1;
      FilteredInOrder(items, ids[..last], now);
      FilteredItems(items, ids[..last], now);
      var front, page := Filtered(items, ids[..last], now), Filtered(items, ids, now);
      forall j, k | 0 <= j < k < |page| ensures Less(SortKey(page[j].event), SortKey(page[k].event)) {
        assert Among(front[j], items, ids[..last]);
        var m :| 0 <= m < last && front[j] == items[ids[..last][m]];
        assert page[j] == items[ids[m]];
        if k == |front| {
          assert page[k] == items[ids[last]];
        }
      }
    }
  }

  /** The claims lie at or in front of the cursor. */
  ghost predicate ClaimedBy(claimed: seq<PendingEvent>, cursor: Option<string>) {
    forall k | 0 <= k < |claimed| :: !Behind(SortKey(claimed[k].event), cursor)
  }

  lemma {:induction false} CursorBetween(a: string, cursor: Option<string>, b: string)
    requires !Behind(a, cursor) && Behind(b, cursor)
    ensures Less(a, b)
  {
    LessTotal(a, cursor.value);
    if a != cursor.value {
      LessTransitive(a, cursor.value, b);
    }
  }

  lemma {:induction false} PageFacts(
      items: Items, cursor: Option<string>, limit: nat, ids: seq<string>, next: Option<string>, now: Time, claimed: seq<PendingEvent>)
    requires ItemsOk(items) && PageOf(items, cursor, limit, ids, next) && ClaimedBy(claimed, cursor)
    ensures forall k | 0 <= k < |ids| :: ids[k] in items
    ensures var page := Filtered(items, ids, now); PageInOrder(page) && PageOfTable(page, items) && InFront(claimed, page, 0)
  {
    hide Less, SortKey, Claimable, Behind;
    var page := Filtered(items, ids, now);
    FilteredItems(items, ids, now);
    FilteredInOrder(items, ids, now);
    forall i | 0 <= i < |page|
      ensures page[i].event.id in items && items[page[i].event.id].event == page[i].event
      ensures ClaimedBefore(claimed, SortKey(page[i].event))
    {
      assert Among(page[i], items, ids);
      var k :| 0 <= k < |ids| && page[i] == items[ids[k]];
      forall c | 0 <= c < |claimed| ensures Less(SortKey(claimed[c].event), SortKey(page[i].event)) {
        CursorBetween(SortKey(claimed[c].event), cursor, SortKey(page[i].event));
      }
    }
  }

  /** Behind the last entry of a page the cursor is past everything claimed so far. */
  lemma {:induction false} CursorMoves(
      items: Items, cursor: Option<string>, limit: nat, ids: seq<string>, next: Option<string>, now: Time,
      before: seq<PendingEvent>, claimed: seq<PendingEvent>)
    requires ItemsOk(items) && PageOf(items, cursor, limit, ids, next) && next.Some?
    requires ClaimedBy(before, cursor) && FromPage(claimed, before, Filtered(items, ids, now))
    ensures ClaimedBy(claimed, next)
  {
    hide Less, SortKey, Claimable;
    var page := Filtered(items, ids, now);
    FilteredItems(items, ids, now);
    forall c | 0 <= c < |claimed| ensures !Behind(SortKey(claimed[c].event), next) {
      var key := SortKey(claimed[c].event);
      if claimed[c] in before {
        var b :| 0 <= b < |before| && before[b] == claimed[c];
        CursorBetween(key, cursor, next.value);
        LessAsymmetric(key, next.value);
      } else {
        var i :| 0 <= i < |page| && claimed[c].event == page[i].event;
        assert Among(page[i], items, ids);
        var k :| 0 <= k < |ids| && page[i] == items[ids[k]];
        NotPastLast(items, ids, k);
      }
    }
  }

  lemma NotPastLast(items: Items, ids: seq<string>, k: nat)
    requires k < |ids| && forall m | 0 <= m < |ids| :: ids[m] in items && items[ids[m]].dispatch.Some?
    requires forall j, m | 0 <= j < m < |ids| :: Less(items[ids[j]].dispatch.value, items[ids[m]].dispatch.value)
    ensures !Less(items[ids[|ids| - 1]].dispatch.value, items[ids[k]].dispatch.value)
  {
    hide Less;
    if k == |ids| - 1 {
      LessIrreflexive(items[ids[k]].dispatch.value);
    } else {
      LessAsymmetric(items[ids[k]].dispatch.value, items[ids[|ids| - 1]].dispatch.value);
    }
  }

  /** What is indexed at the start and still now was indexed all the time, under one key. */
  lemma StillIndexed(a: Items, b: Items, c: Items, id: string)
    requires ItemsOk(b) && ItemsOk(c) && Progresses(a, b) && Progresses(b, c)
    requires id in a && id in Indexed(c)
    ensures id in Indexed(b) && b[id].dispatch == c[id].dispatch
  {
  }

  /** Everything indexed throughout and not behind the cursor was visited. */
  ghost predicate Covered(start: Items, items: Items, cursor: Option<string>, trace: seq<Trace>, base: nat, now: Time) {
    forall id | id in Indexed(start) && id in Indexed(items) && !Behind(items[id].dispatch.value, cursor) ::
      Visited(trace, base, id, now)
  }

  /** An entry of a page that was worked off is visited. */
  lemma {:induction false} PageVisited(
      items: Items, ids: seq<string>, k: nat, now: Time, before: seq<Trace>, after: seq<Trace>, base: nat)
    requires (forall m | 0 <= m < |ids| :: ids[m] in items) && k < |ids| && base <= |before| && items[ids[k]].event.id == ids[k]
    requires before + Evaluations(items, ids) <= after
    requires PageAttempted(after, |before + Evaluations(items, ids)|, Filtered(items, ids, now), |Filtered(items, ids, now)|)
    ensures Visited(after, base, ids[k], now)
  {
    hide Claimable, Filtered;
    var id, m, queried := ids[k], |before| + k, before + Evaluations(items, ids);
    assert after[m] == queried[m] == Evaluated(id, items[id]);
    if Claimable(items[id], now) {
      var page := Filtered(items, ids, now);
      var i := FilteredHas(items, ids, k, now);
      assert AttemptedIn(after, |queried|, page[i].event.id);
      assert AttemptedIn(after, m + 1, id);
    }
  }

  lemma {:induction false} CoveredMore(
      start: Items, earlier: Items, queried: Items, items: Items, cursor: Option<string>, limit: nat, ids: seq<string>,
      next: Option<string>, now: Time, before: seq<Trace>, after: seq<Trace>, base: nat)
    requires ItemsOk(earlier) && ItemsOk(queried) && ItemsOk(items) && base <= |before|
    requires Progresses(start, earlier) && Progresses(earlier, queried) && Progresses(queried, items)
    requires PageOf(queried, cursor, limit, ids, next) && Covered(start, earlier, cursor, before, base, now)
    requires before + Evaluations(queried, ids) <= after
    requires PageAttempted(after, |before + Evaluations(queried, ids)|, Filtered(queried, ids, now), |Filtered(queried, ids, now)|)
    ensures next.Some? ==> Covered(start, items, next, after, base, now)
    ensures next.None? ==> forall id | id in Indexed(start) && id in Indexed(items) :: Visited(after, base, id, now)
  {
    hide Less, SortKey, Claimable, Filtered, Visited, PageAttempted, Progresses;
    ProgressesTransitive(start, earlier, queried);
    ProgressesTransitive(earlier, queried, items);
    forall id | id in Indexed(start) && id in Indexed(items) && (next.None? || !Behind(items[id].dispatch.value, next))
      ensures Visited(after, base, id, now)
    {
      StillIndexed(start, queried, items, id);
      if Behind(items[id].dispatch.value, cursor) {
        assert id in ids;
        var k :| 0 <= k < |ids| && ids[k] == id;
        assert ItemOk(id, queried[id]);
        PageVisited(queried, ids, k, now, before, after, base);
      } else {
        StillIndexed(start, earlier, items, id);
        VisitedStays(before, after, base, id, now);
      }
    }
  }

  /** The items that a query returns are items it evaluated. */
  lemma {:induction false} PageIsSeen(items: Items, ids: seq<string>, now: Time, before: seq<Trace>, after: seq<Trace>, base: nat)
    requires ItemsOk(items) && (forall k | 0 <= k < |ids| :: ids[k] in items) && base <= |before|
    requires after == before + Evaluations(items, ids)
    ensures PageSeen(after, base, Filtered(items, ids, now))
  {
    hide Claimable, SortKey, Filtered;
    var page := Filtered(items, ids, now);
    FilteredItems(items, ids, now);
    forall i, token | 0 <= i < |page| ensures SeenAs(after, base, PendingEvent(page[i].event, page[i].attempts, token)) {
      assert Among(page[i], items, ids);
      var k :| 0 <= k < |ids| && page[i] == items[ids[k]];
      assert after[|before| + k] == Evaluated(ids[k], items[ids[k]]);
      assert ItemOk(ids[k], items[ids[k]]);
    }
  }

  /** The claimed events are events of the table. */
  ghost predicate OfTable(claimed: seq<PendingEvent>, items: Items) {
    forall k | 0 <= k < |claimed| :: claimed[k].event.id in items && items[claimed[k].event.id].event == claimed[k].event
  }

  lemma StaysOfTable(claimed: seq<PendingEvent>, items: Items, after: Items)
    requires OfTable(claimed, items) && Progresses(items, after)
    ensures OfTable(claimed, after)
  {
  }

  lemma PageEventsOfTable(claimed: seq<PendingEvent>, before: seq<PendingEvent>, page: seq<Item>, items: Items)
    requires OfTable(before, items) && PageOfTable(page, items) && FromPage(claimed, before, page)
    ensures OfTable(claimed, items)
  {
    forall k | 0 <= k < |claimed| ensures claimed[k].event.id in items && items[claimed[k].event.id].event == claimed[k].event {
      if claimed[k] in before {
        var b :| 0 <= b < |before| && before[b] == claimed[k];
      }
    }
  }

  ghost predicate DistinctEvents(claimed: seq<PendingEvent>) {
    forall j, k | 0 <= j < k < |claimed| :: claimed[j].event.id != claimed[k].event.id
  }

  lemma ClaimedDistinct(
      trace: seq<Trace>, base: nat, claimed: seq<PendingEvent>, now: Time, until: Time, tokens: nat -> string, draws: seq<nat>,
      drawn: nat, items: Items)
    requires ClaimsOk(trace, base, claimed, now, until, tokens, draws, drawn) && OfTable(claimed, items)
    ensures DistinctEvents(claimed)
  {
    hide AllLeased, DrawnFrom, SortKey, Less;
    forall j, k | 0 <= j < k < |claimed| ensures claimed[j].event.id != claimed[k].event.id {
      LessIrreflexive(SortKey(claimed[j].event));
    }
  }

  // ----- Termination

  function CallsLeft(table: Table): nat
    reads table
  {
    if table.calls < |table.script| then |table.script| - table.calls else 0
  }

  /** A page that has a next one takes entries away from what is behind the cursor. */
  lemma FewerBehind(items: Items, after: Items, cursor: Option<string>, limit: nat, ids: seq<string>, next: Option<string>)
    requires ItemsOk(items) && ItemsOk(after) && Progresses(items, after) && Indexed(after) == Indexed(items)
    requires PageOf(items, cursor, limit, ids, next) && next.Some?
    ensures |KeysBehind(after, next)| < |KeysBehind(items, cursor)|
  {
    hide Less, SortKey;
    var last := ids[|ids| - 1];
    assert last in Indexed(items) && next.value in KeysBehind(items, cursor);
    forall key | key in KeysBehind(after, next) ensures key in KeysBehind(items, cursor) && key != next.value {
      var id :| id in after && after[id].dispatch == Some(key) && Behind(key, next);
      assert id in Indexed(after) && id in Indexed(items);
      assert items[id].dispatch == Some(key);
      if cursor.Some? {
        LessTransitive(cursor.value, next.value, key);
      }
      LessIrreflexive(next.value);
      assert key in KeysBehind(items, cursor);
    }
    assert KeysBehind(after, next) <= KeysBehind(items, cursor) - {next.value};
    SubsetFits(KeysBehind(after, next), KeysBehind(items, cursor) - {next.value});
  }

  lemma ScanStart(items: Items, trace: seq<Trace>, now: Time, until: Time, tokens: nat -> string)
    ensures Progresses(items, items) && ClaimsOk(trace, |trace|, [], now, until, tokens, [], 0)
    ensures OfTable([], items) && ClaimedBy([], None) && Covered(items, items, None, trace, |trace|, now)
  {
  }

  /** When every lease is returned, all of them could be decoded. */
  lemma AllDecodable(
      trace: seq<Trace>, base: nat, claimed: seq<PendingEvent>, now: Time, until: Time, tokens: nat -> string, draws: seq<nat>, drawn: nat)
    requires ClaimsOk(trace, base, claimed, now, until, tokens, draws, drawn)
    ensures !LeasedUndecodable(trace, base)
  {
    hide AllLeased, EventDecodable;
  }

  /**
   A claim ends, whatever a finite number of other clients' changes, failed calls and page
   cuts it meets. On success it returns at most limit events in ascending key order, each
   leased under a token of its own by a conditional update that found it pending and due.
   It returns every lease it took, and when it returns fewer than limit, every entry that
   was in the index from start to end was visited: filtered out, raced or leased. It fails
   exactly when a call failed or it leased an event that cannot be decoded.
   */
  method ClaimPending(table: Table, now: Time, lease: int, limit: int, tokens: nat -> string)
    returns (result: Result<seq<PendingEvent>, StoreError>, ghost draws: seq<nat>, ghost drawn: nat)
    requires table.Valid()
    modifies table`items, table`calls, table`trace
    ensures table.Valid() && Progresses(old(table.items), table.items) && old(table.trace) <= table.trace
    ensures limit <= 0 ==> result == Success([]) && table.items == old(table.items) && table.trace == old(table.trace)
    ensures limit > 0 && result.Success? ==>
      && |result.value| <= limit && DistinctEvents(result.value)
      && ClaimsOk(table.trace, |old(table.trace)|, result.value, now, now + lease, tokens, draws, drawn)
      && (|result.value| < limit ==>
            forall id | id in Indexed(old(table.items)) && id in Indexed(table.items) ::
              Visited(table.trace, |old(table.trace)|, id, now))
    ensures result.Failure? ==> limit > 0 && (result.error == Unavailable || result.error == Undecodable)
    ensures result == Failure(Unavailable) <==> SomeFailed(table.failing, old(table.calls), table.calls)
    ensures result == Failure(Undecodable) ==> LeasedUndecodable(table.trace, |old(table.trace)|)
    ensures result.Success? ==> !LeasedUndecodable(table.trace, |old(table.trace)|)
  {
    hide ItemsOk, Progresses, ClaimsOk, ClaimedBy, Covered, PageOf, Filtered, Evaluations, PageAttempted, FromPage, InFront,
      PageInOrder, PageOfTable, PageSeen, LeasedUndecodable, OfTable, DistinctEvents, SortKey, KeysBehind;
    draws, drawn := [], 0;
    ScanStart(table.items, table.trace, now, now + lease, tokens);
    ghost var base := |table.trace|;
    if limit <= 0 {
      AllDecodable(table.trace, base, [], now, now + lease, tokens, [], 0);
      return Success([]), draws, drawn;
    }
    var claimed: seq<PendingEvent> := [];
    var cursor: Option<string> := None;
    var used := 0;
    while |claimed| < limit
      invariant table.Valid() && Progresses(old(table.items), table.items) && old(table.trace) <= table.trace
      invariant |claimed| <= limit && ClaimsOk(table.trace, base, claimed, now, now + lease, tokens, draws, used)
      invariant table.calls >= old(table.calls) && !SomeFailed(table.failing, old(table.calls), table.calls)
      invariant OfTable(claimed, table.items)
      invariant ClaimedBy(claimed, cursor) && Covered(old(table.items), table.items, cursor, table.trace, base, now)
      decreases CallsLeft(table), |KeysBehind(table.items, cursor)|
    {
      ghost var earlier, before, calls := table.items, table.trace, table.calls;
      var page, ids := table.Query(cursor, limit - |claimed|, now);
      ProgressesTransitive(old(table.items), earlier, table.items);
      if page.Failure? {
        return Failure(page.error), draws, used;
      }
      ghost var queried := table.items;
      PageFacts(queried, cursor, limit - |claimed|, ids, page.value.next, now, claimed);
      NoMore(before, table.trace, base, claimed, now, now + lease, tokens, draws, used, used);
      PageIsSeen(queried, ids, now, before, table.trace, base);
      StaysOfTable(claimed, earlier, queried);
      var leased;
      leased, used, draws := LeasePage(table, page.value.items, now, now + lease, limit, tokens, claimed, used, draws, base);
      ProgressesTransitive(old(table.items), queried, table.items);
      if leased.Failure? {
        return Failure(leased.error), draws, used;
      }
      PageEventsOfTable(leased.value, claimed, page.value.items, queried);
      StaysOfTable(leased.value, queried, table.items);
      ClaimedDistinct(table.trace, base, leased.value, now, now + lease, tokens, draws, used, table.items);
      if |leased.value| < limit {
        CoveredMore(old(table.items), earlier, queried, table.items, cursor, limit - |claimed|, ids, page.value.next, now,
          before, table.trace, base);
      }
      if page.value.next.None? || |leased.value| == limit {
        AllDecodable(table.trace, base, leased.value, now, now + lease, tokens, draws, used);
        return leased, draws, used;
      }
      CursorMoves(queried, cursor, limit - |claimed|, ids, page.value.next, now, claimed, leased.value);
      if calls >= |table.script| {
        FewerBehind(queried, table.items, cursor, limit - |claimed|, ids, page.value.next);
      }
      claimed := leased.value;
      cursor := page.value.next;
    }
    ClaimedDistinct(table.trace, base, claimed, now, now + lease, tokens, draws, used, table.items);
    AllDecodable(table.trace, base, claimed, now, now + lease, tokens, draws, used);
    result, drawn := Success(claimed), used;
  }
}
