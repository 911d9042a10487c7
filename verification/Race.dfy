/**
 Atomic acceptance as the specification of the races: histories of accepts that happen one
 at a time, over any kind of identity key.
 */
module Race {
  import opened Wrappers
  import opened Outbox

  /** The identity that acceptance is about: the source and its reference. */
  type Pair = (string, string)

  function PairOf(a: Acceptance): Pair {
    (a.transaction.source, a.transaction.sourceReference)
  }

  /** One accept that took effect: who asked, under which key, and the answer. */
  datatype Entry<K> = Entry(client: nat, key: K, acceptance: Acceptance, outcome: StoreOutcome)

  /** The committed identities and outbox events, and the accepts that took effect so far. */
  datatype Database<K> = Database(identities: map<K, Identity>, outbox: map<string, OutboxEvent>, history: seq<Entry<K>>)

  function Won(a: Acceptance): StoreOutcome {
    Accepted(a.transaction.id, a.event.id)
  }

  /** One atomic accept. */
  function Atomic<K>(identities: map<K, Identity>, key: K, a: Acceptance): (map<K, Identity>, StoreOutcome) {
    if key in identities then (identities, Judge(identities[key], a.fingerprint))
    else (identities[key := IdentityOf(a)], Won(a))
  }

  /** The identities behind a history. */
  function Outcome<K>(history: seq<Entry<K>>): map<K, Identity> {
    if history == [] then map[]
    else
      var last := history[|history| - 1];
      Atomic(Outcome(history[..|history| - 1]), last.key, last.acceptance).0
  }

  /** Every answer is the one that atomic accepts in this order give. */
  ghost predicate Legal<K>(history: seq<Entry<K>>) {
    forall i | 0 <= i < |history| ::
      history[i].outcome == Atomic(Outcome(history[..i]), history[i].key, history[i].acceptance).1
  }

  /** A transaction row or item never exists without its event, nor an event without its transaction. */
  ghost predicate Paired<K>(d: Database<K>) {
    && (forall key | key in d.identities ::
          d.identities[key].eventId in d.outbox && d.outbox[d.identities[key].eventId].id == d.identities[key].eventId)
    && (forall id | id in d.outbox :: exists key | key in d.identities :: d.identities[key].eventId == id)
  }

  /** Every event that was accepted is stored as its acceptance brought it. */
  ghost predicate EventsKept<K>(d: Database<K>) {
    forall i | 0 <= i < |d.history| && d.history[i].outcome.Accepted? ::
      var event := d.history[i].acceptance.event;
      event.id in d.outbox && d.outbox[event.id] == event
  }

  ghost predicate Sound<K>(d: Database<K>) {
    Legal(d.history) && Outcome(d.history) == d.identities && Paired(d) && EventsKept(d)
  }

  // ----- The two ways an accept takes effect

  /** Transaction and event become visible together. */
  function Land<K>(d: Database<K>, client: nat, key: K, a: Acceptance): Database<K> {
    Database(d.identities[key := IdentityOf(a)], d.outbox[a.event.id := a.event], d.history + [Entry(client, key, a, Won(a))])
  }

  /** A committed identity is read and judged. */
  function Observe<K>(d: Database<K>, client: nat, key: K, a: Acceptance): Database<K>
    requires key in d.identities
  {
    d.(history := d.history + [Entry(client, key, a, Judge(d.identities[key], a.fingerprint))])
  }

  lemma {:induction false} Extend<K>(history: seq<Entry<K>>, e: Entry<K>)
    requires Legal(history) && e.outcome == Atomic(Outcome(history), e.key, e.acceptance).1
    ensures Legal(history + [e]) && Outcome(history + [e]) == Atomic(Outcome(history), e.key, e.acceptance).0
  {
    var longer := history + [e];
    assert longer[..|history|] == history;
    forall i | 0 <= i < |longer|
      ensures longer[i].outcome == Atomic(Outcome(longer[..i]), longer[i].key, longer[i].acceptance).1
    {
      if i < |history| {
        assert longer[..i] == history[..i];
      }
    }
  }

  lemma LandSound<K>(d: Database<K>, client: nat, key: K, a: Acceptance)
    requires Sound(d) && key !in d.identities && a.event.id !in d.outbox
    ensures Sound(Land(d, client, key, a))
  {
    hide Legal, Outcome;
    Extend(d.history, Entry(client, key, a, Won(a)));
    var after := Land(d, client, key, a);
    forall id | id in after.outbox ensures exists k | k in after.identities :: after.identities[k].eventId == id {
      if id == a.event.id {
        assert after.identities[key].eventId == id;
      } else {
        var k :| k in d.identities && d.identities[k].eventId == id;
        assert after.identities[k].eventId == id;
      }
    }
  }

  lemma ObserveSound<K>(d: Database<K>, client: nat, key: K, a: Acceptance)
    requires Sound(d) && key in d.identities
    ensures Sound(Observe(d, client, key, a))
  {
    hide Legal, Outcome;
    Extend(d.history, Entry(client, key, a, Judge(d.identities[key], a.fingerprint)));
  }

  // ----- What legal histories promise

  /** An identity is the one its only winner brought. */
  lemma IdentityHasWinner<K>(history: seq<Entry<K>>, key: K) returns (winner: nat)
    requires Legal(history) && key in Outcome(history)
    ensures winner < |history| && history[winner].key == key && history[winner].outcome == Won(history[winner].acceptance)
    ensures Outcome(history)[key] == IdentityOf(history[winner].acceptance)
    ensures forall i | 0 <= i < winner :: history[i].key != key
  {
    var last := |history| - 1;
    var before := history[..last];
    if key in Outcome(before) {
      LegalPrefix(history, last);
      winner := IdentityHasWinner(before, key);
      forall i | 0 <= i < winner ensures history[i].key != key {
        assert before[i] == history[i];
      }
    } else {
      winner := last;
      forall i | 0 <= i < last ensures history[i].key != key {
        KeyAppears(before, i);
        assert before[i] == history[i];
      }
    }
  }

  lemma LegalPrefix<K>(history: seq<Entry<K>>, n: nat)
    requires Legal(history) && n <= |history|
    ensures Legal(history[..n])
  {
    forall i | 0 <= i < n
      ensures history[..n][i].outcome == Atomic(Outcome(history[..n][..i]), history[..n][i].key, history[..n][i].acceptance).1
    {
      assert history[..n][..i] == history[..i];
    }
  }

  /** Whatever was asked for has an identity afterwards. */
  lemma {:induction false} KeyAppears<K>(history: seq<Entry<K>>, i: nat)
    requires i < |history|
    ensures history[i].key in Outcome(history)
  {
    var last := |history| - 1;
    if i < last {
      KeyAppears(history[..last], i);
      assert history[..last][i] == history[i];
    }
  }

  /** At most one accept of a key is answered as accepted. */
  lemma OneWinner<K>(history: seq<Entry<K>>, i: nat, j: nat)
    requires Legal(history) && i < j < |history| && history[i].key == history[j].key
    ensures !history[j].outcome.Accepted?
  {
    KeyAppears(history[..j], i);
    assert history[..j][i] == history[i];
  }

  /** Every other answer is a replay or a conflict judged against the winner, with the winner's IDs. */
  lemma JudgedAgainstWinner<K>(history: seq<Entry<K>>, i: nat) returns (winner: nat)
    requires Legal(history) && i < |history| && !history[i].outcome.Accepted?
    ensures winner < i && history[winner].key == history[i].key
    ensures history[winner].outcome == Won(history[winner].acceptance)
    ensures history[i].outcome ==
            (if history[i].acceptance.fingerprint == history[winner].acceptance.fingerprint
             then Replay(history[winner].acceptance.transaction.id, history[winner].acceptance.event.id) else Conflict)
  {
    LegalPrefix(history, i);
    winner := IdentityHasWinner(history[..i], history[i].key);
    assert history[..i][winner] == history[winner];
  }

  /** The stored event of an identity is the one its winner brought. */
  lemma CommittedEvent<K>(d: Database<K>, key: K) returns (winner: nat)
    requires Sound(d) && key in d.identities
    ensures winner < |d.history| && d.history[winner].key == key && d.history[winner].outcome == Won(d.history[winner].acceptance)
    ensures d.identities[key] == IdentityOf(d.history[winner].acceptance)
    ensures d.identities[key].eventId in d.outbox && d.outbox[d.identities[key].eventId] == d.history[winner].acceptance.event
  {
    hide Legal, Outcome;
    winner := IdentityHasWinner(d.history, key);
  }

  // ----- Requests

  /** An answer names the place in the history where the accept took effect. */
  datatype Answer = Answer(outcome: StoreOutcome, place: nat) | Failed(error: StoreError)

  /** A request in flight or answered; since is how much history there was at the call. */
  datatype Request = Request(acceptance: Acceptance, since: nat, answer: Option<Answer>)

  /** The last step of a client up to now, when every step has an owner. */
  ghost predicate LastStep<A>(actions: seq<A>, owner: A -> nat, i: nat, n: nat, client: nat) {
    i < n <= |actions| && owner(actions[i]) == client && forall k | i < k < n :: owner(actions[k]) != client
  }

  lemma LastStepNext<A>(actions: seq<A>, owner: A -> nat, n: nat, client: nat)
    requires 0 < n <= |actions|
    ensures forall i: nat :: LastStep(actions, owner, i, n, client) <==>
              if owner(actions[n - 1]) == client then i == n - 1 else LastStep(actions, owner, i, n - 1, client)
  {
  }

  /** What matters of a system of clients racing on one database. */
  datatype View<K> = View(database: Database<K>, requests: map<nat, Request>)

  ghost predicate AnswerOk<K>(d: Database<K>, client: nat, key: K, a: Acceptance, since: nat, answer: Answer) {
    answer.Answer? ==>
      since <= answer.place < |d.history| && d.history[answer.place] == Entry(client, key, a, answer.outcome)
  }

  lemma AnswerStays<K>(d: Database<K>, after: Database<K>, client: nat, key: K, a: Acceptance, since: nat, answer: Answer)
    requires AnswerOk(d, client, key, a, since, answer) && d.history <= after.history
    ensures AnswerOk(after, client, key, a, since, answer)
  {
  }

  ghost predicate RequestOk<K>(d: Database<K>, key: Acceptance -> K, client: nat, r: Request) {
    r.since <= |d.history| &&
    (r.answer.Some? ==> AnswerOk(d, client, key(r.acceptance), r.acceptance, r.since, r.answer.value))
  }

  ghost predicate ViewOk<K>(v: View<K>, key: Acceptance -> K) {
    Sound(v.database) && forall client | client in v.requests :: RequestOk(v.database, key, client, v.requests[client])
  }

  /** The history is extended, requests keep their acceptance and start, answers are final, and new requests start now. */
  ghost predicate Grows<K>(v: View<K>, after: View<K>) {
    && v.database.history <= after.database.history
    && (forall client | client in v.requests ::
          && client in after.requests
          && after.requests[client].acceptance == v.requests[client].acceptance
          && after.requests[client].since == v.requests[client].since
          && (v.requests[client].answer.Some? ==> after.requests[client].answer == v.requests[client].answer))
    && (forall client | client in after.requests && client !in v.requests ::
          after.requests[client].since == |v.database.history|)
  }

  /** A run of racing clients whose every state is sound. */
  ghost predicate RaceRun<K>(views: seq<View<K>>, key: Acceptance -> K) {
    (forall i | 0 <= i < |views| :: ViewOk(views[i], key)) && forall i | 0 <= i < |views| - 1 :: Grows(views[i], views[i + 1])
  }

  ghost predicate AnsweredWith<K>(v: View<K>, client: nat, outcome: StoreOutcome, place: nat) {
    client in v.requests && v.requests[client].answer == Some(Answer(outcome, place))
  }

  /** Of all requests for one key at most one is answered as accepted. */
  lemma AtMostOneAccepted<K>(
      v: View<K>, key: Acceptance -> K, c1: nat, c2: nat, o1: StoreOutcome, p1: nat, o2: StoreOutcome, p2: nat)
    requires ViewOk(v, key) && c1 != c2 && AnsweredWith(v, c1, o1, p1) && AnsweredWith(v, c2, o2, p2)
    requires key(v.requests[c1].acceptance) == key(v.requests[c2].acceptance)
    ensures !o1.Accepted? || !o2.Accepted?
  {
    hide Legal, Outcome;
    assert RequestOk(v.database, key, c1, v.requests[c1]) && RequestOk(v.database, key, c2, v.requests[c2]);
    if p1 < p2 {
      OneWinner(v.database.history, p1, p2);
    } else if p2 < p1 {
      OneWinner(v.database.history, p2, p1);
    }
  }

  /** Every other answer is judged against the accept that won the key, carries the winner's IDs, and the winner's event is stored. */
  lemma OthersAreJudged<K>(v: View<K>, key: Acceptance -> K, client: nat, outcome: StoreOutcome, place: nat)
    returns (winner: nat)
    requires ViewOk(v, key) && AnsweredWith(v, client, outcome, place) && !outcome.Accepted?
    ensures var history := v.database.history; var a := v.requests[client].acceptance;
            && winner < place < |history| && history[winner].key == key(a)
            && history[winner].outcome == Won(history[winner].acceptance)
            && (outcome == if a.fingerprint == history[winner].acceptance.fingerprint
                           then Replay(history[winner].acceptance.transaction.id, history[winner].acceptance.event.id) else Conflict)
            && history[winner].acceptance.event.id in v.database.outbox
            && v.database.outbox[history[winner].acceptance.event.id] == history[winner].acceptance.event
  {
    hide Legal, Outcome;
    assert RequestOk(v.database, key, client, v.requests[client]);
    winner := JudgedAgainstWinner(v.database.history, place);
  }

  lemma HistoryGrows<K>(views: seq<View<K>>, key: Acceptance -> K, i: nat, j: nat)
    requires RaceRun(views, key) && i <= j < |views|
    ensures views[i].database.history <= views[j].database.history
  {
    hide ViewOk;
    if i < j {
      HistoryGrows(views, key, i, j - 1);
      assert Grows(views[j - 1], views[j - 1 + 1]);
    }
  }

  /** A request that was not there yet started with all the history there was. */
  lemma StartsLater<K>(views: seq<View<K>>, key: Acceptance -> K, i: nat, j: nat, client: nat)
    requires RaceRun(views, key) && i <= j < |views| && client !in views[i].requests && client in views[j].requests
    ensures views[j].requests[client].since >= |views[i].database.history|
  {
    hide ViewOk;
    assert Grows(views[j - 1], views[j - 1 + 1]);
    if client in views[j - 1].requests {
      StartsLater(views, key, i, j - 1, client);
    } else {
      HistoryGrows(views, key, i, j - 1);
    }
  }

  /** A request that is called after another was answered takes effect after it. */
  lemma RealTimeOrder<K>(
      views: seq<View<K>>, key: Acceptance -> K, i: nat, n: nat, c1: nat, c2: nat, o1: StoreOutcome, p1: nat, o2: StoreOutcome, p2: nat)
    requires RaceRun(views, key) && i < n < |views|
    requires AnsweredWith(views[i], c1, o1, p1) && c2 !in views[i].requests && AnsweredWith(views[n], c2, o2, p2)
    ensures p1 < p2
  {
    hide Sound, Grows;
    StartsLater(views, key, i, n, c2);
    assert ViewOk(views[i], key) && ViewOk(views[n], key);
    assert RequestOk(views[i].database, key, c1, views[i].requests[c1]) && RequestOk(views[n].database, key, c2, views[n].requests[c2]);
  }
}
