/**
 Concurrent acceptance on DynamoDB: a consistent read, a conditional write of two items,
 and another consistent read when the write was cancelled. Every call may fail, and a
 write may land although the call reports a failure.
 */
module DynamoAccept {
  import opened Wrappers
  import opened Marshalling
  import opened Outbox
  import opened Race
  import opened Strings

  datatype Stage = Reading | Writing | Rereading | Answered(answer: Answer)

  datatype Client = Client(acceptance: Acceptance, since: nat, stage: Stage)

  datatype Report = Ok | Canceled | OtherError

  datatype System = System(database: Database<string>, clients: map<nat, Client>)

  datatype Action =
    | Call(client: nat, acceptance: Acceptance)
    | Read(client: nat, fails: bool)
    | Write(client: nat, landed: bool, report: Report)
    | Reread(client: nat, fails: bool)

  const START: System := System(Database(map[], map[], []), map[])

  function IdentityKey(a: Acceptance): string {
    "TX#" + Join(a.transaction.source, '#', a.transaction.sourceReference)
  }

  /** Both items are put under the condition that neither exists. */
  predicate WriteCondition(d: Database<string>, a: Acceptance) {
    IdentityKey(a) !in d.identities && a.event.id !in d.outbox
  }

  predicate Enabled(s: System, action: Action) {
    match action
    case Call(client, _) => client !in s.clients
    case Read(client, _) => client in s.clients && s.clients[client].stage == Reading
    case Write(client, landed, report) =>
      && client in s.clients && s.clients[client].stage == Writing
      && (landed ==> WriteCondition(s.database, s.clients[client].acceptance)) && (report == Ok ==> landed)
    case Reread(client, _) => client in s.clients && s.clients[client].stage == Rereading
  }

  function To(s: System, database: Database<string>, client: nat, stage: Stage): System
    requires client in s.clients
  {
    System(database, s.clients[client := s.clients[client].(stage := stage)])
  }

  /** Without an identity the items are written, unless the transaction or the event cannot be marshalled. */
  function AfterAbsent(a: Acceptance): Stage {
    if Encodable(a) then Writing else Answered(Failed(Unavailable))
  }

  /** A consistent read of the identity; what follows when there is none differs. */
  function ReadIdentity(s: System, client: nat, fails: bool, absent: Stage): System
    requires client in s.clients
  {
    var d, a := s.database, s.clients[client].acceptance;
    var key := IdentityKey(a);
    if fails then To(s, d, client, Answered(Failed(Unavailable)))
    else if key in d.identities then
      To(s, Observe(d, client, key, a), client, Answered(Answer(Judge(d.identities[key], a.fingerprint), |d.history|)))
    else To(s, d, client, absent)
  }

  function Apply(s: System, action: Action): System
    requires Enabled(s, action)
  {
    match action
    case Call(client, a) => s.(clients := s.clients[client := Client(a, |s.database.history|, Reading)])
    case Read(client, fails) => ReadIdentity(s, client, fails, AfterAbsent(s.clients[client].acceptance))
    case Write(client, landed, report) =>
      var a := s.clients[client].acceptance;
      var d := if landed then Land(s.database, client, IdentityKey(a), a) else s.database;
      (match report
       case Ok => To(s, d, client, Answered(Answer(Won(a), |s.database.history|)))
       case Canceled => To(s, d, client, Rereading)
       case OtherError => To(s, d, client, Answered(Failed(Unavailable))))
    case Reread(client, fails) => ReadIdentity(s, client, fails, Answered(Failed(Unavailable)))
  }

  ghost predicate Behavior(systems: seq<System>, actions: seq<Action>) {
    && |systems| == |actions| + 1 && systems[0] == START
    && forall i | 0 <= i < |actions| :: Enabled(systems[i], actions[i]) && systems[i + 1] == Apply(systems[i], actions[i])
  }

  // ----- The invariant

  ghost predicate ClientOk(d: Database<string>, client: nat, c: Client) {
    c.since <= |d.history| &&
    (c.stage.Answered? ==> AnswerOk(d, client, IdentityKey(c.acceptance), c.acceptance, c.since, c.stage.answer))
  }

  ghost predicate Inv(s: System) {
    Sound(s.database) && forall client | client in s.clients :: ClientOk(s.database, client, s.clients[client])
  }

  lemma ClientStays(d: Database<string>, after: Database<string>, client: nat, c: Client)
    requires ClientOk(d, client, c) && d.history <= after.history
    ensures ClientOk(after, client, c)
  {
    if c.stage.Answered? {
      AnswerStays(d, after, client, IdentityKey(c.acceptance), c.acceptance, c.since, c.stage.answer);
    }
  }

  lemma Moves(s: System, database: Database<string>, client: nat, stage: Stage)
    requires Inv(s) && client in s.clients && Sound(database) && s.database.history <= database.history
    requires ClientOk(database, client, s.clients[client].(stage := stage))
    ensures Inv(To(s, database, client, stage))
  {
    hide ClientOk, Sound;
    var after := To(s, database, client, stage);
    forall c | c in after.clients ensures ClientOk(database, c, after.clients[c]) {
      if c != client {
        ClientStays(s.database, database, c, s.clients[c]);
      }
    }
  }

  lemma ReadKeeps(s: System, client: nat, fails: bool, absent: Stage)
    requires Inv(s) && client in s.clients && (absent.Answered? ==> absent.answer.Failed?)
    ensures Inv(ReadIdentity(s, client, fails, absent))
    ensures s.database.history <= ReadIdentity(s, client, fails, absent).database.history
  {
    hide Sound, IdentityKey;
    var d, a := s.database, s.clients[client].acceptance;
    var key := IdentityKey(a);
    assert ClientOk(d, client, s.clients[client]);
    if fails {
      Moves(s, d, client, Answered(Failed(Unavailable)));
    } else if HasIdentity(d, key) {
      ObserveSound(d, client, key, a);
      Moves(s, Observe(d, client, key, a), client, Answered(Answer(Judge(d.identities[key], a.fingerprint), |d.history|)));
    } else {
      Moves(s, d, client, absent);
    }
  }

  predicate HasIdentity(d: Database<string>, key: string) {
    key in d.identities
  }

  lemma ConditionHolds(d: Database<string>, a: Acceptance)
    requires WriteCondition(d, a)
    ensures IdentityKey(a) !in d.identities && a.event.id !in d.outbox
  {
  }

  lemma WriteKeeps(s: System, client: nat, landed: bool, report: Report)
    requires Inv(s) && Enabled(s, Write(client, landed, report))
    ensures Inv(Apply(s, Write(client, landed, report)))
    ensures s.database.history <= Apply(s, Write(client, landed, report)).database.history
  {
    hide Sound, IdentityKey;
    var a := s.clients[client].acceptance;
    assert ClientOk(s.database, client, s.clients[client]);
    if landed {
      ConditionHolds(s.database, a);
      LandSound(s.database, client, IdentityKey(a), a);
    }
    var d := if landed then Land(s.database, client, IdentityKey(a), a) else s.database;
    match report
    case Ok => Moves(s, d, client, Answered(Answer(Won(a), |s.database.history|)));
    case Canceled => Moves(s, d, client, Rereading);
    case OtherError => Moves(s, d, client, Answered(Failed(Unavailable)));
  }

  lemma StepKeeps(s: System, action: Action)
    requires Inv(s) && Enabled(s, action)
    ensures Inv(Apply(s, action)) && s.database.history <= Apply(s, action).database.history
  {
    hide Encodable;
    match action
    case Call(client, a) =>
    case Read(client, fails) => ReadKeeps(s, client, fails, AfterAbsent(s.clients[client].acceptance));
    case Write(client, landed, report) => WriteKeeps(s, client, landed, report);
    case Reread(client, fails) => ReadKeeps(s, client, fails, Answered(Failed(Unavailable)));
  }

  lemma Reachable(systems: seq<System>, actions: seq<Action>, n: nat)
    requires Behavior(systems, actions) && n <= |actions|
    ensures Inv(systems[n])
  {
    if n > 0 {
      Reachable(systems, actions, n - 1);
      StepKeeps(systems[n - 1], actions[n - 1]);
      assert systems[n - 1 + 1] == Apply(systems[n - 1], actions[n - 1]);
    }
  }

  // ----- Linearizability

  /** What matters of the system to the race. */
  function ViewOf(s: System): View<string> {
    View(s.database, map client | client in s.clients ::
      var c := s.clients[client];
      Request(c.acceptance, c.since, if c.stage.Answered? then Some(c.stage.answer) else None))
  }

  function Views(systems: seq<System>): (views: seq<View<string>>)
    ensures |views| == |systems| && forall i | 0 <= i < |systems| :: views[i] == ViewOf(systems[i])
  {
    seq(|systems|, i requires 0 <= i < |systems| => ViewOf(systems[i]))
  }

  lemma ViewIsOk(s: System)
    requires Inv(s)
    ensures ViewOk(ViewOf(s), IdentityKey)
  {
    hide Sound, IdentityKey, AnswerOk;
    forall client | client in s.clients ensures RequestOk(s.database, IdentityKey, client, ViewOf(s).requests[client]) {
      assert ClientOk(s.database, client, s.clients[client]);
    }
  }

  /** A request keeps its acceptance and its start, an answer is final, and a new request starts now. */
  lemma ViewGrows(s: System, action: Action)
    requires Inv(s) && Enabled(s, action)
    ensures Grows(ViewOf(s), ViewOf(Apply(s, action)))
  {
    hide Inv, IdentityKey;
    StepKeeps(s, action);
    RequestsKept(s, action);
  }

  lemma RequestsKept(s: System, action: Action)
    requires Enabled(s, action)
    ensures var after := Apply(s, action);
            && (forall client | client in s.clients ::
                  && client in after.clients
                  && after.clients[client].acceptance == s.clients[client].acceptance
                  && after.clients[client].since == s.clients[client].since
                  && (s.clients[client].stage.Answered? ==> after.clients[client] == s.clients[client]))
            && (forall client | client in after.clients && client !in s.clients ::
                  after.clients[client].since == |s.database.history|)
  {
    hide IdentityKey, Judge, Land, Encodable;
  }

  /**
   Every behavior is a race: in every state each answer that is not an error is that of one
   atomic accept, which took effect between the call and the answer, in an order of atomic
   accepts that yields exactly the committed identities; no transaction item is without its
   event item or the other way round, and the event is the one the winner brought.
   */
  lemma Linearizable(systems: seq<System>, actions: seq<Action>, n: nat)
    requires Behavior(systems, actions) && n <= |actions|
    ensures RaceRun(Views(systems), IdentityKey)
    ensures var d := systems[n].database; Legal(d.history) && Outcome(d.history) == d.identities && Paired(d) && EventsKept(d)
    ensures forall client | client in systems[n].clients ::
              var c := systems[n].clients[client];
              c.stage.Answered? && c.stage.answer.Answer? ==>
                && c.since <= c.stage.answer.place < |systems[n].database.history|
                && systems[n].database.history[c.stage.answer.place] ==
                   Entry(client, IdentityKey(c.acceptance), c.acceptance, c.stage.answer.outcome)
  {
    hide Legal, Outcome, Apply, Enabled, IdentityKey, Inv, ViewOf, ViewOk, Grows;
    forall i | 0 <= i < |systems| ensures ViewOk(Views(systems)[i], IdentityKey) {
      Reachable(systems, actions, i);
      ViewIsOk(systems[i]);
    }
    forall i | 0 <= i < |systems| - 1 ensures Grows(Views(systems)[i], Views(systems)[i + 1]) {
      Reachable(systems, actions, i);
      ViewGrows(systems[i], actions[i]);
    }
    Reachable(systems, actions, n);
    Consistent(systems[n]);
  }

  lemma Consistent(s: System)
    requires Inv(s)
    ensures Sound(s.database) && forall client | client in s.clients :: ClientOk(s.database, client, s.clients[client])
  {
  }

  ghost predicate AnsweredWith(s: System, client: nat, outcome: StoreOutcome, place: nat) {
    client in s.clients && s.clients[client].stage == Answered(Answer(outcome, place))
  }

  /** Of all requests for one identity key at most one is answered as accepted. */
  lemma AtMostOneAccepted(
      systems: seq<System>, actions: seq<Action>, n: nat, c1: nat, c2: nat, o1: StoreOutcome, p1: nat, o2: StoreOutcome, p2: nat)
    requires Behavior(systems, actions) && n <= |actions| && c1 != c2
    requires AnsweredWith(systems[n], c1, o1, p1) && AnsweredWith(systems[n], c2, o2, p2)
    requires IdentityKey(systems[n].clients[c1].acceptance) == IdentityKey(systems[n].clients[c2].acceptance)
    ensures !o1.Accepted? || !o2.Accepted?
  {
    hide Apply, Enabled, Inv, IdentityKey, ViewOk;
    Reachable(systems, actions, n);
    ViewIsOk(systems[n]);
    Race.AtMostOneAccepted(ViewOf(systems[n]), IdentityKey, c1, c2, o1, p1, o2, p2);
  }

  /** Every other answer is judged against the accept that won the identity key, carries the winner's IDs, and the winner's event is stored. */
  lemma OthersAreJudged(
      systems: seq<System>, actions: seq<Action>, n: nat, client: nat, outcome: StoreOutcome, place: nat) returns (winner: nat)
    requires Behavior(systems, actions) && n <= |actions|
    requires AnsweredWith(systems[n], client, outcome, place) && !outcome.Accepted?
    ensures var history := systems[n].database.history; var a := systems[n].clients[client].acceptance;
            && winner < place < |history| && history[winner].key == IdentityKey(a)
            && history[winner].outcome == Won(history[winner].acceptance)
            && (outcome == if a.fingerprint == history[winner].acceptance.fingerprint
                           then Replay(history[winner].acceptance.transaction.id, history[winner].acceptance.event.id) else Conflict)
            && history[winner].acceptance.event.id in systems[n].database.outbox
            && systems[n].database.outbox[history[winner].acceptance.event.id] == history[winner].acceptance.event
  {
    hide Apply, Enabled, Inv, IdentityKey, ViewOk;
    Reachable(systems, actions, n);
    ViewIsOk(systems[n]);
    winner := Race.OthersAreJudged(ViewOf(systems[n]), IdentityKey, client, outcome, place);
  }

  /** A request that is called after another was answered takes effect after it. */
  lemma RealTimeOrder(
      systems: seq<System>, actions: seq<Action>, i: nat, n: nat, c1: nat, c2: nat,
      o1: StoreOutcome, p1: nat, o2: StoreOutcome, p2: nat)
    requires Behavior(systems, actions) && i < n <= |actions|
    requires AnsweredWith(systems[i], c1, o1, p1) && actions[i].Call? && actions[i].client == c2
    requires AnsweredWith(systems[n], c2, o2, p2)
    ensures p1 < p2
  {
    hide Apply, IdentityKey, RaceRun;
    Linearizable(systems, actions, n);
    Race.RealTimeOrder(Views(systems), IdentityKey, i, n, c1, c2, o1, p1, o2, p2);
  }

  /** Two identities share an item key exactly when they are equal or one source continues the other behind the separator. */
  lemma IdentityKeysCollide(a: Acceptance, b: Acceptance)
    ensures var t, u := a.transaction, b.transaction;
            IdentityKey(a) == IdentityKey(b) <==>
            (t.source == u.source && t.sourceReference == u.sourceReference)
            || (exists m :: t.source == Join(u.source, '#', m) && u.sourceReference == Join(m, '#', t.sourceReference))
            || (exists m :: u.source == Join(t.source, '#', m) && t.sourceReference == Join(m, '#', u.sourceReference))
  {
    var t, u := a.transaction, b.transaction;
    JoinsCollide(t.source, t.sourceReference, u.source, u.sourceReference, '#');
    if IdentityKey(a) == IdentityKey(b) {
      SamePrefix("TX#", Join(t.source, '#', t.sourceReference), Join(u.source, '#', u.sourceReference));
    }
  }

  /** For sources without the separator the item key is the identity. */
  lemma IdentityKeyIsIdentity(a: Acceptance, b: Acceptance)
    requires '#' !in a.transaction.source && '#' !in b.transaction.source
    ensures IdentityKey(a) == IdentityKey(b) <==> PairOf(a) == PairOf(b)
  {
    var t, u := a.transaction, b.transaction;
    if IdentityKey(a) == IdentityKey(b) {
      SamePrefix("TX#", Join(t.source, '#', t.sourceReference), Join(u.source, '#', u.sourceReference));
      SameAtSeparator(t.source, t.sourceReference, u.source, u.sourceReference, '#');
    }
  }
}
