/**
 Concurrent acceptance on PostgreSQL: a serializable transaction that looks the identity
 up, inserts both rows and commits; after a unique violation or a serialization failure at
 the first insert or at the commit the identity is read again. Uncommitted rows are
 invisible; committing makes both rows visible at once.
 */
module PostgresAccept {
  import opened Wrappers
  import opened Marshalling
  import opened Outbox
  import opened Race

  datatype Stage =
    | Beginning
    | LookingUp
    | EndingLookup(existing: Identity)
    | InsertingTransaction
    | InsertingEvent
    | Committing
    | Classifying
    | Answered(answer: Answer)

  datatype Client = Client(acceptance: Acceptance, since: nat, stage: Stage)

  /** How a statement fails: with one of the two SQL states that mean a race, or otherwise. */
  datatype Fault = NoFault | UniqueViolation | SerializationFailure | OtherFault

  datatype System = System(database: Database<Pair>, transactionIds: set<string>, clients: map<nat, Client>)

  datatype Action =
    | Call(client: nat, acceptance: Acceptance)
    | Begin(client: nat, fault: Fault)
    | LookUp(client: nat, fault: Fault)
    | EndLookup(client: nat, fault: Fault)
    | InsertTransaction(client: nat, fault: Fault)
    | InsertEvent(client: nat, fault: Fault)
    | Commit(client: nat, landed: bool, fault: Fault)
    | Classify(client: nat, fault: Fault)

  const START: System := System(Database(map[], map[], []), {}, map[])

  predicate IsConcurrencyConflict(fault: Fault) {
    fault == UniqueViolation || fault == SerializationFailure
  }

  /** The unique constraints of both tables against the committed rows. */
  predicate Unique(s: System, a: Acceptance) {
    PairOf(a) !in s.database.identities && a.transaction.id !in s.transactionIds && a.event.id !in s.database.outbox
  }

  predicate At(s: System, client: nat, stage: Stage) {
    client in s.clients && s.clients[client].stage == stage
  }

  /**
   An insert whose key is already committed cannot succeed, and a commit lands only while
   the constraints hold; a commit without a fault has landed.
   */
  predicate Enabled(s: System, action: Action) {
    match action
    case Call(client, _) => client !in s.clients
    case Begin(client, _) => At(s, client, Beginning)
    case LookUp(client, _) => At(s, client, LookingUp)
    case EndLookup(client, _) => client in s.clients && s.clients[client].stage.EndingLookup?
    case InsertTransaction(client, fault) =>
      At(s, client, InsertingTransaction) && (!Unique(s, s.clients[client].acceptance) ==> fault != NoFault)
    case InsertEvent(client, _) => At(s, client, InsertingEvent)
    case Commit(client, landed, fault) =>
      && At(s, client, Committing)
      && (landed ==> Unique(s, s.clients[client].acceptance) && !IsConcurrencyConflict(fault)) && (fault == NoFault ==> landed)
    case Classify(client, _) => At(s, client, Classifying)
  }

  function To(s: System, database: Database<Pair>, client: nat, stage: Stage): System
    requires client in s.clients
  {
    s.(database := database, clients := s.clients[client := s.clients[client].(stage := stage)])
  }

  function Fail(s: System, client: nat): System
    requires client in s.clients
  {
    To(s, s.database, client, Answered(Failed(Unavailable)))
  }

  /** The answer that a committed identity gives. */
  function AnswerFrom(s: System, client: nat): System
    requires client in s.clients && PairOf(s.clients[client].acceptance) in s.database.identities
  {
    var d, a := s.database, s.clients[client].acceptance;
    To(s, Observe(d, client, PairOf(a), a), client,
      Answered(Answer(Judge(d.identities[PairOf(a)], a.fingerprint), |d.history|)))
  }

  /** A failed insert or commit: a race is classified by reading the identity again. */
  function AfterFault(s: System, client: nat, fault: Fault): System
    requires client in s.clients
  {
    if IsConcurrencyConflict(fault) then To(s, s.database, client, Classifying) else Fail(s, client)
  }

  function Apply(s: System, action: Action): System
    requires Enabled(s, action)
  {
    match action
    case Call(client, a) =>
      // A transaction or an event that cannot be marshalled is refused before anything else.
      s.(clients := s.clients[client :=
        Client(a, |s.database.history|, if Encodable(a) then Beginning else Answered(Failed(Unavailable)))])
    case Begin(client, fault) => if fault != NoFault then Fail(s, client) else To(s, s.database, client, LookingUp)
    case LookUp(client, fault) =>
      var pair := PairOf(s.clients[client].acceptance);
      if fault != NoFault then Fail(s, client)
      else if pair in s.database.identities then To(s, s.database, client, EndingLookup(s.database.identities[pair]))
      else To(s, s.database, client, InsertingTransaction)
    case EndLookup(client, fault) =>
      var a, existing := s.clients[client].acceptance, s.clients[client].stage.existing;
      if fault != NoFault then Fail(s, client)
      else
        To(s, s.database.(history := s.database.history + [Entry(client, PairOf(a), a, Judge(existing, a.fingerprint))]), client,
          Answered(Answer(Judge(existing, a.fingerprint), |s.database.history|)))
    case InsertTransaction(client, fault) =>
      if fault != NoFault then AfterFault(s, client, fault) else To(s, s.database, client, InsertingEvent)
    case InsertEvent(client, fault) => if fault != NoFault then Fail(s, client) else To(s, s.database, client, Committing)
    case Commit(client, landed, fault) =>
      var a := s.clients[client].acceptance;
      var after := if landed
        then s.(database := Land(s.database, client, PairOf(a), a), transactionIds := s.transactionIds + {a.transaction.id}) else s;
      if fault != NoFault then AfterFault(after, client, fault)
      else To(after, after.database, client, Answered(Answer(Won(a), |s.database.history|)))
    case Classify(client, fault) =>
      if fault != NoFault || PairOf(s.clients[client].acceptance) !in s.database.identities then Fail(s, client)
      else AnswerFrom(s, client)
  }

  ghost predicate Behavior(systems: seq<System>, actions: seq<Action>) {
    && |systems| == |actions| + 1 && systems[0] == START
    && forall i | 0 <= i < |actions| :: Enabled(systems[i], actions[i]) && systems[i + 1] == Apply(systems[i], actions[i])
  }

  // ----- The invariant

  /** What a lookup found stays committed: identities are never changed. */
  ghost predicate ClientOk(d: Database<Pair>, client: nat, c: Client) {
    && c.since <= |d.history|
    && (c.stage.EndingLookup? ==>
          PairOf(c.acceptance) in d.identities && d.identities[PairOf(c.acceptance)] == c.stage.existing)
    && (c.stage.Answered? ==> AnswerOk(d, client, PairOf(c.acceptance), c.acceptance, c.since, c.stage.answer))
  }

  ghost predicate Inv(s: System) {
    Sound(s.database) && forall client | client in s.clients :: ClientOk(s.database, client, s.clients[client])
  }

  ghost predicate Extends(d: Database<Pair>, after: Database<Pair>) {
    && d.history <= after.history
    && forall pair | pair in d.identities :: pair in after.identities && after.identities[pair] == d.identities[pair]
  }

  lemma ClientStays(d: Database<Pair>, after: Database<Pair>, client: nat, c: Client)
    requires ClientOk(d, client, c) && Extends(d, after)
    ensures ClientOk(after, client, c)
  {
    if c.stage.Answered? {
      AnswerStays(d, after, client, PairOf(c.acceptance), c.acceptance, c.since, c.stage.answer);
    }
  }

  lemma Moves(s: System, after: System, client: nat, stage: Stage)
    requires Inv(s) && client in s.clients && Sound(after.database) && Extends(s.database, after.database)
    requires ClientOk(after.database, client, s.clients[client].(stage := stage))
    requires after.clients == s.clients[client := s.clients[client].(stage := stage)]
    ensures Inv(after)
  {
    hide ClientOk, Sound, Extends;
    forall c | c in after.clients ensures ClientOk(after.database, c, after.clients[c]) {
      if c != client {
        ClientStays(s.database, after.database, c, s.clients[c]);
      }
    }
  }

  /** A request that fails at once. */
  lemma FailedOk(d: Database<Pair>, client: nat, a: Acceptance)
    ensures AnswerOk(d, client, PairOf(a), a, |d.history|, Failed(Unavailable))
  {
  }

  lemma ClientOf(s: System, client: nat)
    requires Inv(s) && client in s.clients
    ensures ClientOk(s.database, client, s.clients[client])
  {
  }

  lemma FailKeeps(s: System, client: nat)
    requires Inv(s) && client in s.clients
    ensures Inv(Fail(s, client))
  {
    hide Sound;
    ClientOf(s, client);
    Moves(s, Fail(s, client), client, Answered(Failed(Unavailable)));
  }

  lemma StageKeeps(s: System, client: nat, stage: Stage)
    requires Inv(s) && client in s.clients && !stage.EndingLookup? && !stage.Answered?
    ensures Inv(To(s, s.database, client, stage))
  {
    hide Sound;
    ClientOf(s, client);
    Moves(s, To(s, s.database, client, stage), client, stage);
  }

  lemma FaultKeeps(s: System, client: nat, fault: Fault)
    requires Inv(s) && client in s.clients
    ensures Inv(AfterFault(s, client, fault))
  {
    hide Inv;
    FailKeeps(s, client);
    StageKeeps(s, client, Classifying);
  }

  lemma LookUpKeeps(s: System, client: nat)
    requires Inv(s) && client in s.clients && PairOf(s.clients[client].acceptance) in s.database.identities
    ensures Inv(To(s, s.database, client, EndingLookup(s.database.identities[PairOf(s.clients[client].acceptance)])))
  {
    hide Sound;
    ClientOf(s, client);
    var stage := EndingLookup(s.database.identities[PairOf(s.clients[client].acceptance)]);
    Moves(s, To(s, s.database, client, stage), client, stage);
  }

  lemma AnswerKeeps(s: System, client: nat)
    requires Inv(s) && client in s.clients && PairOf(s.clients[client].acceptance) in s.database.identities
    ensures Inv(AnswerFrom(s, client)) && Extends(s.database, AnswerFrom(s, client).database)
  {
    hide Sound;
    ClientOf(s, client);
    var d, a := s.database, s.clients[client].acceptance;
    ObserveSound(d, client, PairOf(a), a);
    Moves(s, AnswerFrom(s, client), client, Answered(Answer(Judge(d.identities[PairOf(a)], a.fingerprint), |d.history|)));
  }

  /** A landed commit makes both rows visible; its client may not learn of it. */
  lemma LandKeeps(s: System, client: nat, ids: set<string>, stage: Stage)
    requires Inv(s) && client in s.clients && PairOf(s.clients[client].acceptance) !in s.database.identities
    requires s.clients[client].acceptance.event.id !in s.database.outbox
    requires stage == Answered(Failed(Unavailable)) ||
             stage == Answered(Answer(Won(s.clients[client].acceptance), |s.database.history|))
    ensures var a := s.clients[client].acceptance;
            var landed := System(Land(s.database, client, PairOf(a), a), ids, s.clients);
            Inv(To(landed, landed.database, client, stage)) && Extends(s.database, landed.database)
  {
    hide Sound;
    ClientOf(s, client);
    var a := s.clients[client].acceptance;
    var landed := System(Land(s.database, client, PairOf(a), a), ids, s.clients);
    LandSound(s.database, client, PairOf(a), a);
    Moves(s, To(landed, landed.database, client, stage), client, stage);
  }

  lemma CommitKeeps(s: System, client: nat, landed: bool, fault: Fault)
    requires Inv(s) && Enabled(s, Commit(client, landed, fault))
    ensures Inv(Apply(s, Commit(client, landed, fault)))
    ensures Extends(s.database, Apply(s, Commit(client, landed, fault)).database)
  {
    hide Inv;
    var a := s.clients[client].acceptance;
    if landed {
      var ids := s.transactionIds + {a.transaction.id};
      if fault == NoFault {
        LandKeeps(s, client, ids, Answered(Answer(Won(a), |s.database.history|)));
      } else {
        LandKeeps(s, client, ids, Answered(Failed(Unavailable)));
      }
    } else {
      FaultKeeps(s, client, fault);
    }
  }

  lemma StepKeeps(s: System, action: Action)
    requires Inv(s) && Enabled(s, action)
    ensures Inv(Apply(s, action)) && Extends(s.database, Apply(s, action).database)
  {
    hide Sound, AnswerOk, Encodable;
    match action
    case Call(client, a) => FailedOk(s.database, client, a);
    case Begin(client, fault) => FailKeeps(s, client); StageKeeps(s, client, LookingUp);
    case LookUp(client, fault) =>
      FailKeeps(s, client);
      StageKeeps(s, client, InsertingTransaction);
      if PairOf(s.clients[client].acceptance) in s.database.identities {
        LookUpKeeps(s, client);
      }
    case EndLookup(client, fault) =>
      FailKeeps(s, client);
      ClientOf(s, client);
      AnswerKeeps(s, client);
    case InsertTransaction(client, fault) => FaultKeeps(s, client, fault); StageKeeps(s, client, InsertingEvent);
    case InsertEvent(client, fault) => FailKeeps(s, client); StageKeeps(s, client, Committing);
    case Commit(client, landed, fault) => CommitKeeps(s, client, landed, fault);
    case Classify(client, fault) =>
      FailKeeps(s, client);
      if PairOf(s.clients[client].acceptance) in s.database.identities {
        AnswerKeeps(s, client);
      }
  }

  lemma Reachable(systems: seq<System>, actions: seq<Action>, n: nat)
    requires Behavior(systems, actions) && n <= |actions|
    ensures Inv(systems[n])
  {
    hide Apply, Enabled;
    if n > 0 {
      Reachable(systems, actions, n - 1);
      StepKeeps(systems[n - 1], actions[n - 1]);
      assert systems[n - 1 + 1] == Apply(systems[n - 1], actions[n - 1]);
    } else {
      StartOk();
    }
  }

  lemma StartOk()
    ensures Inv(START)
  {
  }

  // ----- Linearizability

  /** What matters of the system to the race. */
  function ViewOf(s: System): View<Pair> {
    View(s.database, map client | client in s.clients ::
      var c := s.clients[client];
      Request(c.acceptance, c.since, if c.stage.Answered? then Some(c.stage.answer) else None))
  }

  function Views(systems: seq<System>): (views: seq<View<Pair>>)
    ensures |views| == |systems| && forall i | 0 <= i < |systems| :: views[i] == ViewOf(systems[i])
  {
    seq(|systems|, i requires 0 <= i < |systems| => ViewOf(systems[i]))
  }

  lemma ViewIsOk(s: System)
    requires Inv(s)
    ensures ViewOk(ViewOf(s), PairOf)
  {
    hide Sound, PairOf, AnswerOk;
    forall client | client in s.clients ensures RequestOk(s.database, PairOf, client, ViewOf(s).requests[client]) {
      assert ClientOk(s.database, client, s.clients[client]);
    }
  }

  /** A request keeps its acceptance and its start, an answer is final, and a new request starts now. */
  lemma ViewGrows(s: System, action: Action)
    requires Inv(s) && Enabled(s, action)
    ensures Grows(ViewOf(s), ViewOf(Apply(s, action)))
  {
    hide Inv, PairOf;
    StepKeeps(s, action);
    RequestsKept(s, action);
  }

  lemma RequestsKept(s: System, action: Action)
    requires Enabled(s, action)
    ensures var after := Apply(s, action);
            && (forall client | client in s.clients ::
                  && client in after.clients
                  && after.clients[client].acceptance == s.clients[client].acceptance
                  && after.clients[client].since == s.clients[client].since
                  && (s.clients[client].stage.Answered? ==> after.clients[client] == s.clients[client]))
            && (forall client | client in after.clients && client !in s.clients ::
                  after.clients[client].since == |s.database.history|)
  {
    hide PairOf, Judge, Land, Encodable;
  }

  /**
   Every behavior is a race: in every state each answer that is not an error is that of one
   atomic accept, which took effect between the call and the answer, in an order of atomic
   accepts that yields exactly the committed identities; no transaction row is without its
   event row or the other way round, and the event is the one the winner brought.
   */
  lemma Linearizable(systems: seq<System>, actions: seq<Action>, n: nat)
    requires Behavior(systems, actions) && n <= |actions|
    ensures RaceRun(Views(systems), PairOf)
    ensures var d := systems[n].database; Legal(d.history) && Outcome(d.history) == d.identities && Paired(d) && EventsKept(d)
    ensures forall client | client in systems[n].clients ::
              var c := systems[n].clients[client];
              c.stage.Answered? && c.stage.answer.Answer? ==>
                && c.since <= c.stage.answer.place < |systems[n].database.history|
                && systems[n].database.history[c.stage.answer.place] ==
                   Entry(client, PairOf(c.acceptance), c.acceptance, c.stage.answer.outcome)
  {
    hide Legal, Outcome, Apply, Enabled, PairOf, Inv, ViewOf, ViewOk, Grows;
    forall i | 0 <= i < |systems| ensures ViewOk(Views(systems)[i], PairOf) {
      Reachable(systems, actions, i);
      ViewIsOk(systems[i]);
    }
    forall i | 0 <= i < |systems| - 1 ensures Grows(Views(systems)[i], Views(systems)[i + 1]) {
      Reachable(systems, actions, i);
      ViewGrows(systems[i], actions[i]);
    }
    Reachable(systems, actions, n);
    Consistent(systems[n]);
  }

  lemma Consistent(s: System)
    requires Inv(s)
    ensures Sound(s.database) && forall client | client in s.clients :: ClientOk(s.database, client, s.clients[client])
  {
  }

  ghost predicate AnsweredWith(s: System, client: nat, outcome: StoreOutcome, place: nat) {
    client in s.clients && s.clients[client].stage == Answered(Answer(outcome, place))
  }

  /** Of all requests for one source and reference at most one is answered as accepted. */
  lemma AtMostOneAccepted(
      systems: seq<System>, actions: seq<Action>, n: nat, c1: nat, c2: nat, o1: StoreOutcome, p1: nat, o2: StoreOutcome, p2: nat)
    requires Behavior(systems, actions) && n <= |actions| && c1 != c2
    requires AnsweredWith(systems[n], c1, o1, p1) && AnsweredWith(systems[n], c2, o2, p2)
    requires PairOf(systems[n].clients[c1].acceptance) == PairOf(systems[n].clients[c2].acceptance)
    ensures !o1.Accepted? || !o2.Accepted?
  {
    hide Apply, Enabled, Inv, PairOf, ViewOk;
    Reachable(systems, actions, n);
    ViewIsOk(systems[n]);
    Race.AtMostOneAccepted(ViewOf(systems[n]), PairOf, c1, c2, o1, p1, o2, p2);
  }

  /** Every other answer is judged against the accept that won the source and reference, carries the winner's IDs, and the winner's event is stored. */
  lemma OthersAreJudged(
      systems: seq<System>, actions: seq<Action>, n: nat, client: nat, outcome: StoreOutcome, place: nat) returns (winner: nat)
    requires Behavior(systems, actions) && n <= |actions|
    requires AnsweredWith(systems[n], client, outcome, place) && !outcome.Accepted?
    ensures var history := systems[n].database.history; var a := systems[n].clients[client].acceptance;
            && winner < place < |history| && history[winner].key == PairOf(a)
            && history[winner].outcome == Won(history[winner].acceptance)
            && (outcome == if a.fingerprint == history[winner].acceptance.fingerprint
                           then Replay(history[winner].acceptance.transaction.id, history[winner].acceptance.event.id) else Conflict)
            && history[winner].acceptance.event.id in systems[n].database.outbox
            && systems[n].database.outbox[history[winner].acceptance.event.id] == history[winner].acceptance.event
  {
    hide Apply, Enabled, Inv, PairOf, ViewOk;
    Reachable(systems, actions, n);
    ViewIsOk(systems[n]);
    winner := Race.OthersAreJudged(ViewOf(systems[n]), PairOf, client, outcome, place);
  }

  /** A request that is called after another was answered takes effect after it. */
  lemma RealTimeOrder(
      systems: seq<System>, actions: seq<Action>, i: nat, n: nat, c1: nat, c2: nat,
      o1: StoreOutcome, p1: nat, o2: StoreOutcome, p2: nat)
    requires Behavior(systems, actions) && i < n <= |actions|
    requires AnsweredWith(systems[i], c1, o1, p1) && actions[i].Call? && actions[i].client == c2
    requires AnsweredWith(systems[n], c2, o2, p2)
    ensures p1 < p2
  {
    hide Apply, PairOf, RaceRun;
    Linearizable(systems, actions, n);
    Race.RealTimeOrder(Views(systems), PairOf, i, n, c1, c2, o1, p1, o2, p2);
  }
}
