/**
 When a request on PostgreSQL is answered, and with what: after at most six statements, with
 an error exactly after certain faults, and after a lost race with the winner's outcome.
 */
module PostgresAnswers {
  import opened Marshalling
  import opened Outbox
  import opened Race
  import opened PostgresAccept

  // ----- Every request is answered

  /** How many statements are left at most. */
  function Rank(stage: Stage): nat {
    match stage
    case Beginning => 6
    case LookingUp => 5
    case InsertingTransaction => 4
    case InsertingEvent => 3
    case Committing => 2
    case EndingLookup(_) => 1
    case Classifying => 1
    case Answered(_) => 0
  }

  /** Every statement of a request brings it closer to its answer and leaves the other requests alone. */
  lemma OwnStep(s: System, action: Action)
    requires Enabled(s, action) && !action.Call?
    ensures var after := Apply(s, action);
            && after.clients.Keys == s.clients.Keys && action.client in s.clients
            && Rank(after.clients[action.client].stage) < Rank(s.clients[action.client].stage)
            && forall other | other in s.clients && other != action.client :: after.clients[other] == s.clients[other]
  {
    hide PairOf, Judge, Land;
  }

  ghost predicate CanStep(s: System, client: nat, fault: Fault) {
    exists action: Action :: action.client == client && !action.Call? && action.fault == fault && Enabled(s, action)
  }

  /**
   A request without an answer always has a next statement, which may meet any fault, and
   which may succeed as long as its identity and both its IDs are free.
   */
  lemma NeverStuck(s: System, client: nat, fault: Fault)
    requires client in s.clients && !s.clients[client].stage.Answered?
    ensures fault != NoFault ==> CanStep(s, client, fault)
    ensures var a := s.clients[client].acceptance;
            PairOf(a) !in s.database.identities && a.transaction.id !in s.transactionIds && a.event.id !in s.database.outbox ==>
              CanStep(s, client, NoFault)
  {
    hide PairOf, Judge, Land;
    var a := s.clients[client].acceptance;
    if fault != NoFault {
      CanTake(s, client, fault);
    }
    if PairOf(a) !in s.database.identities && a.transaction.id !in s.transactionIds && a.event.id !in s.database.outbox {
      CanTake(s, client, NoFault);
    }
  }

  lemma CanTake(s: System, client: nat, fault: Fault)
    requires client in s.clients && !s.clients[client].stage.Answered?
    requires fault != NoFault || Unique(s, s.clients[client].acceptance)
    ensures CanStep(s, client, fault)
  {
    hide PairOf, Judge, Land, Unique;
    var action :=
      match s.clients[client].stage
      case Beginning => Begin(client, fault)
      case LookingUp => LookUp(client, fault)
      case EndingLookup(_) => EndLookup(client, fault)
      case InsertingTransaction => InsertTransaction(client, fault)
      case InsertingEvent => InsertEvent(client, fault)
      case Committing => Commit(client, fault == NoFault, fault)
      case Classifying => Classify(client, fault)
      case Answered(_) => Begin(client, fault);
    assert action.client == client && !action.Call? && action.fault == fault && Enabled(s, action);
  }

  // ----- Errors

  /**
   What is answered with an error: an acceptance that cannot be marshalled; any fault at
   begin, at the lookup or its end, at the event insert or at the classification; at the
   transaction insert and the commit only a fault that is no race; and no identity to
   classify by.
   */
  ghost predicate Errs(s: System, action: Action) {
    match action
    case Call(_, a) => !AcceptanceMarshals(a)
    case Begin(_, fault) => fault != NoFault
    case LookUp(_, fault) => fault != NoFault
    case EndLookup(_, fault) => fault != NoFault
    case InsertTransaction(_, fault) => fault == OtherFault
    case InsertEvent(_, fault) => fault != NoFault
    case Commit(_, _, fault) => fault == OtherFault
    case Classify(client, fault) =>
      fault != NoFault || (client in s.clients && PairOf(s.clients[client].acceptance) !in s.database.identities)
  }

  ghost predicate FailedAt(s: System, client: nat) {
    client in s.clients && s.clients[client].stage.Answered? && s.clients[client].stage.answer.Failed?
  }

  lemma StepErrs(s: System, action: Action, client: nat)
    requires Enabled(s, action)
    ensures FailedAt(Apply(s, action), client) <==> FailedAt(s, client) || (action.client == client && Errs(s, action))
  {
    hide PairOf, Judge, Land, Unique, Encodable, AcceptanceMarshals;
    if action.Call? {
      EncodableExactly(action.acceptance);
    }
  }

  /** A request is answered with an error exactly when one of its own steps was such a one. */
  lemma ErrorExactly(systems: seq<System>, actions: seq<Action>, n: nat, client: nat)
    requires Behavior(systems, actions) && n <= |actions|
    ensures FailedAt(systems[n], client) <==> exists i | 0 <= i < n :: actions[i].client == client && Errs(systems[i], actions[i])
  {
    hide Apply, Enabled, Errs;
    if n > 0 {
      ErrorExactly(systems, actions, n - 1, client);
      assert systems[n - 1 + 1] == Apply(systems[n - 1], actions[n - 1]);
      StepErrs(systems[n - 1], actions[n - 1], client);
    }
  }

  // ----- Races

  /** The insert or the commit of a request met another one. */
  ghost predicate Races(action: Action, client: nat) {
    action.client == client &&
    match action
    case InsertTransaction(_, fault) => fault == UniqueViolation || fault == SerializationFailure
    case Commit(_, _, fault) => fault == UniqueViolation || fault == SerializationFailure
    case _ => false
  }

  lemma StepRaces(s: System, action: Action, client: nat)
    requires Enabled(s, action)
    ensures At(Apply(s, action), client, Classifying) <==>
            if action.client == client then Races(action, client) else At(s, client, Classifying)
  {
    hide PairOf, Judge, Land, Unique, Encodable;
  }

  function Owner(action: Action): nat {
    action.client
  }

  /** A request reads the identity again exactly when its last step was a lost race. */
  lemma RaceExactly(systems: seq<System>, actions: seq<Action>, n: nat, client: nat)
    requires Behavior(systems, actions) && n <= |actions|
    ensures At(systems[n], client, Classifying) <==> exists i: nat :: LastStep(actions, Owner, i, n, client) && Races(actions[i], client)
  {
    hide Apply, Enabled, Races, At, LastStep;
    if n == 0 {
      NobodyAtStart(client);
      NoStepAtStart(actions, client);
    } else {
      RaceExactly(systems, actions, n - 1, client);
      assert systems[n - 1 + 1] == Apply(systems[n - 1], actions[n - 1]);
      StepRaces(systems[n - 1], actions[n - 1], client);
      LastStepNext(actions, Owner, n, client);
    }
  }

  lemma NoStepAtStart(actions: seq<Action>, client: nat)
    ensures forall i: nat :: !LastStep(actions, Owner, i, 0, client)
  {
  }

  lemma NobodyAtStart(client: nat)
    ensures !At(START, client, Classifying)
  {
  }

  /**
   A request that lost a race at its insert or commit, and whose next statement runs without
   a fault on a committed identity, is answered from that identity: with the winner's IDs
   when the content is the winner's, and with a conflict otherwise.
   */
  lemma LoserIsJudged(systems: seq<System>, actions: seq<Action>, i: nat, n: nat, client: nat) returns (winner: nat)
    requires Behavior(systems, actions) && LastStep(actions, Owner, i, n, client) && Races(actions[i], client)
    requires n < |actions| && actions[n].client == client
    requires actions[n].Classify? && actions[n].fault == NoFault
    requires client in systems[n].clients && PairOf(systems[n].clients[client].acceptance) in systems[n].database.identities
    ensures client in systems[n + 1].clients
    ensures var history := systems[n + 1].database.history; var a := systems[n + 1].clients[client].acceptance;
            && a == systems[n].clients[client].acceptance
            && winner < |history| && history[winner].key == PairOf(a) && history[winner].outcome == Won(history[winner].acceptance)
            && PostgresAccept.AnsweredWith(systems[n + 1], client,
                 if a.fingerprint == history[winner].acceptance.fingerprint
                 then Replay(history[winner].acceptance.transaction.id, history[winner].acceptance.event.id) else Conflict,
                 |systems[n].database.history|)
  {
    hide Enabled, Races, Inv, PairOf, ViewOk, Legal, RaceRun;
    assert systems[n + 1] == Apply(systems[n], actions[n]);
    var d, a := systems[n].database, systems[n].clients[client].acceptance;
    var outcome := Judge(d.identities[PairOf(a)], a.fingerprint);
    assert PostgresAccept.AnsweredWith(systems[n + 1], client, outcome, |d.history|);
    winner := PostgresAccept.OthersAreJudged(systems, actions, n + 1, client, outcome, |d.history|);
  }

  /** The only statement of a request that lost a race is the second read. */
  lemma LoserReadsAgain(systems: seq<System>, actions: seq<Action>, i: nat, n: nat, client: nat)
    requires Behavior(systems, actions) && LastStep(actions, Owner, i, n, client) && Races(actions[i], client)
    requires n < |actions| && actions[n].client == client
    ensures actions[n].Classify?
  {
    hide Apply, Races, PairOf, Unique;
    RaceExactly(systems, actions, n, client);
    assert Enabled(systems[n], actions[n]);
  }

  /** A lookup that finds the identity leads straight to its answer: the next statement ends the lookup. */
  lemma FoundIsJudged(s: System, client: nat, next: System, action: Action)
    requires Enabled(s, LookUp(client, NoFault)) && PairOf(s.clients[client].acceptance) in s.database.identities
    requires client in next.clients && next.clients[client] == Apply(s, LookUp(client, NoFault)).clients[client]
    requires Enabled(next, action) && action.client == client
    ensures action.EndLookup?
    ensures action.fault == NoFault ==>
              PostgresAccept.AnsweredWith(Apply(next, action), client,
                Judge(s.database.identities[PairOf(s.clients[client].acceptance)], s.clients[client].acceptance.fingerprint),
                |next.database.history|)
  {
    hide PairOf, Judge, Unique, Encodable;
  }

  // ----- Acceptance

  ghost predicate AcceptedAt(s: System, client: nat) {
    && client in s.clients && s.clients[client].stage.Answered?
    && s.clients[client].stage.answer.Answer? && s.clients[client].stage.answer.outcome.Accepted?
  }

  lemma StepAccepts(s: System, action: Action, client: nat)
    requires Enabled(s, action)
    ensures AcceptedAt(Apply(s, action), client) <==> AcceptedAt(s, client) || action == Commit(client, true, NoFault)
  {
    hide PairOf, Land, Unique, Encodable;
  }

  /** A request is answered as accepted exactly when its commit landed without a fault. */
  lemma AcceptedExactly(systems: seq<System>, actions: seq<Action>, n: nat, client: nat)
    requires Behavior(systems, actions) && n <= |actions|
    ensures AcceptedAt(systems[n], client) <==> exists i | 0 <= i < n :: actions[i] == Commit(client, true, NoFault)
  {
    hide Apply, Enabled;
    if n > 0 {
      AcceptedExactly(systems, actions, n - 1, client);
      assert systems[n - 1 + 1] == Apply(systems[n - 1], actions[n - 1]);
      StepAccepts(systems[n - 1], actions[n - 1], client);
    }
  }

  ghost predicate Faultless(actions: seq<Action>, n: nat, client: nat) {
    forall i | 0 <= i < n <= |actions| && actions[i].client == client ::
      if actions[i].Call? then AcceptanceMarshals(actions[i].acceptance) else actions[i].fault == NoFault
  }

  /** A request whose statements all succeed is never answered with an error. */
  lemma FaultlessSucceeds(systems: seq<System>, actions: seq<Action>, n: nat, client: nat)
    requires Behavior(systems, actions) && n <= |actions| && Faultless(actions, n, client)
    ensures !FailedAt(systems[n], client)
  {
    hide Apply, PairOf, Unique, AcceptanceMarshals;
    ErrorExactly(systems, actions, n, client);
    forall i | 0 <= i < n && actions[i].client == client ensures !Errs(systems[i], actions[i]) {
      assert Enabled(systems[i], actions[i]);
      RaceExactly(systems, actions, i, client);
    }
  }

  // ----- Unique IDs

  /** The committed transaction IDs are those of the committed identities, and no two identities share one or an event ID. */
  ghost predicate IdsUnique(s: System) {
    && (forall id :: id in s.transactionIds <==>
          exists pair | pair in s.database.identities :: s.database.identities[pair].transactionId == id)
    && (forall p, q | p in s.database.identities && q in s.database.identities && p != q ::
          && s.database.identities[p].transactionId != s.database.identities[q].transactionId
          && s.database.identities[p].eventId != s.database.identities[q].eventId)
  }

  lemma StepUnique(s: System, action: Action)
    requires IdsUnique(s) && Paired(s.database) && Enabled(s, action)
    ensures IdsUnique(Apply(s, action))
  {
    hide Apply, Enabled, IdsUnique, Land;
    StepIds(s, action);
    if action.Commit? && action.landed {
      LandUnique(s, action.client);
      SameIds(s.(database := Land(s.database, action.client, PairOf(s.clients[action.client].acceptance),
                    s.clients[action.client].acceptance),
                 transactionIds := s.transactionIds + {s.clients[action.client].acceptance.transaction.id}), Apply(s, action));
    } else {
      SameIds(s, Apply(s, action));
    }
  }

  lemma SameIds(s: System, after: System)
    requires IdsUnique(s) && after.database.identities == s.database.identities && after.transactionIds == s.transactionIds
    ensures IdsUnique(after)
  {
  }

  /** Only a landed commit adds an identity. */
  lemma StepIds(s: System, action: Action)
    requires Enabled(s, action)
    ensures var after := Apply(s, action);
            if action.Commit? && action.landed then
              && action.client in s.clients && Unique(s, s.clients[action.client].acceptance)
              && var a := s.clients[action.client].acceptance;
                 && after.database == Land(s.database, action.client, PairOf(a), a)
                 && after.transactionIds == s.transactionIds + {a.transaction.id}
            else after.database.identities == s.database.identities && after.transactionIds == s.transactionIds
  {
    hide Judge, PairOf, Encodable, Unique, Land;
  }

  lemma LandUnique(s: System, client: nat)
    requires IdsUnique(s) && Paired(s.database) && client in s.clients && Unique(s, s.clients[client].acceptance)
    ensures var a := s.clients[client].acceptance;
            IdsUnique(s.(database := Land(s.database, client, PairOf(a), a), transactionIds := s.transactionIds + {a.transaction.id}))
  {
    hide PairOf;
    var a := s.clients[client].acceptance;
    var after := Land(s.database, client, PairOf(a), a).identities;
    forall id ensures id in s.transactionIds + {a.transaction.id} <==> exists pair | pair in after :: after[pair].transactionId == id {
      if id == a.transaction.id {
        assert after[PairOf(a)].transactionId == id;
      } else if id in s.transactionIds {
        var pair :| pair in s.database.identities && s.database.identities[pair].transactionId == id;
        assert after[pair].transactionId == id;
      }
    }
  }

  /** The unique columns hold in every reachable state. */
  lemma AlwaysUnique(systems: seq<System>, actions: seq<Action>, n: nat)
    requires Behavior(systems, actions) && n <= |actions|
    ensures IdsUnique(systems[n])
  {
    hide Apply, Enabled, Legal, Inv, IdsUnique;
    if n == 0 {
      UniqueAtStart();
    } else {
      AlwaysUnique(systems, actions, n - 1);
      Reachable(systems, actions, n - 1);
      Consistent(systems[n - 1]);
      assert systems[n - 1 + 1] == Apply(systems[n - 1], actions[n - 1]);
      StepUnique(systems[n - 1], actions[n - 1]);
    }
  }

  lemma UniqueAtStart()
    ensures IdsUnique(START)
  {
  }
}
