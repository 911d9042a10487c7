/**
 When a request on DynamoDB is answered, and with what: after at most three calls, with an
 error exactly after certain failures, and after a cancelled write with the winner's outcome.
 */
module DynamoAnswers {
  import opened Marshalling
  import opened Outbox
  import opened Race
  import opened DynamoAccept

  // ----- Every request is answered

  /** How many calls are left at most. */
  function Rank(stage: Stage): nat {
    match stage
    case Reading => 3
    case Writing => 2
    case Rereading => 1
    case Answered(_) => 0
  }

  /** Every call of a request brings it closer to its answer and leaves the other requests alone. */
  lemma OwnStep(s: System, action: Action)
    requires Enabled(s, action) && !action.Call?
    ensures var after := Apply(s, action);
            && after.clients.Keys == s.clients.Keys && action.client in s.clients
            && Rank(after.clients[action.client].stage) < Rank(s.clients[action.client].stage)
            && forall other | other in s.clients && other != action.client :: after.clients[other] == s.clients[other]
  {
    hide IdentityKey, Judge, Land, Encodable;
  }

  ghost predicate CanStep(s: System, client: nat, report: Report) {
    exists action: Action :: action.client == client && Enabled(s, action) &&
      match action
      case Call(_, _) => false
      case Read(_, fails) => fails == (report != Ok)
      case Write(_, landed, reported) => reported == report && landed == (report == Ok)
      case Reread(_, fails) => fails == (report != Ok)
  }

  /**
   A request without an answer always has a next call, which may fail, and which may succeed
   as long as neither of its two items exists.
   */
  lemma NeverStuck(s: System, client: nat, report: Report)
    requires client in s.clients && !s.clients[client].stage.Answered?
    ensures report != Ok ==> CanStep(s, client, report)
    ensures var a := s.clients[client].acceptance;
            IdentityKey(a) !in s.database.identities && a.event.id !in s.database.outbox ==> CanStep(s, client, report)
  {
    hide IdentityKey, Judge, Land;
    var action :=
      match s.clients[client].stage
      case Reading => Read(client, report != Ok)
      case Writing => Write(client, report == Ok, report)
      case Rereading => Reread(client, report != Ok)
      case Answered(_) => Read(client, true);
    assert action.client == client;
    if report != Ok {
      assert Enabled(s, action);
    }
    if IdentityKey(s.clients[client].acceptance) !in s.database.identities
       && s.clients[client].acceptance.event.id !in s.database.outbox {
      assert Enabled(s, action);
    }
  }

  // ----- Errors

  ghost predicate Absent(s: System, client: nat) {
    client in s.clients && IdentityKey(s.clients[client].acceptance) !in s.database.identities
  }

  /**
   What is answered with an error: a failed read; an absent identity when the acceptance
   cannot be marshalled; a failed write that was not cancelled; and after a cancelled write
   a failed read or no identity.
   */
  ghost predicate Errs(s: System, action: Action) {
    match action
    case Call(_, _) => false
    case Read(client, fails) => fails || (Absent(s, client) && !AcceptanceMarshals(s.clients[client].acceptance))
    case Write(_, _, report) => report == OtherError
    case Reread(client, fails) => fails || Absent(s, client)
  }

  ghost predicate FailedAt(s: System, client: nat) {
    client in s.clients && s.clients[client].stage.Answered? && s.clients[client].stage.answer.Failed?
  }

  lemma StepErrs(s: System, action: Action, client: nat)
    requires Enabled(s, action)
    ensures FailedAt(Apply(s, action), client) <==> FailedAt(s, client) || (action.client == client && Errs(s, action))
  {
    hide IdentityKey, Judge, Land, Encodable, AcceptanceMarshals;
    if action.Read? {
      EncodableExactly(s.clients[action.client].acceptance);
    }
  }

  /** A request is answered with an error exactly when one of its own steps was such a one. */
  lemma ErrorExactly(systems: seq<System>, actions: seq<Action>, n: nat, client: nat)
    requires Behavior(systems, actions) && n <= |actions|
    ensures FailedAt(systems[n], client) <==> exists i | 0 <= i < n :: actions[i].client == client && Errs(systems[i], actions[i])
  {
    hide Apply, Enabled, Errs;
    if n > 0 {
      ErrorExactly(systems, actions, n - 1, client);
      assert systems[n - 1 + 1] == Apply(systems[n - 1], actions[n - 1]);
      StepErrs(systems[n - 1], actions[n - 1], client);
    }
  }

  // ----- Races

  ghost predicate Races(action: Action, client: nat) {
    action.client == client && action.Write? && action.report == Canceled
  }

  function Owner(action: Action): nat {
    action.client
  }

  ghost predicate RereadsAt(s: System, client: nat) {
    client in s.clients && s.clients[client].stage == Rereading
  }

  lemma StepRaces(s: System, action: Action, client: nat)
    requires Enabled(s, action)
    ensures RereadsAt(Apply(s, action), client) <==>
            if action.client == client then Races(action, client) else RereadsAt(s, client)
  {
    hide IdentityKey, Judge, Land, Encodable;
  }

  /** A request reads the identity again exactly when its last call was a cancelled write. */
  lemma RaceExactly(systems: seq<System>, actions: seq<Action>, n: nat, client: nat)
    requires Behavior(systems, actions) && n <= |actions|
    ensures RereadsAt(systems[n], client) <==>
            exists i: nat :: LastStep(actions, Owner, i, n, client) && Races(actions[i], client)
  {
    hide Apply, Enabled, Races, RereadsAt, LastStep;
    if n == 0 {
      NothingAtStart(actions, client);
    } else {
      RaceExactly(systems, actions, n - 1, client);
      assert systems[n - 1 + 1] == Apply(systems[n - 1], actions[n - 1]);
      StepRaces(systems[n - 1], actions[n - 1], client);
      LastStepNext(actions, Owner, n, client);
    }
  }

  lemma NothingAtStart(actions: seq<Action>, client: nat)
    ensures !RereadsAt(START, client) && forall i: nat :: !LastStep(actions, Owner, i, 0, client)
  {
  }

  /**
   A request whose write was cancelled, and whose next call runs without a failure on a
   committed identity, is answered from that identity: with the winner's IDs when the
   content is the winner's, and with a conflict otherwise. The next call is the second read.
   */
  lemma LoserIsJudged(systems: seq<System>, actions: seq<Action>, i: nat, n: nat, client: nat) returns (winner: nat)
    requires Behavior(systems, actions) && LastStep(actions, Owner, i, n, client) && Races(actions[i], client)
    requires n < |actions| && actions[n].client == client && (actions[n].Reread? ==> !actions[n].fails)
    requires client in systems[n].clients && !Absent(systems[n], client)
    ensures actions[n].Reread? && client in systems[n + 1].clients
    ensures var history := systems[n + 1].database.history; var a := systems[n + 1].clients[client].acceptance;
            && a == systems[n].clients[client].acceptance
            && winner < |history| && history[winner].key == IdentityKey(a)
            && history[winner].outcome == Won(history[winner].acceptance)
            && DynamoAccept.AnsweredWith(systems[n + 1], client,
                 if a.fingerprint == history[winner].acceptance.fingerprint
                 then Replay(history[winner].acceptance.transaction.id, history[winner].acceptance.event.id) else Conflict,
                 |systems[n].database.history|)
  {
    hide Races, Inv, IdentityKey, ViewOk, Legal, RaceRun, Encodable;
    RaceExactly(systems, actions, n, client);
    assert Enabled(systems[n], actions[n]) && systems[n + 1] == Apply(systems[n], actions[n]);
    var d, a := systems[n].database, systems[n].clients[client].acceptance;
    var outcome := Judge(d.identities[IdentityKey(a)], a.fingerprint);
    assert DynamoAccept.AnsweredWith(systems[n + 1], client, outcome, |d.history|);
    winner := DynamoAccept.OthersAreJudged(systems, actions, n + 1, client, outcome, |d.history|);
  }

  /** A read that finds the identity, the first or the second one, is the answer. */
  lemma FoundIsJudged(s: System, action: Action)
    requires Enabled(s, action) && (action == Read(action.client, false) || action == Reread(action.client, false))
    requires action.client in s.clients && !Absent(s, action.client)
    ensures DynamoAccept.AnsweredWith(Apply(s, action), action.client,
              Judge(s.database.identities[IdentityKey(s.clients[action.client].acceptance)], s.clients[action.client].acceptance.fingerprint),
              |s.database.history|)
  {
    hide IdentityKey, Judge, Encodable;
  }

  // ----- Acceptance

  ghost predicate AcceptedAt(s: System, client: nat) {
    && client in s.clients && s.clients[client].stage.Answered?
    && s.clients[client].stage.answer.Answer? && s.clients[client].stage.answer.outcome.Accepted?
  }

  lemma StepAccepts(s: System, action: Action, client: nat)
    requires Enabled(s, action)
    ensures AcceptedAt(Apply(s, action), client) <==> AcceptedAt(s, client) || action == Write(client, true, Ok)
  {
    hide IdentityKey, Land, Encodable;
  }

  /** A request is answered as accepted exactly when its write landed and said so. */
  lemma AcceptedExactly(systems: seq<System>, actions: seq<Action>, n: nat, client: nat)
    requires Behavior(systems, actions) && n <= |actions|
    ensures AcceptedAt(systems[n], client) <==> exists i | 0 <= i < n :: actions[i] == Write(client, true, Ok)
  {
    hide Apply, Enabled;
    if n > 0 {
      AcceptedExactly(systems, actions, n - 1, client);
      assert systems[n - 1 + 1] == Apply(systems[n - 1], actions[n - 1]);
      StepAccepts(systems[n - 1], actions[n - 1], client);
    }
  }
}
