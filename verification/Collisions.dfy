/**
 Different transactions that share a key although their identities differ: the second one
 is answered as a conflict with the first.
 */
module Collisions {
  import opened Wrappers
  import opened Timestamps
  import opened Domain
  import opened Marshalling
  import opened Outbox
  import opened Intake
  import opened TollRoad
  import Race
  import Dynamo = DynamoAccept

  /** Whoever shares a store key with an accepted transaction of another identity is a conflict. */
  lemma SharedKeyConflicts(t: Transaction, u: Transaction, allowedTypes: set<string>, first: Intake.Call, second: Intake.Call)
    requires first.command.transaction == t && second.command.transaction == u
    requires first.newId != "" && second.newId != ""
    requires Validate(t, allowedTypes).None? && Validate(u, allowedTypes).None?
    requires Key(t) == Key(u) && (t.source != u.source || t.sourceReference != u.sourceReference)
    ensures var accepted := Handle(EMPTY, allowedTypes, first.command, first.eventId, first.newId, first.now);
            && accepted.1 == Success(FirstAccepted(IdOf(first), first.eventId))
            && Handle(accepted.0, allowedTypes, second.command, second.eventId, second.newId, second.now)
               == (accepted.0, Failure(ConflictingPayload))
  {
    hide Validate, Fingerprint, Key, Handle;
    FingerprintDecidesContent(t, u, allowedTypes);
    OneCall(EMPTY, allowedTypes, first);
    OneCall(Handle(EMPTY, allowedTypes, first.command, first.eventId, first.newId, first.now).0, allowedTypes, second);
  }

  /** The identities ("a:b", "c") and ("a", "b:c"). */
  lemma ColonsCollide(correlation: string, first: string, second: string, ids: string, now: Time)
    requires ids != ""
    ensures var t, u := Toll("a:b", "c", ""), Toll("a", "b:c", "");
            var accepted := Handle(EMPTY, TOLL, Command(t, correlation), first, ids, now);
            && accepted.1 == Success(FirstAccepted(ids, first))
            && Handle(accepted.0, TOLL, Command(u, correlation), second, ids, now)
               == (accepted.0, Failure(ConflictingPayload))
  {
    hide Validate, Fingerprint, Handle;
    var t, u := Toll("a:b", "c", ""), Toll("a", "b:c", "");
    EmptyObject();
    TollIsValid("a:b", "c", "");
    TollIsValid("a", "b:c", "");
    assert Key(t) == "a:b:c" == Key(u);
    SharedKeyConflicts(t, u, TOLL,
      Intake.Call(Command(t, correlation), first, ids, now), Intake.Call(Command(u, correlation), second, ids, now));
  }

  /** On DynamoDB the same happens to two acceptances that share an item key. */
  lemma SharedItemKeyConflicts(a: Acceptance, b: Acceptance) returns (systems: seq<Dynamo.System>)
    requires Dynamo.IdentityKey(a) == Dynamo.IdentityKey(b) && a.fingerprint != b.fingerprint && AcceptanceMarshals(a)
    ensures Dynamo.Behavior(systems,
              [Dynamo.Call(1, a), Dynamo.Read(1, false), Dynamo.Write(1, true, Dynamo.Ok), Dynamo.Call(2, b), Dynamo.Read(2, false)])
    ensures Dynamo.AnsweredWith(systems[5], 1, Race.Won(a), 0) && Dynamo.AnsweredWith(systems[5], 2, Conflict, 1)
  {
    hide Dynamo.IdentityKey, Encodable, AcceptanceMarshals;
    EncodableExactly(a);
    var s1 := Dynamo.Apply(Dynamo.START, Dynamo.Call(1, a));
    var s2 := Dynamo.Apply(s1, Dynamo.Read(1, false));
    var s3 := Dynamo.Apply(s2, Dynamo.Write(1, true, Dynamo.Ok));
    var s4 := Dynamo.Apply(s3, Dynamo.Call(2, b));
    var s5 := Dynamo.Apply(s4, Dynamo.Read(2, false));
    systems := [Dynamo.START, s1, s2, s3, s4, s5];
  }

  /** The identities ("a#b", "c") and ("a", "b#c"). */
  lemma HashesCollide(first: string, second: string, ids: string, now: Time) returns (systems: seq<Dynamo.System>)
    requires InYears(now)
    ensures var t, u := Toll("a#b", "c", ""), Toll("a", "b#c", "");
            && Fingerprint(t, TOLL).Success? && Fingerprint(u, TOLL).Success?
            && var a, b := Build(Command(t, ""), Fingerprint(t, TOLL).value, first, ids, now),
                           Build(Command(u, ""), Fingerprint(u, TOLL).value, second, ids, now);
            && Dynamo.Behavior(systems,
                 [Dynamo.Call(1, a), Dynamo.Read(1, false), Dynamo.Write(1, true, Dynamo.Ok), Dynamo.Call(2, b), Dynamo.Read(2, false)])
            && Dynamo.AnsweredWith(systems[5], 1, Race.Won(a), 0) && Dynamo.AnsweredWith(systems[5], 2, Conflict, 1)
  {
    hide Validate, Fingerprint, Key, Dynamo.Behavior;
    var t, u := Toll("a#b", "c", ""), Toll("a", "b#c", "");
    EmptyObject();
    TollIsValid("a#b", "c", "");
    TollIsValid("a", "b#c", "");
    FingerprintDecidesContent(t, u, TOLL);
    var a := Build(Command(t, ""), Fingerprint(t, TOLL).value, first, ids, now);
    var b := Build(Command(u, ""), Fingerprint(u, TOLL).value, second, ids, now);
    assert Dynamo.IdentityKey(a) == "TX#a#b#c" == Dynamo.IdentityKey(b);
    systems := SharedItemKeyConflicts(a, b);
  }
}
