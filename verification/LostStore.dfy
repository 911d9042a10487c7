/**
 A valid transaction that is accepted and acknowledged and after which the NDJSON store
 cannot be opened again: its location nests deeper than its line can be decoded.
 */
module LostStore {
  import opened Wrappers
  import opened CanonicalJson
  import opened Nesting
  import opened Timestamps
  import opened Domain
  import opened Marshalling
  import opened Outbox
  import opened Intake
  import opened Ndjson
  import opened NdjsonRuns
  import opened TollRoad

  function DeepTransaction(depth: nat): Transaction
    requires depth >= 2
  {
    Toll("s", "r", DeepObject(depth))
  }

  /** It is valid up to the limit on the message alone. */
  lemma DeepIsValid(depth: nat)
    requires 2 <= depth <= MAX_NESTING
    ensures Validate(DeepTransaction(depth), TOLL).None?
  {
    hide CanonicalObject, DeepObject;
    DeepObjectNests(depth, MAX_NESTING);
    TollIsValid("s", "r", DeepObject(depth));
  }

  /** What the intake builds from it. */
  function DeepAcceptance(depth: nat, eventId: string, newId: string, now: Time): Acceptance
    requires 2 <= depth <= MAX_NESTING
  {
    DeepIsValid(depth);
    Build(Command(DeepTransaction(depth), ""), Fingerprint(DeepTransaction(depth), TOLL).value, eventId, newId, now)
  }

  lemma DeepRaw(depth: nat)
    requires 2 <= depth <= MAX_NESTING
    ensures Reread(DeepObject(depth)).Some? && Reread("").Some?
  {
    hide DeepObject;
    DeepObjectNests(depth, MAX_NESTING);
  }

  lemma DeepLine(depth: nat, eventId: string, newId: string, now: Time)
    requires 2 <= depth <= MAX_NESTING && InYears(now)
    ensures var a := DeepAcceptance(depth, eventId, newId, now);
            && a.event.payload == a.transaction && a.event.id == eventId
            && LineOf(AcceptedRecord(a)).Some?
            && (LineOf(AcceptedRecord(a)).value.Corrupt? <==> depth > MAX_NESTING - 4)
  {
    hide Fingerprint, DeepObject, Reread, NestsWithin, FourDigitYear, Decodable;
    var a := DeepAcceptance(depth, eventId, newId, now);
    FourDigitYearExactly(ZERO);
    FourDigitYearExactly(SECOND);
    FourDigitYearExactly(now);
    DeepRaw(depth);
    DeepObjectNests(depth, MAX_NESTING - 4);
    AbsentNests();
    BuiltIsReadable(a);
  }

  lemma AbsentNests()
    ensures NestsWithin("", MAX_NESTING - 4)
  {
  }

  /** The intake answers the transaction as accepted. */
  lemma DeepIsAccepted(depth: nat, eventId: string, newId: string, now: Time)
    requires 2 <= depth <= MAX_NESTING
    ensures Handle(EMPTY, TOLL, Command(DeepTransaction(depth), ""), eventId, newId, now) ==
            (Accept(EMPTY, DeepAcceptance(depth, eventId, newId, now)).0, Success(FirstAccepted(newId, eventId)))
  {
    hide Fingerprint, Validate, DeepObject;
    DeepIsValid(depth);
  }

  /**
   From 9997 levels on: the acceptance is logged and applied, the client has been told that
   it is accepted, and the next time the store is opened there is none.
   */
  lemma DeepStoreIsLost(depth: nat, eventId: string, newId: string, now: Time)
    requires 9997 <= depth <= 10_000 && InYears(now)
    ensures var a := DeepAcceptance(depth, eventId, newId, now);
            var accepted := Handle(EMPTY, TOLL, Command(DeepTransaction(depth), ""), eventId, newId, now);
            && accepted == (WithAcceptance(EMPTY, a), Success(FirstAccepted(newId, eventId)))
            && NdjsonRuns.Run([Disk(Some(EMPTY), []), Disk(Some(accepted.0), [Corrupt]), Disk(None, [Corrupt])],
                 [Perform(Accepting(a), Completed), Reopen])
  {
    hide Fingerprint, Validate, DeepObject, LineOf, Preserved, Stored, Decodable, WithAcceptance, DeepAcceptance, InYears;
    var a := DeepAcceptance(depth, eventId, newId, now);
    DeepIsAccepted(depth, eventId, newId, now);
    DeepLine(depth, eventId, newId, now);
    BuiltIsPreserved(a);
    AcceptedCommutesExactly(EMPTY, a);
    assert Rebuild([Corrupt]) == Failure(CorruptLine) by {
      assert [Corrupt][..0] == [];
    }
    var steps := [Perform(Accepting(a), Completed), Reopen];
    assert Next(Disk(Some(EMPTY), []), steps[0], Disk(Some(WithAcceptance(EMPTY, a)), [Corrupt])) by {
      assert [] + [Corrupt] == [Corrupt];
    }
    assert Next(Disk(Some(WithAcceptance(EMPTY, a)), [Corrupt]), steps[1], Disk(None, [Corrupt]));
  }
}
