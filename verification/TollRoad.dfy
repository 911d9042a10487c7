/** A transaction with plain fields, for the concrete cases. */
module TollRoad {
  import opened Wrappers
  import opened JsonText
  import opened CanonicalJson
  import opened Timestamps
  import opened Domain

  const TOLL: set<string> := {"toll"}

  function Toll(source: string, reference: string, locationRaw: string): Transaction {
    Transaction("", source, reference, "toll", SECOND, 0, "1", "", None, "x", locationRaw, "")
  }

  /** It is valid when its identity has the required lengths and its location is an object. */
  lemma TollIsValid(source: string, reference: string, locationRaw: string)
    requires Bounded(source, 1, 64) && Bounded(reference, 1, 128) && CanonicalObject(locationRaw).Success?
    ensures Validate(Toll(source, reference, locationRaw), TOLL).None?
  {
    hide CanonicalObject;
    EmptyObject();
    PlainFields();
  }

  lemma EmptyObject()
    ensures CanonicalObject("").Success?
  {
  }

  lemma PlainFields()
    ensures IsDecimal("1") && !Blank("x")
  {
    assert DigitCount("1") == 1;
    assert !IsSpace("x"[0]);
  }
}
