/** What can be marshalled: years of four digits, and raw messages that are JSON within the nesting limit. */
module Marshalling {
  import opened Wrappers
  import opened JsonText
  import opened CanonicalJson
  import opened Compact
  import opened Timestamps
  import opened Domain
  import opened Outbox

  /** A raw message after it was marshalled; an absent one stays absent. */
  function Reread(raw: string): Option<string> {
    if raw == "" then Some("") else Compacted(raw)
  }

  function RereadTransaction(t: Transaction): Option<Transaction> {
    var location, metadata := Reread(t.locationRaw), Reread(t.metadataRaw);
    if location.None? || metadata.None? then None
    else Some(t.(locationRaw := location.value, metadataRaw := metadata.value))
  }

  /** Whether both the transaction and its event can be marshalled. */
  predicate Encodable(a: Acceptance) {
    && RereadTransaction(a.transaction).Some? && FourDigitYear(a.transaction.time)
    && RereadTransaction(a.event.payload).Some? && FourDigitYear(a.event.payload.time)
    && FourDigitYear(a.event.occurredAt)
  }

  /** Absent, or JSON by the grammar that nests at most as deep as the limit. */
  ghost predicate RawMarshals(raw: string) {
    raw == "" || exists c :: Spells(raw, c) && Nested(c, MAX_NESTING)
  }

  ghost predicate TransactionMarshals(t: Transaction) {
    RawMarshals(t.locationRaw) && RawMarshals(t.metadataRaw) && InYears(t.time)
  }

  ghost predicate AcceptanceMarshals(a: Acceptance) {
    TransactionMarshals(a.transaction) && TransactionMarshals(a.event.payload) && InYears(a.event.occurredAt)
  }

  lemma RawExactly(raw: string)
    ensures Reread(raw).Some? <==> RawMarshals(raw)
  {
    hide Spells, Nested, Write, Strip;
    if raw != "" {
      var p := ParseValue(raw[WsLength(raw)..]);
      if Compacted(raw).Some? {
        ParsedTreeIsSpelled(raw);
      }
      forall c | Spells(raw, c) && Nested(c, MAX_NESTING) ensures Compacted(raw).Some? {
        SpelledTreeIsParsed(raw, c);
      }
    }
  }

  /** An acceptance can be marshalled exactly when its times and its raw messages can. */
  lemma EncodableExactly(a: Acceptance)
    ensures Encodable(a) <==> AcceptanceMarshals(a)
  {
    hide FourDigitYear, InYears, Reread, RawMarshals;
    FourDigitYearExactly(a.transaction.time);
    FourDigitYearExactly(a.event.payload.time);
    FourDigitYearExactly(a.event.occurredAt);
    RawExactly(a.transaction.locationRaw);
    RawExactly(a.transaction.metadataRaw);
    RawExactly(a.event.payload.locationRaw);
    RawExactly(a.event.payload.metadataRaw);
  }
}
