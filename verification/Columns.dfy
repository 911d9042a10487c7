/** What the outbox items of DynamoDB and the outbox rows of PostgreSQL have in common. */
module Columns {
  import opened Wrappers
  import opened CanonicalJson
  import opened Nesting
  import opened Timestamps
  import opened Outbox

  datatype Status = IsPending | IsPublished | IsFailed

  function TimeOr(t: Option<Time>): Time {
    if t.Some? then t.value else ZERO
  }

  /** The outbox record that these columns stand for. */
  function RecordWith(
      event: OutboxEvent, status: Status, attempts: int, retryAt: Option<Time>, leaseUntil: Option<Time>, claimToken: Option<string>)
    : Record
  {
    Record(event, attempts, TimeOr(retryAt), TimeOr(leaseUntil), if claimToken.Some? then claimToken.value else "",
      status == IsPublished, status == IsFailed)
  }

  /** Whether a marshalled event can be decoded: the payload's raw messages stand in two objects, the event and the payload. */
  predicate EventDecodable(event: OutboxEvent) {
    Decodable(event.payload.locationRaw, 2) && Decodable(event.payload.metadataRaw, 2)
  }

  /** That is so exactly when they nest at most 9998 deep. */
  lemma EventDecodableExactly(event: OutboxEvent)
    ensures EventDecodable(event) <==>
            NestsWithin(event.payload.locationRaw, MAX_NESTING - 2) && NestsWithin(event.payload.metadataRaw, MAX_NESTING - 2)
  {
    hide Decodable, NestsWithin;
    DecodableExactly(event.payload.locationRaw, 2);
    DecodableExactly(event.payload.metadataRaw, 2);
  }
}
