/**
 The memory store. Each method runs under the store's mutex, so it is one atomic step;
 a cancelled context is noticed before anything else.
 */
module MemoryStore {
  import opened Wrappers
  import opened Timestamps
  import opened Outbox
  import opened Records

  class Store {
    const table: Table

    ghost predicate Valid()
      reads table, table.repr
    {
      table.Valid()
    }

    ghost function Model(): State
      reads table
    {
      table.Model()
    }

    constructor ()
      ensures Valid() && Model() == EMPTY && fresh(table) && table.repr == {}
    {
      table := new Table();
    }

    method Accept(acceptance: Acceptance, cancelled: bool) returns (outcome: Result<StoreOutcome, StoreError>)
      requires Valid()
      modifies table
      ensures Valid() && fresh(table.repr - old(table.repr))
      ensures cancelled ==> outcome == Failure(Cancelled) && Model() == old(Model())
      ensures !cancelled ==>
        var (after, answer) := Outbox.Accept(old(Model()), acceptance);
        outcome == Success(answer) && Model() == after
    {
      if cancelled {
        return Failure(Cancelled);
      }
      var key := Key(acceptance.transaction);
      if key in table.transactions {
        var existing := table.transactions[key];
        if existing.fingerprint == acceptance.fingerprint {
          return Success(Replay(existing.transactionId, existing.eventId));
        }
        return Success(Conflict);
      }
      table.Put(acceptance);
      outcome := Success(Accepted(acceptance.transaction.id, acceptance.event.id));
    }

    method ClaimPending(now: Time, lease: int, limit: int, tokens: seq<string>, cancelled: bool)
      returns (result: Result<seq<PendingEvent>, StoreError>)
      requires Valid() && |Model().events| <= |tokens|
      modifies table`records, table.repr
      ensures Valid()
      ensures |Chosen(old(Model()).events, now, limit)| <= |tokens|
      ensures cancelled ==> result == Failure(Cancelled) && Model() == old(Model())
      ensures !cancelled ==>
        var (after, handed) := Claim(old(Model()), now, lease, limit, tokens);
        result == Success(handed) && Model() == after
    {
      hide Selected, Take;
      ChosenFit(table.records, now, limit);
      if cancelled {
        return Failure(Cancelled);
      }
      if limit <= 0 {
        ClaimNothing(Model(), now, lease, limit, tokens);
        return Success([]);
      }
      var claimed := table.Scan(now, now + lease, limit, tokens);
      assert (Model(), claimed) == Claim(old(Model()), now, lease, limit, tokens);
      result := Success(claimed);
    }

    method MarkPublished(eventId: string, claimToken: string, cancelled: bool) returns (error: Option<StoreError>)
      requires Valid()
      modifies table`records, table.repr
      ensures Valid()
      ensures cancelled ==> error == Some(Cancelled) && Model() == old(Model())
      ensures !cancelled ==> (Model(), error) == Outbox.MarkPublished(old(Model()), eventId, claimToken)
    {
      if cancelled {
        return Some(Cancelled);
      }
      if eventId !in table.events {
        return Some(NotFound);
      }
      var record := table.events[eventId];
      if record.claimToken == "" || record.claimToken != claimToken {
        return Some(LeaseLost);
      }
      table.Publish(eventId);
      error := None;
    }

    method RecordFailure(failure: PublishFailure, cancelled: bool) returns (error: Option<StoreError>)
      requires Valid()
      modifies table`records, table.repr
      ensures Valid()
      ensures cancelled ==> error == Some(Cancelled) && Model() == old(Model())
      ensures !cancelled ==> (Model(), error) == Outbox.RecordFailure(old(Model()), failure)
    {
      if cancelled {
        return Some(Cancelled);
      }
      if failure.eventId !in table.events {
        return Some(NotFound);
      }
      var record := table.events[failure.eventId];
      if record.claimToken == "" || record.claimToken != failure.claimToken {
        return Some(LeaseLost);
      }
      table.Fail(failure);
      error := None;
    }
  }
}
