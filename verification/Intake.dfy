/**
 The intake service: it validates a command, builds the transaction and its outbox event
 and turns the store's outcome into its own result.
 */
module Intake {
  import opened Wrappers
  import opened Timestamps
  import opened Domain
  import opened Outbox
  import Memory = MemoryStore

  const EVENT_TYPE := "transaction.review-candidate"

  datatype Command = Command(transaction: Transaction, correlationId: string)

  datatype AcceptResult = FirstAccepted(id: string, eventId: string) | Replayed(id: string, eventId: string)

  datatype IntakeError =
    | InvalidTransaction(reason: Invalid)
    | ConflictingPayload
    | StoreFailed(error: StoreError)
    | MissingTransactionId

  /** The acceptance that a command asks for: a missing transaction ID is drawn. */
  function Build(c: Command, fingerprint: string, eventId: string, newId: string, now: Time): (a: Acceptance)
    ensures Built(a) && a.event.id == eventId && a.event.occurredAt == now && a.event.correlationId == c.correlationId
    ensures a.event.kind == "transaction.review-candidate" && a.event.schemaVersion == 1 && a.fingerprint == fingerprint
    ensures a.transaction.(id := c.transaction.id) == c.transaction && (c.transaction.id != "" ==> a.transaction == c.transaction)
  {
    var t := if c.transaction.id == "" then c.transaction.(id := newId) else c.transaction;
    Acceptance(t, fingerprint,
      OutboxEvent(eventId, EVENT_TYPE, 1, now, c.correlationId, t.source, t.sourceReference, t.id, Key(t), t))
  }

  function ResultOf(outcome: StoreOutcome, transactionId: string): Result<AcceptResult, IntakeError> {
    match outcome
    case Accepted(_, eventId) => Success(FirstAccepted(transactionId, eventId))
    case Replay(id, eventId) => if id == "" then Failure(MissingTransactionId) else Success(Replayed(id, eventId))
    case Conflict => Failure(ConflictingPayload)
  }

  /** One command against the store. */
  function Handle(s: State, allowedTypes: set<string>, c: Command, eventId: string, newId: string, now: Time)
    : (State, Result<AcceptResult, IntakeError>)
  {
    if Validate(c.transaction, allowedTypes).Some? then (s, Failure(InvalidTransaction(Validate(c.transaction, allowedTypes).value)))
    else
      var a := Build(c, Fingerprint(c.transaction, allowedTypes).value, eventId, newId, now);
      var (after, outcome) := Accept(s, a);
      (after, ResultOf(outcome, a.transaction.id))
  }

  class Service {
    const store: Memory.Store
    const allowedTypes: set<string>

    constructor (store: Memory.Store, allowedTypes: set<string>)
      ensures this.store == store && this.allowedTypes == allowedTypes
    {
      this.store, this.allowedTypes := store, allowedTypes;
    }

    /** The event ID is drawn first, a transaction ID only when the command has none. */
    method Accept(command: Command, eventId: string, newId: string, now: Time, cancelled: bool)
      returns (result: Result<AcceptResult, IntakeError>)
      requires store.Valid()
      modifies store.table
      ensures store.Valid() && fresh(store.table.repr - old(store.table.repr))
      ensures !cancelled || Validate(command.transaction, allowedTypes).Some? ==>
        (store.Model(), result) == Handle(old(store.Model()), allowedTypes, command, eventId, newId, now)
      ensures cancelled && Validate(command.transaction, allowedTypes).None? ==>
        store.Model() == old(store.Model()) && result == Failure(StoreFailed(Cancelled))
    {
      hide Validate, Fingerprint, Key, Memory.Store.Valid, Memory.Store.Model;
      var invalid := Validate(command.transaction, allowedTypes);
      if invalid.Some? {
        return Failure(InvalidTransaction(invalid.value));
      }
      // The fingerprint of a valid transaction cannot fail.
      FingerprintOfValid(command.transaction, allowedTypes);
      var fingerprint := Fingerprint(command.transaction, allowedTypes);
      var transaction := command.transaction;
      if transaction.id == "" {
        transaction := transaction.(id := newId);
      }
      var acceptance := Acceptance(transaction, fingerprint.value,
        OutboxEvent(eventId, EVENT_TYPE, 1, now, command.correlationId, transaction.source, transaction.sourceReference,
          transaction.id, Key(transaction), transaction));
      var outcome := store.Accept(acceptance, cancelled);
      if outcome.Failure? {
        return Failure(StoreFailed(outcome.error));
      }
      match outcome.value {
        case Accepted(_, storedEventId) =>
          result := Success(FirstAccepted(transaction.id, storedEventId));
        case Replay(storedId, storedEventId) =>
          if storedId == "" {
            return Failure(MissingTransactionId);
          }
          result := Success(Replayed(storedId, storedEventId));
        case Conflict =>
          result := Failure(ConflictingPayload);
      }
    }
  }

  lemma FingerprintOfValid(t: Transaction, allowedTypes: set<string>)
    ensures Fingerprint(t, allowedTypes).Success? <==> Validate(t, allowedTypes).None?
  {
    hide Validate, PayloadTree;
  }

  // ----- Sequences of commands

  datatype Call = Call(command: Command, eventId: string, newId: string, now: Time)

  /** States and results of a sequence of calls on an empty store; drawn IDs are fresh and not empty. */
  ghost predicate Run(allowedTypes: set<string>, calls: seq<Call>, states: seq<State>, results: seq<Result<AcceptResult, IntakeError>>) {
    && |states| == |calls| + 1 && |results| == |calls| && states[0] == EMPTY
    && forall i | 0 <= i < |calls| ::
         && calls[i].newId != "" && calls[i].eventId !in states[i].events
         && (states[i + 1], results[i]) ==
            Handle(states[i], allowedTypes, calls[i].command, calls[i].eventId, calls[i].newId, calls[i].now)
  }

  function KeyOf(c: Call): string {
    Key(c.command.transaction)
  }

  function IdOf(c: Call): string {
    if c.command.transaction.id == "" then c.newId else c.command.transaction.id
  }

  lemma KeyIgnoresId(t: Transaction, id: string)
    ensures Key(t.(id := id)) == Key(t)
  {
  }

  /** What one call does, by the identity it meets. */
  lemma OneCall(s: State, allowedTypes: set<string>, c: Call)
    requires c.newId != ""
    ensures var (after, result) := Handle(s, allowedTypes, c.command, c.eventId, c.newId, c.now);
            var t := c.command.transaction;
            if Validate(t, allowedTypes).Some? then
              after == s && result == Failure(InvalidTransaction(Validate(t, allowedTypes).value))
            else if KeyOf(c) in s.transactions then
              var i := s.transactions[KeyOf(c)];
              && after == s
              && (i.fingerprint == Fingerprint(t, allowedTypes).value && i.transactionId != "" ==>
                    result == Success(Replayed(i.transactionId, i.eventId)))
              && (i.fingerprint != Fingerprint(t, allowedTypes).value ==> result == Failure(ConflictingPayload))
            else
              && result == Success(FirstAccepted(IdOf(c), c.eventId))
              && after.transactions ==
                 s.transactions[KeyOf(c) := Identity(Fingerprint(t, allowedTypes).value, IdOf(c), c.eventId)]
              && exists event: OutboxEvent :: event.id == c.eventId && event.key == KeyOf(c) && event.transactionId == IdOf(c)
                   && after.events == s.events[c.eventId := NewRecord(event)]
  {
    hide Validate, Fingerprint, Key;
    KeyIgnoresId(c.command.transaction, c.newId);
    FingerprintOfValid(c.command.transaction, allowedTypes);
    if Validate(c.command.transaction, allowedTypes).None? {
      var a := Build(c.command, Fingerprint(c.command.transaction, allowedTypes).value, c.eventId, c.newId, c.now);
      assert Key(a.transaction) == KeyOf(c) && a.transaction.id == IdOf(c);
      assert a.event.id == c.eventId && a.event.key == KeyOf(c) && a.event.transactionId == IdOf(c);
    }
  }

  /** An identity was brought by the one call of its key that was answered as accepted. */
  ghost predicate WonBy(
      allowedTypes: set<string>, calls: seq<Call>, results: seq<Result<AcceptResult, IntakeError>>, s: State, key: string, winner: nat)
  {
    && key in s.transactions && winner < |calls| == |results| && KeyOf(calls[winner]) == key
    && Validate(calls[winner].command.transaction, allowedTypes).None?
    && results[winner] == Success(FirstAccepted(IdOf(calls[winner]), calls[winner].eventId))
    && Fingerprint(calls[winner].command.transaction, allowedTypes).Success?
    && s.transactions[key] ==
       Identity(Fingerprint(calls[winner].command.transaction, allowedTypes).value, IdOf(calls[winner]), calls[winner].eventId)
  }

  lemma Winner(
      allowedTypes: set<string>, calls: seq<Call>, states: seq<State>, results: seq<Result<AcceptResult, IntakeError>>,
      n: nat, key: string) returns (winner: nat)
    requires Run(allowedTypes, calls, states, results) && n <= |calls| && key in states[n].transactions
    ensures winner < n && WonBy(allowedTypes, calls, results, states[n], key, winner)
  {
    hide Handle, Validate, Fingerprint, Key;
    var c := calls[n - 1];
    assert states[n - 1 + 1] == Handle(states[n - 1], allowedTypes, c.command, c.eventId, c.newId, c.now).0;
    OneCall(states[n - 1], allowedTypes, c);
    FingerprintOfValid(c.command.transaction, allowedTypes);
    if key in states[n - 1].transactions {
      winner := Winner(allowedTypes, calls, states, results, n - 1, key);
    } else {
      winner := n - 1;
    }
  }

  lemma IdentityStays(
      allowedTypes: set<string>, calls: seq<Call>, states: seq<State>, results: seq<Result<AcceptResult, IntakeError>>,
      m: nat, n: nat, key: string)
    requires Run(allowedTypes, calls, states, results) && m <= n <= |calls| && key in states[m].transactions
    ensures key in states[n].transactions && states[n].transactions[key] == states[m].transactions[key]
  {
    hide Handle, Validate, Fingerprint, Key;
    if m < n {
      IdentityStays(allowedTypes, calls, states, results, m, n - 1, key);
      var c := calls[n - 1];
      assert states[n - 1 + 1] == Handle(states[n - 1], allowedTypes, c.command, c.eventId, c.newId, c.now).0;
      OneCall(states[n - 1], allowedTypes, c);
    }
  }

  /** Of all calls for one store key at most one is answered as accepted. */
  lemma AtMostOneAcceptance(
      allowedTypes: set<string>, calls: seq<Call>, states: seq<State>, results: seq<Result<AcceptResult, IntakeError>>, i: nat, j: nat)
    requires Run(allowedTypes, calls, states, results) && i < j < |calls| && KeyOf(calls[i]) == KeyOf(calls[j])
    requires results[i].Success? && results[i].value.FirstAccepted?
    ensures !(results[j].Success? && results[j].value.FirstAccepted?)
  {
    hide Handle, Validate, Fingerprint, Key;
    HasResult(allowedTypes, calls, states, results, i);
    HasResult(allowedTypes, calls, states, results, j);
    OneCall(states[i], allowedTypes, calls[i]);
    OneCall(states[j], allowedTypes, calls[j]);
    if KeyOf(calls[i]) in states[i].transactions {
      var winner := Winner(allowedTypes, calls, states, results, i, KeyOf(calls[i]));
      WinnerHasId(calls[winner]);
    } else {
      IdentityStays(allowedTypes, calls, states, results, i + 1, j, KeyOf(calls[i]));
      var winner := Winner(allowedTypes, calls, states, results, j, KeyOf(calls[j]));
      WinnerHasId(calls[winner]);
    }
  }

  lemma HasResult(
      allowedTypes: set<string>, calls: seq<Call>, states: seq<State>, results: seq<Result<AcceptResult, IntakeError>>, i: nat)
    requires Run(allowedTypes, calls, states, results) && i < |calls|
    ensures calls[i].newId != ""
    ensures (states[i + 1], results[i]) ==
            Handle(states[i], allowedTypes, calls[i].command, calls[i].eventId, calls[i].newId, calls[i].now)
  {
  }

  lemma WinnerHasId(c: Call)
    requires c.newId != ""
    ensures IdOf(c) != ""
  {
  }

  /**
   Every valid command whose key is taken is answered by its content: with a replay of the
   original transaction and event IDs exactly when its content is the winner's, and with a
   conflict otherwise. Its own ID never matters.
   */
  lemma ContentDecides(
      allowedTypes: set<string>, calls: seq<Call>, states: seq<State>, results: seq<Result<AcceptResult, IntakeError>>, n: nat)
    returns (winner: nat)
    requires Run(allowedTypes, calls, states, results) && n < |calls| && KeyOf(calls[n]) in states[n].transactions
    requires Validate(calls[n].command.transaction, allowedTypes).None?
    ensures winner < n && KeyOf(calls[winner]) == KeyOf(calls[n])
    ensures results[winner] == Success(FirstAccepted(IdOf(calls[winner]), calls[winner].eventId))
    ensures results[n] ==
            if SameContent(calls[n].command.transaction, calls[winner].command.transaction)
            then Success(Replayed(IdOf(calls[winner]), calls[winner].eventId)) else Failure(ConflictingPayload)
    ensures states[n + 1] == states[n]
  {
    hide Handle, Validate, Fingerprint, Key, SameContent;
    winner := Winner(allowedTypes, calls, states, results, n, KeyOf(calls[n]));
    HasResult(allowedTypes, calls, states, results, n);
    HasResult(allowedTypes, calls, states, results, winner);
    WinnerHasId(calls[winner]);
    OneCall(states[n], allowedTypes, calls[n]);
    FingerprintDecidesContent(calls[n].command.transaction, calls[winner].command.transaction, allowedTypes);
  }

  /** Only an accepted command changes anything. */
  lemma OthersChangeNothing(
      allowedTypes: set<string>, calls: seq<Call>, states: seq<State>, results: seq<Result<AcceptResult, IntakeError>>, n: nat)
    requires Run(allowedTypes, calls, states, results) && n < |calls|
    ensures states[n + 1] != states[n] ==> results[n] == Success(FirstAccepted(IdOf(calls[n]), calls[n].eventId))
  {
    hide Handle, Validate, Fingerprint, Key;
    HasResult(allowedTypes, calls, states, results, n);
    OneCall(states[n], allowedTypes, calls[n]);
  }

  /** Identities and events correspond one to one, IDs included. */
  ghost predicate Matched(s: State) {
    && (forall key | key in s.transactions ::
          && s.transactions[key].eventId in s.events
          && s.events[s.transactions[key].eventId].event.key == key
          && s.events[s.transactions[key].eventId].event.transactionId == s.transactions[key].transactionId)
    && (forall id | id in s.events ::
          s.events[id].event.id == id && s.events[id].event.key in s.transactions
          && s.transactions[s.events[id].event.key].eventId == id)
  }

  lemma AlwaysMatched(
      allowedTypes: set<string>, calls: seq<Call>, states: seq<State>, results: seq<Result<AcceptResult, IntakeError>>, n: nat)
    requires Run(allowedTypes, calls, states, results) && n <= |calls|
    ensures Matched(states[n])
  {
    hide Handle, Validate, Fingerprint, Key, KeyOf;
    if n > 0 {
      AlwaysMatched(allowedTypes, calls, states, results, n - 1);
      HasResult(allowedTypes, calls, states, results, n - 1);
      OneCall(states[n - 1], allowedTypes, calls[n - 1]);
    }
  }
}
