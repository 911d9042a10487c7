# A verified model of the transaction intake and its outbox

Producers submit transactions. The intake validates each one, decides by a fingerprint of
its content whether it is new, a replay or a conflict, and stores it together with one
outbox event. Any number of dispatchers lease due events, publish them to Kafka and record
the outcome under the token of their lease. Four stores implement the same rules: memory,
an NDJSON log, DynamoDB and PostgreSQL. This project models those parts in Dafny and proves
what they promise over all inputs, all runs and all interleavings.

`dafny verify dfyconfig.toml` checks everything.

## How the model is laid out

| file | what it holds |
|---|---|
| `Wrappers`, `Strings`, `Ordering` | options and results; joined keys; Go's string order and sorting |
| `JsonText`, `CanonicalJson` | RFC 8259 text as concrete trees with a parser and a printer; the value a text denotes and its canonical text |
| `JsonGrammar`, `Utf16`, `Duplicates` | the same by other words: numbers and whitespace by the grammar, escapes by UTF-16 code units, members by their position |
| `Compact`, `Nesting`, `Marshalling` | what marshalling does to an embedded message; how deep it may nest to be decoded again; what can be marshalled at all |
| `Timestamps`, `Calendar` | RFC 3339 text of an instant, and what comparing the texts decides; the date as the day after the day before, and the text read back |
| `Domain`, `DomainRules` | validation and the payload behind the fingerprint; the rules in their own words |
| `Outbox` | the rules of the outbox as functions on values: accept, claim, complete, restart |
| `Records`, `MemoryStore` | the maps with records mutated in place, and the memory store over them |
| `RetryDelays`, `Dispatcher`, `BatchRuns`, `Termination` | the doubling delay in 64-bit arithmetic; one batch as a loop over the store; what a batch alone does; why dispatching ends |
| `Protocol`, `ProtocolSafety`, `ProtocolBatch` | workers, stale claims, a message log, crashes and restarts as a transition system; its theorems; a batch alone as one of its paths |
| `Ndjson`, `NdjsonRuns`, `NdjsonProtocol`, `LostStore` | the log-backed store; whole runs with failed appends, crashes and reopening, and comparison with the memory store; these as steps of the protocol; a transaction after which the log cannot be replayed |
| `Race`, `DynamoAccept`, `PostgresAccept` | histories of atomic accepts; the two racing accept protocols, linearized to them |
| `DynamoAnswers`, `PostgresAnswers` | when these requests are answered, and exactly when with an error |
| `Columns`, `PostgresOutbox`, `PostgresProtocol` | what rows and items have in common; claims and completions as SQL statements on rows, and the rows as outbox records; the statements as steps of the protocol |
| `DynamoOutbox`, `DynamoProtocol`, `DynamoClaims` | items with optional attributes and conditional updates; these as steps of the protocol; the paginated claim |
| `Intake` | the intake service over a store, and sequences of commands |
| `TollRoad`, `Collisions` | concrete transactions: identities that share a key |

A store method runs under a mutex, so it is one atomic step, and so is each database call.
A claim token or an ID is an input. A cancelled context is an input too: for a batch it is
the number of store calls for which the context stays live. Instants are nanoseconds since
Go's zero time. Raw JSON bytes are text; an absent field has none.

## What is assumed

- IDs and claim tokens are fresh and not empty where runs are considered. DynamoDB and PostgreSQL acceptance is proved without it: a write with a taken event ID is refused there.
- An NDJSON append that reports an error wrote nothing. A failed sync behind a write (`internal/transaction/adapters/ndjson/store.go:189-191`) would break this.
- SHA-256 has no collisions: the model keeps the payload in place of its digest.
- The payload of an outbox event is the accepted transaction, as the intake builds it, where `Ndjson.AcceptedCommutes`, `NdjsonRuns.ReplaySucceedsExactly`, `NdjsonRuns.RunBoth` and the steps of `Protocol` are concerned. `Ndjson.AcceptedCommutesExactly` says when replay is exact without this, and runs of the NDJSON store ask only for a payload that marshalling preserves.
- Raw bytes are present whenever a parsed map is.
- Strings are sequences of Unicode scalar values, on which code point order and UTF-8 byte order agree.
- A DynamoDB query sees the index as it is at that moment, and other clients change the table a finite number of times during one claim.

## Where the obvious claim is too strong

- An accepted transaction may make its NDJSON log unreadable. Marshalling holds each raw message to 10000 nested levels, decoding holds the whole line to them, and four objects of the line stand around the payload's messages. Replay succeeds exactly when the raw messages of every logged acceptance nest at most 9996 deep (`NdjsonRuns.ReplaySucceedsExactly`); from 9997 on the client is told that the transaction is accepted and the store can never be opened again (`LostStore.DeepStoreIsLost`, `NdjsonRuns.LostForever`).
- A claim on DynamoDB or PostgreSQL fails behind its lease over an event whose raw messages nest deeper than 9998, because two objects stand around them (`Columns.EventDecodableExactly`).
- The retry delay is min(base * 2^(n-1), max) for every n exactly when no doubling lies between 2^62 and the maximum (`RetryDelays.DelayExactly`); otherwise some delay is negative (`RetryDelays.DelayOverflows`), as for a base of one second under the largest maximum (`RetryDelays.OneSecondOverflows`).
- The joined keys are one-to-one exactly up to the collisions that `Outbox.KeysCollide` and `DynamoAccept.IdentityKeysCollide` describe. The second of two colliding transactions is answered as a conflict (`Collisions.SharedKeyConflicts`), for example ("a:b", "c") and ("a", "b:c") (`Collisions.ColonsCollide`, `Collisions.HashesCollide`).
- The text comparison of leases and retry times differs from the clock within one second, precisely as `Timestamps.DueByTextExactly` says; `Timestamps.DueHalfASecondEarly` is an instance.
- For a limit of zero the NDJSON store claims everything due and the memory store nothing; they agree exactly when nothing is due (`NdjsonRuns.ZeroLimit`).
- A completion checks only the token. An expired claim that nobody took over may still complete, so `ProtocolSafety.Fencing` speaks of tokens that an event has left, not of leases that have run out.

## Model

| member | source | states |
|---|---|---|
| JsonText.ParseOfWrite | internal/transaction/domain/transaction.go:137-151 | Every JSON tree of the grammar is read back from its text when the text is followed by the end, whitespace, a comma or a closing bracket. |
| JsonText.WriteOfParse | internal/transaction/domain/transaction.go:137-151 | Whatever is read is a tree of the grammar, and the text that was consumed is exactly its spelling. |
| CanonicalJson.DecodeEncode | internal/transaction/domain/transaction.go:152 | The escapes the encoder chooses denote the string they came from. |
| CanonicalJson.MeaningOfCanon | internal/transaction/domain/transaction.go:152-156 | The canonical tree of a value is valid JSON that denotes that value again. |
| CanonicalJson.PrintInjective | internal/transaction/domain/transaction.go:152-156 | Different values have different canonical texts. |
| CanonicalJson.CanonicalObjectCorrect | internal/transaction/domain/transaction.go:129-157 | A raw text is accepted exactly when it spells one JSON object, and the result is the canonical text of the value it denotes. |
| CanonicalJson.DenotesUnique | internal/transaction/domain/transaction.go:137-151 | A raw text denotes at most one value. |
| Duplicates.LastMemberCounts | internal/transaction/domain/transaction.go:139-142 | Of the members that write one name, however it is escaped, the last one gives the value. |
| Duplicates.NamesAreWritten | internal/transaction/domain/transaction.go:139-142 | The value has exactly the names that are written. |
| Duplicates.EarlierDuplicateIsIgnored | internal/transaction/domain/transaction.go:129-157 | Two raw objects that differ only by a member whose name is written again have one canonical text. |
| Duplicates.SecondMemberCounts | internal/transaction/domain/transaction.go:129-157 | {"a":x,"a":y} has the canonical text {"a":y} for all numbers x and y. |
| Duplicates.CanonicalOrder | internal/transaction/domain/transaction.go:152 | Canonical text writes every name once, in ascending order. |
| JsonGrammar.NumberExactly | internal/transaction/domain/transaction.go:137-140 | A lexeme is a number exactly when it is a sign, a whole part without leading zeros, a fraction and an exponent of the grammar. |
| JsonGrammar.WhitespaceIsFree | internal/transaction/domain/transaction.go:137-151 | Spaces, tabs, line feeds and carriage returns around an object do not matter. |
| JsonGrammar.OnlyBlanksLead | internal/transaction/domain/transaction.go:137-151 | Nothing but those may stand in front of the opening brace. |
| Utf16.PieceExactly | internal/transaction/domain/transaction.go:137-140 | Which characters and escapes may stand in a string. |
| Utf16.DecodeIsUtf16 | internal/transaction/domain/transaction.go:137-140 | A string is its written code units read as UTF-16, with the replacement character for every unit that belongs to no pair. |
| Utf16.UnitExactly | internal/transaction/domain/transaction.go:137-140 | Four hexadecimal digits in either case spell a unit exactly by their places. |
| Utf16.EncoderEscapes | internal/transaction/domain/transaction.go:152 | Exactly which characters the encoder escapes, and how. |
| CanonicalJson.CanonicalTextDecidesValue | internal/transaction/domain/transaction.go:129-157 | Two raw objects have the same canonical bytes exactly when they denote the same value, numbers compared by lexeme. |
| CanonicalJson.CanonicalTextDenotes | internal/transaction/domain/transaction.go:129-157 | The canonical text denotes the value the raw text denoted. |
| CanonicalJson.CanonicalizeTwice | docs/adr/2026-08-18-lossless-passthrough-and-canonical-idempotency.md:33-36 | Canonicalizing canonical text changes nothing. |
| Compact.CompactKeepsValue | internal/transaction/adapters/ndjson/store.go:186-188 | The copy of a raw object inside a marshalled record loses its spelling but denotes the same value. |
| Compact.CompactedIsSafe | internal/transaction/adapters/ndjson/store.go:186-188 | The copy has no whitespace between its tokens and none of the five characters that the encoder escapes for HTML. |
| Compact.CanonicalTextIsCompact | internal/transaction/domain/transaction.go:105-121 | Canonical text goes into the marshalled fingerprint payload unchanged. |
| Nesting.DecodableExactly | internal/transaction/adapters/ndjson/store.go:69-72 | A marshalled message behind so many enclosing objects can be decoded exactly when the message nests that many levels less than the limit. |
| Marshalling.EncodableExactly | internal/transaction/adapters/ndjson/store.go:186-188 | An acceptance can be marshalled exactly when its times lie in the years 0000 to 9999 and its raw messages are absent or JSON within the nesting limit. |
| Timestamps.OrderAcrossSeconds | internal/transaction/adapters/dynamodb/store.go:286-288 | For years 0000 to 9999, of two instants in different seconds the earlier one has the smaller text, whatever follows the texts. |
| Timestamps.OrderWithinSecond | internal/transaction/adapters/dynamodb/store.go:286-288 | Within one second the earlier instant has the smaller text exactly unless its fraction is a prefix of the later one. |
| Timestamps.TimestampInjective | internal/transaction/adapters/dynamodb/store.go:286-288 | Different instants have different texts, in all years. |
| Timestamps.DueByTextExactly | internal/transaction/adapters/dynamodb/store.go:139-146 | Exactly when the string comparison takes a lease or retry time for reached. |
| Timestamps.DueByTextWithinASecond | internal/transaction/adapters/dynamodb/store.go:167-174 | A time is judged reached less than one second early, and from the next whole second at the latest. |
| Timestamps.DueHalfASecondEarly | internal/transaction/adapters/dynamodb/store.go:167-174 | A time half past a second is judged reached at the full second. |
| Timestamps.TimestampHasNoHash | internal/transaction/adapters/dynamodb/store.go:77 | A timestamp never contains the separator of the sort key. |
| Timestamps.FourDigitYearExactly | internal/transaction/adapters/ndjson/store.go:186-188 | The years that can be marshalled, as bounds in nanoseconds. |
| Calendar.NextDay | internal/transaction/adapters/dynamodb/store.go:286-288 | Day zero is January 1 of year 1, and every day has the Gregorian date after the date of the day before. |
| Calendar.ClockReads | internal/transaction/adapters/dynamodb/store.go:286-288 | The time of day makes up the seconds of the day. |
| Calendar.FractionReads | internal/transaction/adapters/dynamodb/store.go:286-288 | The fraction denotes the nanoseconds of the second and has no trailing zero. |
| Calendar.TimestampReads | internal/transaction/adapters/dynamodb/store.go:286-288 | The text reads year, month, day, hour, minute and second in their columns, then the fraction and the zone. |
| Domain.RawFieldDecides | internal/transaction/domain/transaction.go:97-104 | Two raw fields contribute the same to the payload exactly when both are absent or both denote one value; absent differs from an empty object. |
| Domain.PresentInjective | internal/transaction/domain/transaction.go:112-115 | Which optional fields were omitted can be read off the marshalled fields. |
| Domain.PayloadTreeInjective | internal/transaction/domain/transaction.go:105-121 | Equal payload trees come from equal fields. |
| Domain.FingerprintDecidesContent | internal/transaction/domain/transaction.go:93-127 | Two valid transactions have one fingerprint payload exactly when all submitted content agrees; the system's ID does not matter. |
| DomainRules.DecimalExactly | internal/transaction/domain/transaction.go:17 | An amount is accepted exactly when it is an optional minus sign, digits, and optionally a point with digits. |
| DomainRules.ValidateExactly | internal/transaction/domain/transaction.go:40-91 | A transaction is valid exactly when it breaks none of the rules, and else is refused for the first one it breaks. |
| Ordering.SortStrings | internal/transaction/adapters/memory/store.go:84-88 | The IDs are visited in the ascending order of Go strings, each once. |
| Ordering.SortCorrect | internal/transaction/adapters/memory/store.go:84-88 | The sorted list ascends and has exactly the given members. |
| Ordering.LessExactly | internal/transaction/adapters/memory/store.go:84-88 | The order is that of the code points at the first difference; a proper prefix is smaller. |
| Outbox.DueIdsMembers | internal/transaction/adapters/memory/store.go:89-93 | The candidates of a claim are the due events and no others, in ascending order. |
| Outbox.ChosenAreLeast | internal/transaction/adapters/memory/store.go:84-104 | A claim takes the least due IDs, as many as a positive limit allows; a due ID is left out only when the limit is reached by smaller ones. |
| Outbox.LeasedRecords | internal/transaction/adapters/memory/store.go:94-97 | The i-th claimed record gets the i-th token and the lease, every other record stays as it is. |
| Outbox.KeysCollide | internal/transaction/adapters/memory/store.go:50 | Exactly which different identities share a store key. |
| Outbox.KeyIsIdentity | internal/transaction/adapters/memory/store.go:50 | For sources without a colon the store key is the pair of source and reference. |
| Records.Table.Put | internal/transaction/adapters/memory/store.go:61-66 | A new identity and a fresh pending record appear, nothing else changes. |
| Records.Table.Visit | internal/transaction/adapters/memory/store.go:90-97 | A visited record is leased in place and handed out exactly when it is due. |
| Records.Table.Scan | internal/transaction/adapters/memory/store.go:84-104 | The claim loop leases and hands out exactly what the limit selects of the due IDs. |
| Records.Table.Publish | internal/transaction/adapters/memory/store.go:119-123 | The record becomes published and loses lease and token, nothing else changes. |
| Records.Table.Fail | internal/transaction/adapters/memory/store.go:139-144 | The record takes over attempts, retry time and terminal flag and loses lease and token. |
| MemoryStore.Store.Accept | internal/transaction/adapters/memory/store.go:45-68 | One atomic accept by the outbox rules; a cancelled context changes nothing. |
| MemoryStore.Store.ClaimPending | internal/transaction/adapters/memory/store.go:76-105 | One atomic claim by the outbox rules, nothing for a limit that is not positive. |
| MemoryStore.Store.MarkPublished | internal/transaction/adapters/memory/store.go:107-124 | Unknown events, foreign tokens and cancelled contexts are refused without a change; else the record is published. |
| MemoryStore.Store.RecordFailure | internal/transaction/adapters/memory/store.go:126-145 | The same for a failure. |
| RetryDelays.RetryDelay | internal/transaction/app/outbox.go:107-116 | The loop computes the delay that the theorems below are about, in wrapped 64-bit arithmetic. |
| RetryDelays.DelayExactly | internal/transaction/app/outbox.go:107-116 | For 0 < base <= max the delay is min(base * 2^(n-1), max) for all n exactly when no doubling below max reaches 2^62. |
| RetryDelays.DelayOverflows | internal/transaction/app/outbox.go:107-116 | At a doubling of 2^62 or more below max the next delay is negative. |
| RetryDelays.OneSecondOverflows | internal/transaction/app/outbox.go:107-116 | For a base of one second and the largest maximum the delay of attempt 35 is negative. |
| RetryDelays.DelayMonotone | internal/transaction/app/outbox.go:107-116 | For max at most 2^62 nothing overflows and the delay lies between base and max and never shrinks. |
| RetryDelays.BaseAboveMax | internal/transaction/app/outbox.go:107-116 | A base above max is returned unchanged. |
| Dispatcher.Dispatcher.Dispatch | internal/transaction/app/outbox.go:82-103 | One claimed event is published and completed by its outcome. |
| Dispatcher.Dispatcher.DispatchAll | internal/transaction/app/outbox.go:80-105 | The loop resolves the claimed events in order, counts them and stops at the first error. |
| Dispatcher.Dispatcher.RunBatch | internal/transaction/app/outbox.go:74-105 | Store, log, counters and error of a batch for every clock, delivery outcome and time of cancellation. |
| Dispatcher.ErrorEndsBatch | internal/transaction/app/outbox.go:84-101 | After an error no further event is published or completed. |
| BatchRuns.CompletesHeld | internal/transaction/app/outbox.go:82-102 | A claim whose token is still current is always completed, with the attempts, retry time and terminal flag the outcome calls for. |
| BatchRuns.ClaimedRecord | internal/transaction/app/outbox.go:81-103 | At any time of a batch no error has occurred and each claimed record is either as claimed or resolved. |
| BatchRuns.Counters | internal/transaction/app/outbox.go:80-104 | At any time of a batch the counters and the log are those of the outcomes so far. |
| BatchRuns.BatchStops | internal/transaction/app/outbox.go:80-104 | Any batch, ended by an error or not: the counters are those of the events completed, the log has the messages up to the failing completion, and the error is that completion's. |
| BatchRuns.SequentialBatch | internal/transaction/app/outbox.go:74-105 | A batch alone with a live context never fails, resolves all it claimed, claimed equals published plus failed, and every other record is untouched. |
| Termination.OutcomeCosts | internal/transaction/app/outbox.go:90-99 | A resolved event has fewer attempts left, exactly one fewer after a failure, and stays within the bounds. |
| Termination.ResolvingCosts | internal/transaction/app/outbox.go:74-105 | A batch lowers the sum of attempts left by at least the number of its claims. |
| Termination.ClaimsBounded | internal/transaction/app/outbox.go:74-105 | In every sequential run all claims so far and all work left are at most MaxAttempts times the accepted events. |
| Termination.DueIsClaimed | internal/transaction/adapters/memory/store.go:84-104 | With a positive batch size something is claimed whenever anything is due. |
| Termination.FailingPublisherEnds | internal/transaction/app/outbox.go:74-105 | With a publisher that always fails, MaxAttempts batches per event leave every event terminal with all attempts used. |
| Protocol.ClaimRelets | internal/transaction/adapters/memory/store.go:89-98 | A claim of any selection of due events only puts these records under the tokens it hands out. |
| Protocol.FinishRecord | internal/transaction/app/outbox.go:82-102 | A completion changes the record that holds its token and counts a failure, or changes nothing and ends the batch. |
| Protocol.StepKeeps | internal/transaction/app/outbox.go:74-105 | Every step of every worker, crashes and restarts included, keeps the invariant that ties stale claims to current records. |
| Protocol.Reachable | internal/transaction/app/outbox.go:74-105 | The invariant holds in every reachable state with any number of workers. |
| ProtocolSafety.EventsAreSafe | internal/transaction/adapters/memory/store.go:45-145 | Every accepted event is in exactly one of pending, published and terminal; a published one has a message; attempts are the recorded failures, at most the maximum, and terminal exactly at it. |
| ProtocolSafety.MessagesAreEvents | internal/transaction/app/outbox.go:83 | Every message carries the ID and content of one accepted event. |
| ProtocolSafety.IdentitiesMatchEvents | internal/transaction/adapters/memory/store.go:61-66 | Identities and events correspond one to one. |
| ProtocolSafety.ClaimsInFlight | internal/transaction/app/outbox.go:81-99 | A stale claim still belongs to its accepted event; one whose token is current carries the recorded attempts. |
| ProtocolSafety.DoneIsForever | internal/transaction/adapters/memory/store.go:91-93 | No event is lost or altered, attempts never fall, and a published or terminal record never changes again. |
| ProtocolSafety.IdentityIsForever | internal/transaction/adapters/memory/store.go:54-59 | Once accepted, an identity answers every later acceptance with the same IDs. |
| ProtocolSafety.LogGrows | internal/transaction/app/outbox.go:83 | Messages are never taken back. |
| ProtocolSafety.Fencing | internal/transaction/adapters/memory/store.go:117-119 | A token that an event has left is answered with a lost lease for ever and changes nothing. |
| ProtocolSafety.DeadForever | internal/transaction/adapters/memory/store.go:136-138 | A token that is not the event's never becomes its token again. |
| ProtocolSafety.ClaimsALeaseApart | internal/transaction/adapters/memory/store.go:91-95 | Two claims of one event without a completion or restart between them are at least one lease apart by the claimers' clocks. |
| ProtocolBatch.MemoryClaimEnabled | internal/transaction/adapters/memory/store.go:76-105 | The memory store's claim is a step of the protocol for every idle worker. |
| ProtocolBatch.BatchIsPath | internal/transaction/app/outbox.go:74-105 | A batch that nobody interrupts is a path of the protocol with the same store and log at its end. |
| Ndjson.AcceptedCommutes | internal/transaction/adapters/ndjson/store.go:198-211 | For an event that carries its transaction the line of its acceptance, applied without leases, gives the live state without leases exactly when the raw messages nest at most 9996 deep; else the line cannot be decoded. |
| Ndjson.AcceptedCommutesExactly | internal/transaction/adapters/ndjson/store.go:195-212 | For any acceptance that is appended, replaying its line agrees with the live store exactly when the line can be decoded and each raw message of the payload is overwritten or unchanged by marshalling. |
| Ndjson.ReadableExactly | internal/transaction/adapters/ndjson/store.go:69-72 | The line of an acceptance can be decoded exactly when the transaction's raw messages nest at most 9997 and the payload's at most 9996 deep. |
| Ndjson.PublishedCommutes | internal/transaction/adapters/ndjson/store.go:223-230 | Publishing commutes with forgetting leases. |
| Ndjson.FailedCommutes | internal/transaction/adapters/ndjson/store.go:212-222 | A failure commutes with forgetting leases. |
| Ndjson.ClaimsCommute | internal/transaction/adapters/ndjson/store.go:110-135 | Claims, which are not logged, change nothing that outlives a restart. |
| Ndjson.RebuiltHoldsNothing | internal/transaction/adapters/ndjson/store.go:64-80 | A replayed state holds no leases and no tokens. |
| Ndjson.Store.Open | internal/transaction/adapters/ndjson/store.go:51-81 | Opening fails exactly when some line cannot be decoded or applied, and else yields the state the log describes. |
| Ndjson.Store.ApplyRecord | internal/transaction/adapters/ndjson/store.go:195-236 | A record is applied or refused with its error and no change. |
| Ndjson.Store.Append | internal/transaction/adapters/ndjson/store.go:177-193 | One line is appended, even one that cannot be decoded again, exactly when the file does not fail and the record's times and raw messages can be marshalled. |
| Ndjson.LogsExactly | internal/transaction/adapters/ndjson/store.go:98-101 | Exactly when the record of an acceptance, a publication or a failure has a line. |
| Ndjson.Store.Accept | internal/transaction/adapters/ndjson/store.go:85-108 | Accepts any acceptance by the outbox rules; the append fails exactly with the file or for times and raw messages that cannot be marshalled, and then nothing changes; the log goes on describing the live state when marshalling preserves the payload. |
| Ndjson.Store.ClaimPending | internal/transaction/adapters/ndjson/store.go:110-135 | Claims by the outbox rules; a negative limit fails, a zero limit is no limit. |
| Ndjson.Store.MarkPublished | internal/transaction/adapters/ndjson/store.go:137-155 | Publishes by the outbox rules unless the file fails or the time is outside the years 0000 to 9999; a log that describes the live state goes on doing so. |
| Ndjson.Store.RecordFailure | internal/transaction/adapters/ndjson/store.go:157-175 | Records a failure by the outbox rules unless the file fails or the retry time is outside the years 0000 to 9999; a log that describes the live state goes on doing so. |
| NdjsonRuns.CrashLosesLeases | internal/transaction/adapters/ndjson/store.go:101-106 | After a crash between append and apply the operation has happened and only leases are lost, exactly when every line can be decoded; else there is no store. |
| NdjsonRuns.RestartLosesLeases | internal/transaction/adapters/ndjson/store.go:51-81 | A restart loses the leases and nothing else when every line can be decoded; else there is no store. |
| NdjsonRuns.StepDescribed | internal/transaction/adapters/ndjson/store.go:85-236 | Every operation, failed append, crash and restart appends at most its line and leaves an open store that its log describes, or no store over a log with a line that cannot be decoded. |
| NdjsonRuns.ReplayRebuilds | internal/transaction/adapters/ndjson/store.go:51-81 | The log cut off at any record boundary is the log of an earlier time; replaying it rebuilds the live state of that time without its leases, and fails exactly when a line cannot be decoded. |
| NdjsonRuns.ReplaySucceedsExactly | internal/transaction/adapters/ndjson/store.go:69-72 | Replay succeeds at every record boundary of a run exactly when the raw messages of every logged acceptance nest at most 9996 deep. |
| NdjsonRuns.LostForever | internal/transaction/adapters/ndjson/store.go:51-81 | A store that cannot be opened is not opened again by any later step. |
| LostStore.DeepStoreIsLost | internal/transaction/adapters/ndjson/store.go:101-107 | A valid transaction with a location 9997 to 10000 levels deep is accepted and applied, and the next opening of the log fails. |
| NdjsonRuns.NothingDoneComesBack | internal/transaction/adapters/ndjson/store.go:85-236 | Over any restarts that open a store, replays return the original IDs, and published or terminal records never change and are never due. |
| NdjsonRuns.RunBoth | internal/transaction/adapters/ndjson/store.go:85-175 | Over any operations with positive limits, the same tokens, successful appends, and times and raw messages that can be marshalled, the NDJSON and the memory store give identical replies and end in one state. |
| NdjsonRuns.ZeroLimit | internal/transaction/adapters/ndjson/store.go:121-133 | For a limit of zero the two stores agree exactly when nothing is due. |
| NdjsonProtocol.ReopenIsRestart | internal/transaction/adapters/ndjson/store.go:51-81 | Opening the file again is the protocol's restart when every line can be decoded. |
| NdjsonProtocol.CrashIsStepAndRestart | internal/transaction/adapters/ndjson/store.go:101-106 | A crash between append and apply is the operation's step and a restart right behind it. |
| NdjsonProtocol.AcceptingIsSubmit | internal/transaction/adapters/ndjson/store.go:85-108 | An acceptance of a new event is an enabled submission with the same state. |
| NdjsonProtocol.ClaimingIsClaimBatch | internal/transaction/adapters/ndjson/store.go:110-135 | A claim under fresh tokens is an enabled claim of an idle worker with the same state. |
| NdjsonProtocol.CompletionIsFinish | internal/transaction/adapters/ndjson/store.go:137-175 | A completion is the end of a publication with the same state. |
| Race.OneWinner | internal/transaction/adapters/dynamodb/store.go:48-100 | In a history of atomic accepts at most one of a key is accepted. |
| Race.JudgedAgainstWinner | internal/transaction/adapters/dynamodb/store.go:113-124 | Every other answer is a replay with the winner's IDs or a conflict, by the winner's fingerprint. |
| Race.CommittedEvent | internal/transaction/adapters/dynamodb/store.go:82-85 | The event stored for an identity is the one its winning acceptance brought. |
| Race.LandSound | internal/transaction/adapters/dynamodb/store.go:82-85 | A landing write is one atomic accept and keeps transaction and event together. |
| Race.ObserveSound | internal/transaction/adapters/dynamodb/store.go:102-126 | Reading a committed identity is one atomic accept that changes nothing. |
| DynamoAccept.StepKeeps | internal/transaction/adapters/dynamodb/store.go:48-126 | Every read, write and re-read of every client, failing or landing unnoticed, keeps the history legal and complete. |
| DynamoAccept.Linearizable | internal/transaction/adapters/dynamodb/store.go:48-126 | Every answer that is no error is that of one atomic accept between call and answer, no item of a transaction and its event exists without the other, and every accepted event is stored as it was brought. |
| DynamoAccept.AtMostOneAccepted | internal/transaction/adapters/dynamodb/store.go:82-99 | Of all clients with one identity key at most one is answered as accepted. |
| DynamoAccept.OthersAreJudged | internal/transaction/adapters/dynamodb/store.go:102-126 | Every other answer is judged against the winner and carries the winner's IDs, and the winner's event is stored. |
| DynamoAccept.RealTimeOrder | internal/transaction/adapters/dynamodb/store.go:48-100 | A request called after another was answered takes effect after it. |
| DynamoAnswers.ErrorExactly | internal/transaction/adapters/dynamodb/store.go:48-100 | A request is answered with an error exactly after a failed read, an acceptance that cannot be marshalled and has no identity yet, a failed write that was not cancelled, or a cancelled write without an identity behind it. |
| DynamoAnswers.LoserIsJudged | internal/transaction/adapters/dynamodb/store.go:86-96 | A request whose write was cancelled reads again, and with a committed identity is answered as the winner's replay or as a conflict. |
| DynamoAnswers.FoundIsJudged | internal/transaction/adapters/dynamodb/store.go:50-56 | A read that finds the identity is the answer. |
| DynamoAnswers.AcceptedExactly | internal/transaction/adapters/dynamodb/store.go:82-99 | A request is answered as accepted exactly when its write landed and said so. |
| DynamoAnswers.OwnStep | internal/transaction/adapters/dynamodb/store.go:48-100 | Every call brings a request closer to its answer, so it ends after at most three. |
| DynamoAnswers.NeverStuck | internal/transaction/adapters/dynamodb/store.go:48-100 | A request without an answer always has a next call, and one that succeeds while neither item exists. |
| DynamoAccept.IdentityKeysCollide | internal/transaction/adapters/dynamodb/store.go:49 | Exactly which different identities share an item key. |
| DynamoAccept.IdentityKeyIsIdentity | internal/transaction/adapters/dynamodb/store.go:49 | For sources without the separator the item key is the pair of source and reference. |
| Collisions.SharedKeyConflicts | internal/transaction/adapters/memory/store.go:50-60 | Two valid transactions of different identities with one store key: the second is answered as a conflict and not stored. |
| Collisions.ColonsCollide | internal/transaction/adapters/memory/store.go:50-60 | The identities ("a:b", "c") and ("a", "b:c") are such a pair. |
| Collisions.HashesCollide | internal/transaction/adapters/dynamodb/store.go:48-126 | On DynamoDB a run in which ("a#b", "c") is accepted and ("a", "b#c") is answered as a conflict. |
| PostgresAccept.StepKeeps | internal/transaction/adapters/postgres/store.go:40-123 | Every statement of every client, with unique violations, serialization failures and lost commits, keeps the history legal and complete. |
| PostgresAccept.Linearizable | internal/transaction/adapters/postgres/store.go:40-123 | Every answer that is no error is that of one atomic accept keyed by the pair, both rows are committed together or not at all, and every accepted event is stored as it was brought. |
| PostgresAccept.AtMostOneAccepted | internal/transaction/adapters/postgres/schema.sql:12-13 | Of all clients with one source and reference at most one is answered as accepted. |
| PostgresAccept.OthersAreJudged | internal/transaction/adapters/postgres/store.go:112-123 | Every other answer, found by the lookup or after a race, is judged against the winner, whose event is stored. |
| PostgresAccept.RealTimeOrder | internal/transaction/adapters/postgres/store.go:40-98 | A request called after another was answered takes effect after it. |
| PostgresAnswers.ErrorExactly | internal/transaction/adapters/postgres/store.go:40-123 | A request is answered with an error exactly after an acceptance that cannot be marshalled, a fault at begin, lookup, end of lookup, event insert or second read, a fault at the transaction insert or the commit that is no race, or no identity at the second read. |
| PostgresAnswers.RaceExactly | internal/transaction/adapters/postgres/store.go:81-93 | A request reads the identity again exactly when its last statement was an insert or commit that met a unique violation or a serialization failure. |
| PostgresAnswers.LoserReadsAgain | internal/transaction/adapters/postgres/store.go:81-93 | The only next statement of a request that lost a race is the second read. |
| PostgresAnswers.LoserIsJudged | internal/transaction/adapters/postgres/store.go:112-123 | After a lost race a second read of a committed identity is answered as the winner's replay or as a conflict. |
| PostgresAnswers.FoundIsJudged | internal/transaction/adapters/postgres/store.go:62-72 | A lookup that finds the identity leads straight to its answer. |
| PostgresAnswers.AcceptedExactly | internal/transaction/adapters/postgres/store.go:91-97 | A request is answered as accepted exactly when its commit landed without a fault. |
| PostgresAnswers.FaultlessSucceeds | internal/transaction/adapters/postgres/store.go:40-98 | A request whose statements all succeed is never answered with an error. |
| PostgresAnswers.OwnStep | internal/transaction/adapters/postgres/store.go:40-98 | Every statement brings a request closer to its answer, so it ends after at most six. |
| PostgresAnswers.NeverStuck | internal/transaction/adapters/postgres/store.go:40-98 | A request without an answer always has a next statement, and one that succeeds while its identity and IDs are free. |
| PostgresAnswers.AlwaysUnique | internal/transaction/adapters/postgres/schema.sql:11-13 | In every reachable state no two identities share a transaction ID or an event ID. |
| PostgresOutbox.CandidatesExist | internal/transaction/adapters/postgres/store.go:20 | Whatever rows are locked, there is a selection that is the oldest available rows up to the limit. |
| PostgresOutbox.AvailableExactly | internal/transaction/adapters/postgres/store.go:20 | A row may be claimed exactly when its record is due and no one has locked it. |
| PostgresOutbox.CandidatesExactly | internal/transaction/adapters/postgres/store.go:20 | The selection is exactly the oldest due records that no one has locked: all of them, or as many as the limit. |
| PostgresOutbox.Store.ClaimPending | internal/transaction/adapters/postgres/store.go:125-154 | The candidates are leased by the outbox rules under one token and handed out in the order the database returns them; an event that cannot be decoded fails the claim behind its leases. |
| PostgresOutbox.ClaimAgrees | internal/transaction/adapters/postgres/store.go:20 | A claim takes the oldest due records that no one has locked, all of them or as many as the limit, and leases them as the outbox rules do. |
| PostgresOutbox.ReturnedIsHanded | internal/transaction/adapters/postgres/store.go:132-149 | The returned events, attempts and tokens are those the outbox rules hand out. |
| PostgresOutbox.Store.MarkPublished | internal/transaction/adapters/postgres/store.go:156-162 | The record is published as the outbox rules say, no other row changes, and a refusal of the rules is a lost lease. |
| PostgresOutbox.Store.RecordFailure | internal/transaction/adapters/postgres/store.go:164-174 | The failure is recorded as the outbox rules say, no other row changes, and a refusal of the rules is a lost lease. |
| PostgresOutbox.CompletionsAgree | internal/transaction/adapters/postgres/store.go:21-22 | Both completions do to the rows exactly what the outbox rules do to the records. |
| PostgresOutbox.StatementKeeps | internal/transaction/adapters/postgres/schema.sql:16-30 | Every statement keeps lease and token together and only on pending rows, and finished rows and all events as they are. |
| PostgresOutbox.ReachableRows | internal/transaction/adapters/postgres/schema.sql:16-30 | So it is after any sequence of inserts, claims and completions on an empty table. |
| PostgresProtocol.InsertIsSubmit | internal/transaction/adapters/postgres/store.go:87-89 | Inserting the event of a new identity is an enabled submission of the protocol and leads to its records. |
| PostgresProtocol.ClaimIsClaimBatch | internal/transaction/adapters/postgres/store.go:20 | A claim under a fresh token is an enabled claim of an idle worker and leads to its records. |
| PostgresProtocol.CompletionIsFinish | internal/transaction/adapters/postgres/store.go:21-22 | A completion is the end of a publication in the protocol; the batch goes on exactly when one row was updated. |
| DynamoOutbox.ChangeKeeps | internal/transaction/adapters/dynamodb/store.go:204-251 | Every conditional change keeps each item indexed exactly while pending, token and lease together, and finished items as they are. |
| DynamoOutbox.ReachableItems | internal/transaction/adapters/dynamodb/store.go:73-80 | Every reachable item is in the dispatch index exactly when pending, and has a token exactly when it has a lease. |
| DynamoOutbox.NewItemIsNewRecord | internal/transaction/adapters/dynamodb/store.go:73-80 | The item that an acceptance puts is a new outbox record, in the dispatch index under its sort key. |
| DynamoOutbox.WaitsForLease | internal/transaction/adapters/dynamodb/store.go:73-80 | Until its first lease it stays so and can be leased at any time, whatever else happens to the table. |
| DynamoOutbox.Fenced | internal/transaction/adapters/dynamodb/store.go:238 | A completion is admitted exactly when the item carries its token. |
| DynamoOutbox.SortKeyInjective | internal/transaction/adapters/dynamodb/store.go:77 | Different events never share a sort key. |
| DynamoOutbox.SortKeyOrder | internal/transaction/adapters/dynamodb/store.go:77 | In the dispatch index events of different seconds stand in the order of their times. |
| DynamoOutbox.ClaimableWithinASecond | internal/transaction/adapters/dynamodb/store.go:167 | The lease condition takes an item less than a second before the outbox rules would, and never misses one from the next whole second on. |
| DynamoOutbox.CompletionsAgree | internal/transaction/adapters/dynamodb/store.go:204-251 | Completions do to an item what the outbox rules do to its record, with the same answer, and note the time or the reason. |
| DynamoProtocol.PutIsSubmit | internal/transaction/adapters/dynamodb/store.go:73-85 | Putting the item of a new identity is an enabled submission of the protocol and leads to its records. |
| DynamoProtocol.LeaseIsClaimBatch | internal/transaction/adapters/dynamodb/store.go:161-178 | A lease under a fresh token is the claim of an idle worker exactly when the event is due by the clock, and leads to its records. |
| DynamoProtocol.CompletionIsFinish | internal/transaction/adapters/dynamodb/store.go:204-251 | A completion is the end of a publication in the protocol; the batch goes on exactly when the condition held. |
| Columns.EventDecodableExactly | internal/transaction/adapters/dynamodb/store.go:260-262 | A stored event can be decoded exactly when its raw messages nest at most 9998 deep. |
| DynamoClaims.Table.Query | internal/transaction/adapters/dynamodb/store.go:135-150 | A page evaluates the entries right behind the cursor in key order, whatever the cut, and returns those that pass the filter; it fails exactly when the call fails. |
| DynamoClaims.Table.LeaseItem | internal/transaction/adapters/dynamodb/store.go:161-178 | The update leases exactly when the item is there, pending and due at that moment; a failed call may have landed. |
| DynamoClaims.LeasePage | internal/transaction/adapters/dynamodb/store.go:155-195 | A page is worked off in order; raced items are skipped, below the limit an update was attempted on all of them, and an event that cannot be decoded fails the call behind its lease. |
| DynamoClaims.ClaimPending | internal/transaction/adapters/dynamodb/store.go:128-202 | The claim terminates; it fails exactly when a call failed or it leased an event that cannot be decoded; else it returns at most limit distinct events as a query saw them, each leased to now plus lease while pending and due under its own token, and every lease it took; if fewer, every entry indexed throughout was visited. |
| DynamoClaims.CoveredMore | internal/transaction/adapters/dynamodb/store.go:134-200 | After each page everything that was indexed all the time and is not behind the cursor has been visited. |
| DynamoClaims.FewerBehind | internal/transaction/adapters/dynamodb/store.go:196-199 | A page with a next key leaves strictly fewer entries behind the cursor. |
| Intake.Build | internal/transaction/app/intake.go:98-117 | The event repeats the transaction's identity, carries it as its payload and keeps time and correlation; only a missing transaction ID is drawn. |
| Intake.Service.Accept | internal/transaction/app/intake.go:89-140 | A command is answered from validation, the store's outcome or the store's error. |
| Intake.OneCall | internal/transaction/app/intake.go:89-140 | What one command does and returns for an invalid transaction, a taken key and a new key. |
| Intake.AtMostOneAcceptance | internal/transaction/app/intake.go:121-125 | Over any sequence of commands at most one of a store key is accepted. |
| Intake.ContentDecides | internal/transaction/app/intake.go:126-135 | A valid command with a taken key is a replay with the original IDs exactly when its content is the winner's, and a conflict otherwise. |
| Intake.OthersChangeNothing | internal/transaction/app/intake.go:89-140 | Invalid, replayed and conflicting commands change nothing. |
| Intake.AlwaysMatched | internal/transaction/app/intake.go:103-117 | Transactions and events stay in one-to-one correspondence over any sequence of commands. |

## Left out

- HTTP handling, headers, body limits and API keys: each rule is one branch.
- The Kafka client: publishing is a nondeterministic append to a log.
- SHA-256, random IDs and random tokens: see the assumptions.
- File modes, sync, torn final lines and the scanner's buffer limit: restarts happen at record boundaries.
- PostgreSQL's microsecond resolution of stored times.
- DynamoDB items and identities with missing or mistyped attributes, which only a foreign writer could store.
- PostgreSQL's own limits on JSON columns.
- DynamoDB index delay: a query sees the index of its moment, and a page size above the 32-bit range is not considered.
- The parsed maps of a transaction without raw bytes, and byte strings that are not valid UTF-8.
- Overflow of the clock, of attempts and of the year beyond what the types of the model cover.
- Ndjson.Store.ClaimPending: a negative limit, at which the source panics, is an error value.
- Intake.Service.Accept: runs over the memory store, whose outcomes are the three it names; the answer to an outcome of no known kind is left out.
- Configuration loading, readiness probes, the ticker loop and process lifecycle.
- DynamoClaims.ClaimPending: does not state the attempts it returns as those at the update, because the source returns those of the queried item.
- ProtocolSafety.ClaimsALeaseApart: asks for leases of the claims in between that are not negative, which every configuration in the repository has.
