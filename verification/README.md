# Sandcat backend: a verified model of its stateful core

Sandcat is an instant-messaging backend. This project models the parts of it
that keep state across requests and proves what they guarantee over every run:

- **Message numbers** (`Sequence`, `SequenceRun`, `SequenceLoss`). Redis scripts hand out
  per-user numbers from blocks of `seq_step`; the consumer saves each block's
  ceiling in Postgres; after a Redis loss the loader restarts both counters at
  the saved ceiling.
- **The sharded message box** (`Calendar`, `Text`, `Names`, `Documents`,
  `Sorting`, `ShardedStore`, `MessageBox`, `Tracking`). Documents are spread
  over collections named by month and user shard. Every operation is stated
  against one flat collection, the ghost multiset `flat`.
- **Both together** (`Delivery`, `DeliveryRun`). One handled message from its
  numbers to its documents, and whole lives of consumer and box.
- **The gateway** (`Hub`, `RateLimiter`). The connection hub under all
  interleavings of connects, exits and two-step unregisters, and the
  fixed-window connection limiter.
- **Friends** (`Friends`). Two tables under apply, agree and delete.
- **Batching, diffing, balancing** (`Migration`, `Discovery`, `LoadBalancer`).

Each stateful type of the backend is a class whose methods are proved against
value-level functions; the properties of whole runs are lemmas about those
functions. Redis, Postgres and Mongo are maps, counters and multisets. Numbers
are unbounded except the round-robin counter, which wraps at 2^64. Clocks,
hashes, generated ids and fetched sets are parameters. `dafny verify
dfyconfig.toml` checks the whole project.

Assumptions that the statements carry:

- `seq_step >= 1`, and cache and database use the same step. (With 0 configured
  the cache falls back to 5000 and Postgres keeps 0.)
- One handled message is one step whose saves of ceilings succeed; in `SequenceRun`
  a lost Redis is reloaded completely before it counts again, while `SequenceLoss`
  drops this and says exactly when numbers still increase; receivers have a
  `sequence` row. Member lists have no repeats, as they come from a Redis set or
  from rows keyed by group and user; `GroupAgreementIff` says exactly which repeats
  the ceilings would survive.
- Times are seconds in the range of chrono. The cleaner's text comparison needs
  a clock in the years 0 to 9999 (`ClockOk`); routing, naming and queries do not.
- `HubExactIff` covers every run the gateway allows. `HubIsExact` names a
  discipline that implies its condition: a replaced connection leaves by
  knock-off, and a user does not connect between an exit of that user and the end
  of its unregister. Three lemmas exhibit the lost connection when either fails.

Where code and comments disagree, the code is modelled: at start-up month offset
-1 does not fit a `u32` and resolves to the current month, and a cleaner
threshold of "more than one month past retention" is `period / 30 + 2` months.

Results about the code that a reader may not expect:

- Deleting a friend by the id that the last agreement returned works exactly
  when the couple's row was made by that request (`AgreedIdDeletesIff`,
  `ReverseRequestCannotDelete`).
- `handle_send_seq` never fires, so `send_max_seq` keeps its creation value
  (`SendCeilingNeverMoves`).
- The limiter lets 19, not 10, connections through in some 60-second intervals,
  and never more (`SlidingWindowBound`, `BoundIsReached`).
- Nothing resets a number that a payload brings along, and the box keeps it. Such
  a payload is harmless if and only if its number is new to that box and already
  behind the counter of the box's user: otherwise a number repeats at once, or an
  ordinary message to that user repeats it later (`SafeIff`, `UniqueForeverIff`,
  `EarlyClaimRepeats`).
- Asking for an inverted range of numbers panics instead of returning nothing, as
  a client without news does (`GetMessages`, `GetMsgs`, `PullWhenUpToDate`).
- A couple's friend rows and the request they name do not always have the same
  status: a stranger's delete, a second application and a reverse request can part
  them. `StatusesAgreeIff` says exactly which operations do.
- The first send number after every reload is `seq_step + 1`, so send numbers repeat
  from one loss to the next (`SendNumberAfterReload`, `SendNumbersRepeat`).
- Round-robin is fair across counter wraps exactly when the number of services
  divides 2^64 (`FairForeverIff`).
- A user whose first message comes after a reload gets `seq_step + 1` as first
  number, so that a whole block is skipped; between two numbers a reload skips
  less than a block (`FirstNumber`, `NeverReissued`).
- Unregistering hits whatever connection stands in the entry. The hub stays exact
  if and only if that is always the leaving connection's own (`HubExactIff`).
- A closed balancer channel is never reopened: from the first failed send on the
  balancer stays between two fetched sets (`DynamicServiceDiscovery.Run`).

## Model

| member | source | states |
|---|---|---|
| `SequenceRun.NeverReissued` | cmd/src/load_seq.rs:5-40 | over every legal run a user's receive numbers strictly increase, start at 1 or `seq_step + 1`, are consecutive without a reload between them, and skip fewer than `seq_step` from one to the next across any number of reloads |
| `SequenceRun.FirstNumber` | db/src/postgres/user.rs:77-84 | the first number of a user is `seq_step + 1` if and only if a reload lies between the creation of the row and that number, and 1 otherwise |
| `SequenceRun.RunInvariant` | msg_server/src/consumer.rs:100-176 | the inductive invariant behind it: counters stay in their block, ceilings agree, and each user's history is bounded by both |
| `SequenceRun.CeilingsAgree` | msg_server/src/consumer.rs:265-271 | after every step Postgres `rec_max_seq` equals Redis `max_seq` for every user with a key, and `max - step < cur <= max` for every counter |
| `SequenceRun.SendCeilingNeverMoves` | msg_server/src/consumer.rs:256-263 | the guard `cur == max - step` is false in every reachable state and `send_max_seq` keeps its creation value |
| `SequenceRun.SendNumberAfterReload` | cache/src/redis/mod.rs:149-162 | in every legal run the first send number of a registered user after a reload is `seq_step + 1` |
| `SequenceRun.SendNumbersRepeat` | msg_gateway/src/manager.rs:169-180 | so the first sends after two reloads get the same number, whatever lies between |
| `SequenceRun.WhoIsNumbered` | msg_server/src/consumer.rs:100-176 | a message of the nine receiver kinds numbers its receiver, one of the eleven group kinds every member but the sender, and nobody else's counter moves |
| `SequenceRun.StepKeepsWorldInv` | cache/src/redis/mod.rs:74-88 | creation, counting, single and group messages, loss and reload all keep the counter and ceiling invariant |
| `SequenceRun.GroupedAt` | msg_server/src/consumer.rs:427-451 | a group step leaves each member's counter and ceiling exactly as if that member alone had been numbered |
| `SequenceRun.NeedUpdateAt` | msg_server/src/consumer.rs:427-437 | the batch to persist lists exactly the members whose own script run moved their ceiling |
| `SequenceRun.CountingBeforeReloadReissues` | cmd/src/load_seq.rs:9-13 | counting on a lost, unloaded Redis hands out the same number again |
| `SequenceRun.IssuesNext` | cache/src/redis/mod.rs:74-88 | each number handed out is the successor of the last one its user can have got, read off Redis or, while Redis is empty, off the saved ceiling |
| `SequenceRun.PassedGrows` | cmd/src/load_seq.rs:5-40 | that last number never falls, through losses, reloads and creations, and moves with its own user's messages only |
| `SequenceLoss.IncreasingIff` | cmd/src/load_seq.rs:9-37 | over every run, reloaded in time or not, a user's numbers strictly increase if and only if no message after the first finds the user's counter missing |
| `SequenceRun.GroupAgreementIff` | msg_server/src/consumer.rs:427-451 | for any list of registered members, Redis and Postgres ceilings agree after a group step if and only if no member is listed more than `max - cur + seq_step` times |
| `SequenceRun.DuplicateMembersBreakAgreement` | db/src/postgres/seq.rs:49-59 | a concrete list with a repeat, which no member query returns, that moves Redis two blocks while the `ANY` update moves Postgres one |
| `Sequence.BatchEqualsSinglesIff` | db/src/postgres/seq.rs:36-59 | the batch update equals one single update per listed user if and only if no registered user is listed twice |
| `Sequence.KindsInWords` | msg_server/src/consumer.rs:178-237 | the sets of kinds that number their receiver, that number the members, and that skip the database |
| `Sequence.GroupGoesToDb` | msg_server/src/consumer.rs:178-237 | no kind classified as a group message is one of those that skip the database |
| `Sequence.LoadRestores` | cmd/src/load_seq.rs:17-37 | writing all rows of the table, in any number of batches and with repeats, is the restored map |
| `Sequence.RestoredAt` | cache/src/redis/mod.rs:149-162 | the send counter of every registered user restarts at (`send_max_seq`, `send_max_seq`), the receive counter at (`rec_max_seq`, `rec_max_seq`), and nobody else's counter moves |
| `Sequence.RedisCache.RunScript` | cache/src/redis/mod.rs:74-88 | reply and new hash of the single-user script, missing hash included |
| `Sequence.RedisCache.GroupIteration` | cache/src/redis/mod.rs:102-119 | the group script's own loop body has the reply and effect of the single-user script, with its integer flag |
| `Sequence.RedisCache.RunGroupScript` | cache/src/redis/mod.rs:98-122 | the whole group script equals the single-user script run once per member in order, with the reply of each |
| `Sequence.RedisCache.IncrGroupSeq` | cache/src/redis/mod.rs:261-294 | the decode loop pairs every reply with its own member, for any list, repeats included |
| `Sequence.RedisCache.SetSeq` | cache/src/redis/mod.rs:149-162 | both fields of the send hash take the send ceiling and both of the receive hash the receive ceiling of the user's last row; other users keep theirs |
| `Sequence.PostgresSeq.SaveMaxSeq` | db/src/postgres/seq.rs:36-46 | the receive ceiling rises by one step; an unknown user is an error |
| `Sequence.PostgresSeq.SaveMaxSeqBatch` | db/src/postgres/seq.rs:49-59 | every listed row rises by one step, once |
| `Sequence.PostgresSeq.GetMaxSeq` | db/src/postgres/seq.rs:61-74 | the rows sent are those of the table, none missing |
| `Sequence.LoadSeq` | cmd/src/load_seq.rs:5-40 | nothing when the flag is set; otherwise, through batches of 50, every send and receive counter restarts at its own ceiling and the flag is set |
| `Sequence.Consumer.HandleSendSeq` | msg_server/src/consumer.rs:256-263 | the guarded update of the receive ceiling, with its error case |
| `Sequence.Consumer.IncreaseMessageSeq` | msg_server/src/consumer.rs:265-271 | one number, and the ceiling saved when the script moved it |
| `Sequence.Consumer.HandleGroup` | msg_server/src/consumer.rs:281-296 | the sender is taken out, each other member is numbered, moved ceilings are saved in one batch |
| `Sequence.Consumer.HandleMsg` | msg_server/src/consumer.rs:100-176 | the whole effect of one message of any kind on Redis and Postgres, and the numbers handed out, kind by kind |
| `Calendar.MonthStartClosedForm` | db/src/mongodb/sharded_message.rs:170-174 | the month-by-month calendar agrees with the Gregorian closed form, for every year |
| `Calendar.MonthLengths` | db/src/mongodb/sharded_message.rs:171-172 | the twelve month lengths of every year, the leap day by the Gregorian rule |
| `Calendar.EpochDay` | db/src/mongodb/sharded_message.rs:171-172 | day numbers are anchored at the Unix epoch: 1 January 1970 begins its month |
| `Calendar.EpochMonth` | db/src/mongodb/sharded_message.rs:171-172 | timestamp 0 lies in January 1970 |
| `Calendar.MonthOf` | db/src/mongodb/sharded_message.rs:171-172 | the month of a time is the one whose first and following month's first day bracket it |
| `Calendar.MonthMonotone` | db/src/mongodb/sharded_message.rs:171-172 | later times never fall in earlier months |
| `Calendar.AddMonthsMonth` | db/src/mongodb/sharded_message.rs:489-500 | adding or subtracting months, with the day clamped, moves the month by exactly that many |
| `Calendar.MonthsAreLong` | db/src/mongodb/sharded_message.rs:741-745 | `n` consecutive months are at least 30 n - 2 days, in every year |
| `Calendar.RetentionMargin` | db/src/mongodb/sharded_message.rs:693-745 | a time in a month before now minus `period/30 + 2` months is older than `period` days |
| `Calendar.MarginIsNeeded` | db/src/mongodb/sharded_message.rs:741-745 | with one month less the claim fails, on 1 March 2023 with a period of 29 days |
| `Names.NameParts` | db/src/mongodb/sharded_message.rs:748-752 | splitting a collection name on `_` gives five parts, so part 3 always exists |
| `Names.NameRoundTrip` | db/src/mongodb/sharded_message.rs:170-174 | a name parses back to its month and shard, for every year |
| `Names.NamesInjective` | db/src/mongodb/sharded_message.rs:170-174 | two names are equal if and only if month and shard are |
| `Names.YearMonthOrder` | db/src/mongodb/sharded_message.rs:748-756 | for years 0-9999 the text order of `YYYY_MM` is chronological order |
| `Names.SignedYearFirst` | db/src/mongodb/sharded_message.rs:753-754 | a threshold before year 0 sorts before every name of the years 0-9999 |
| `Names.YearMonthOrderEndsAt9999` | db/src/mongodb/sharded_message.rs:753-754 | beyond 9999 the sign breaks that order |
| `Documents.StoredKeeps` | db/src/mongodb/utils.rs:5-23 | storing keeps every field but the four it leaves out |
| `Documents.FieldsWritten` | db/src/mongodb/utils.rs:5-23 | a written document holds exactly the thirteen fields, each with its own value |
| `Documents.FieldsRead` | abi/src/types/msg.rs:25-49 | reading takes each field from its own name, whoever wrote the document |
| `Documents.DefaultsRead` | abi/src/types/msg.rs:25-49 | a document with none of the fields reads as the empty message |
| `Documents.ReadsBack` | db/src/mongodb/utils.rs:5-23 | a stored message reads back with its four unstored fields at their defaults |
| `Documents.RestoringIsIdempotent` | abi/src/types/msg.rs:25-49 | reading and writing any document a second time changes nothing |
| `Documents.SameDocumentIff` | db/src/mongodb/utils.rs:5-23 | two messages give the same document if and only if they agree on the stored fields |
| `Documents.MigrationLosslessIff` | cmd/src/migrate.rs:178-198 | apart from `_id`, which the target assigns anew, a document passes migration unchanged if and only if `to_doc` could have written it |
| `Sorting.StableSortIsStable` | db/src/mongodb/sharded_message.rs:620-635 | the sort orders by key and keeps the order of equal keys |
| `Sorting.StableSortUnique` | db/src/mongodb/sharded_message.rs:620-635 | a sequence has only one stable sort |
| `Sorting.BlocksReverse` | db/src/mongodb/sharded_message.rs:601-635 | three sorted blocks given newest first sort to the blocks oldest first |
| `ShardedStore.FindCount` | db/src/mongodb/sharded_message.rs:514-526 | a query on one collection finds exactly the flat collection's matches of that name |
| `ShardedStore.InsertAgrees` | db/src/mongodb/sharded_message.rs:261-269 | an insert keeps every document in the collection of its own month and shard, and there only |
| `ShardedStore.DeleteAgrees` | db/src/mongodb/sharded_message.rs:358-366 | so does a delete, which removes exactly the matches of that collection |
| `ShardedStore.UpdateAgrees` | db/src/mongodb/sharded_message.rs:660-673 | so does marking as read |
| `ShardedStore.UniqueAfter` | db/src/mongodb/sharded_message.rs:117-121 | an insertable batch keeps the (server id, receiver id) index unique |
| `ShardedStore.MarkKeepsUnique` | db/src/mongodb/sharded_message.rs:660-673 | marking as read keeps that index unique |
| `ShardedStore.EmptyAgrees` | db/src/mongodb/sharded_message.rs:64-83 | a database without collections agrees with the empty flat collection |
| `MessageBox.HybridShardedMsgBox.constructor` | db/src/mongodb/sharded_message.rs:64-83 | on any database that agrees with its flat collection, the current month and the next three become tracked, for every shard, and no document changes |
| `MessageBox.HybridShardedMsgBox.Maintain` | db/src/mongodb/sharded_message.rs:196-254 | one pass adds the names of the current month and the next three |
| `MessageBox.HybridShardedMsgBox.SaveMessage` | db/src/mongodb/sharded_message.rs:261-269 | the message, field by field, is added to the flat collection and to the collection of its month and its receiver's hash, or refused exactly when its slot of the unique index is taken |
| `MessageBox.HybridShardedMsgBox.SaveGroupMsg` | db/src/mongodb/sharded_message.rs:271-315 | in any order of task completion all copies are stored if and only if the index has room for all of them; each carries the message field by field under its own receiver and number, and nothing else is added |
| `MessageBox.GroupCopiesInsertable` | db/src/mongodb/sharded_message.rs:117-121 | a fresh server id, distinct members and no sender among them: the index has room |
| `MessageBox.GroupSaveLeavesOneCopyEach` | db/src/mongodb/sharded_message.rs:271-299 | one copy per member with the message's own content, times, sender and types, that member's number and send number 0, one sender copy with the message's numbers, nothing else under that id |
| `MessageBox.ConsumerListInsertable` | msg_server/src/consumer.rs:290-296 | the list the consumer builds from a member set meets those conditions |
| `MessageBox.HybridShardedMsgBox.DeleteMany` | db/src/mongodb/sharded_message.rs:358-366 | exactly the matches of one collection go |
| `MessageBox.HybridShardedMsgBox.DeleteMessages` | db/src/mongodb/sharded_message.rs:336-369 | exactly the user's listed numbers of the current and the previous month go |
| `MessageBox.HybridShardedMsgBox.MsgRead` | db/src/mongodb/sharded_message.rs:640-676 | exactly the user's listed numbers of the current and the previous month become read |
| `MessageBox.HybridShardedMsgBox.Query` | db/src/mongodb/sharded_message.rs:514-526 | one collection's sorted answer, counted against the flat collection |
| `MessageBox.HybridShardedMsgBox.GetMessages` | db/src/mongodb/sharded_message.rs:481-532 | sorted by number, exactly the flat collection's matches of the current and two previous months, none missed or repeated; a panic if and only if the range is inverted |
| `MessageBox.AnswerIsDetermined` | db/src/mongodb/sharded_message.rs:528-531 | when no number of the asked range repeats among the user's documents, that promise leaves one possible answer |
| `MessageBox.HybridShardedMsgBox.GetMsgs` | db/src/mongodb/sharded_message.rs:534-638 | the final sort is the three monthly answers oldest month first, ordered by send time and own send number or number, own numbers hidden; a panic if and only if the two ranges have negative total length |
| `MessageBox.PullWhenUpToDate` | api/src/handlers/messages/msg_handlers.rs:45-60 | a client that asks for the numbers after its last ones gets a panic |
| `MessageBox.ShownSorts` | db/src/mongodb/sharded_message.rs:610-635 | hiding own numbers before the final sort does not disturb the order |
| `MessageBox.HybridShardedMsgBox.GetMessage` | db/src/mongodb/sharded_message.rs:371-386 | a document of that id from a tracked collection, or none only if no tracked collection has one |
| `MessageBox.HybridShardedMsgBox.DeleteMessage` | db/src/mongodb/sharded_message.rs:317-334 | one document of that id goes from a tracked collection, or none has it and nothing changes |
| `MessageBox.HybridShardedMsgBox.CleanTick` | db/src/mongodb/sharded_message.rs:691-766 | exactly the documents of tracked collections older than `period` days and of unexcepted type go, exactly the months before now minus `period/30 + 2` are dropped, and what a dropped name still holds is of an excepted type |
| `MessageBox.HybridShardedMsgBox.Untrack` | db/src/mongodb/sharded_message.rs:747-766 | exactly the names whose parsed year-month sorts below the threshold are dropped |
| `MessageBox.OutdatedIsEarlier` | db/src/mongodb/sharded_message.rs:748-756 | the text test on a name decides exactly whether its month is earlier, for every threshold up to year 9999, years before 0 included |
| `MessageBox.DroppedAreExpired` | db/src/mongodb/sharded_message.rs:693-757 | retention safety: whatever lies in a dropped name is older than the cutoff, on every date |
| `Tracking.LookAhead` | db/src/mongodb/sharded_message.rs:191-254 | with regular passes every month from start-up to three past the last pass is tracked unless a cleaner tick dropped it |
| `Tracking.MessageIsTracked` | db/src/mongodb/sharded_message.rs:371-386 | so every message of those months lies in a tracked collection |
| `Tracking.GapFreeIff` | db/src/mongodb/sharded_message.rs:196-208 | two passes leave no month untracked between them if and only if the second comes within the first one's look-ahead |
| `Tracking.OpenEmpty` | db/src/mongodb/sharded_message.rs:64-83 | a box started on an empty database holds nothing and tracks the start of every such life |
| `Tracking.Drive` | db/src/mongodb/sharded_message.rs:184-256 | the box driven through any such life tracks exactly that set, and exactly the documents whose time was up at a cleaner tick in a collection tracked then are gone; a document younger than every cutoff stays |
| `Tracking.FindAfter` | db/src/mongodb/sharded_message.rs:371-386 | after it, a search by id misses no document of a month in reach |
| `Delivery.Deliver` | msg_server/src/consumer.rs:100-176 | one message of any kind from the counters to the box: the numbers handed out are those stored, all documents are stored if the index has room, and the step is one act of a life |
| `Delivery.DocsInWords` | msg_server/src/consumer.rs:320-408 | which documents are stored for each kind, field by field: none for call and receipt kinds, the numbered or the plain message, or the copies of a group message |
| `Delivery.SendToDb` | msg_server/src/consumer.rs:336-408 | nothing but the message's own documents is added, and all of them if the index has room; a receipt takes away one tracked document of its server id, or none has it |
| `DeliveryRun.StoredNumbersUnique` | msg_server/src/consumer.rs:100-176 | over every life of consumer and box, with losses, failed saves, redeliveries, deletions and read marks, whose payloads are safe, no user's box ever holds a number twice |
| `DeliveryRun.UniqueForeverIff` | msg_server/src/consumer.rs:100-176 | in every life whose messages are all stored, every payload is safe if and only if at no point a repeated number can follow |
| `DeliveryRun.SafeIff` | msg_server/src/consumer.rs:117-124 | storing one message leaves numbers unique for ever if and only if the number its payload brings is unassigned, or new to the box that keeps it and behind that user's counter |
| `DeliveryRun.AlwaysUniqueIff` | msg_server/src/consumer.rs:100-176 | from any reachable counters, numbers stay unique whatever safe acts follow if and only if they are unique now and none lies ahead of its user's counter |
| `DeliveryRun.Repeats` | msg_server/src/consumer.rs:117-124 | a stored number ahead of its counter is stored a second time after at most a reload, the creation of the user and some messages to that user |
| `DeliveryRun.NumbersAccounted` | msg_server/src/consumer.rs:117-124 | in every life, safe or not, each number in a user's box was issued to that user or brought there by a payload |
| `DeliveryRun.AnswersAreDetermined` | db/src/mongodb/sharded_message.rs:481-532 | after every safe life a query over assigned numbers has exactly one possible answer |
| `DeliveryRun.ConsumeUniqueIff` | msg_server/src/consumer.rs:117-124 | from unique numbers behind their counters, storing a message repeats none now if and only if the number its payload brings is free in that box |
| `DeliveryRun.EarlyClaimRepeats` | msg_server/src/consumer.rs:117-124 | a plain message that claims number 1 before its receiver has any repeats nothing yet, and cannot stay unrepeated |
| `DeliveryRun.LateClaimRepeats` | msg_server/src/consumer.rs:117-124 | a plain message that claims a number its receiver's box holds repeats it at once |
| `Hub.HubExactIff` | msg_gateway/src/ws_server.rs:602-647 | over every possible run the hub is exact after each step if and only if every check and every removal of an unregister hits its own connection's entry |
| `Hub.ExactStepIff` | msg_gateway/src/manager.rs:134-154 | from an exact hub a connect, knock-off, exit, check or removal leads to an exact hub if and only if it hits no entry but its own |
| `Hub.HubIsExact` | msg_gateway/src/ws_server.rs:602-647 | the discipline implies that condition; after each disciplined run an entry is exactly the newest connection of its user and platform that is not gone, no user's entry is empty, and each unregister is removal by platform |
| `Hub.StepKeepsInv` | msg_gateway/src/manager.rs:134-154 | every disciplined step keeps exactness and every leaving connection's entry |
| `Hub.ShortcutExactIff` | msg_gateway/src/manager.rs:141-152 | the `len == 1` shortcut equals removal by platform if and only if the one client left is that platform's |
| `Hub.HalvesHarmlessIff` | msg_gateway/src/manager.rs:141-152 | the length check and the removal each cost no other connection its entry if and only if what they hit is the leaving connection's |
| `Hub.ConnectDuringUnregisterIsLost` | msg_gateway/src/ws_server.rs:626-647 | a reconnect between an exit and its unregister ends connected but unreachable |
| `Hub.OtherPlatformDuringUnregisterIsLost` | msg_gateway/src/manager.rs:142-152 | so does a connect on the other platform between the length check and the removal |
| `Hub.ReplacedExitIsLost` | msg_gateway/src/ws_server.rs:347-368 | a replaced connection that reports a disconnect removes its replacement |
| `Hub.ConnectHolds` | msg_gateway/src/manager.rs:134-139 | registering takes one entry, from whoever held it, and touches no other entry and no other user |
| `Hub.Manager.Unregister` | msg_gateway/src/manager.rs:141-154 | both halves of the removal, as the hub runs compose them |
| `Hub.Manager.SendMsgToClients` | msg_gateway/src/manager.rs:92-131 | every registered connection of the user is written to, and no other |
| `RateLimiter.SlidingWindowBound` | msg_gateway/src/ws_server.rs:514-534 | in every trace with non-decreasing times at most 19 attempts of one address pass in any half-open 60 s interval |
| `RateLimiter.BoundIsReached` | msg_gateway/src/ws_server.rs:514-534 | a trace in which 19 pass |
| `RateLimiter.AddressesAreIndependent` | msg_gateway/src/ws_server.rs:518-533 | the decision for an address depends on that address's own attempts alone |
| `RateLimiter.Limiter.Check` | msg_gateway/src/ws_server.rs:514-534 | the decision and the new table; a rejected attempt changes nothing, one at least 60 s after the window start passes |
| `Friends.FriendsStaySymmetric` | db/src/postgres/friend.rs:277-317 | after any sequence of apply, agree and delete, row (a,b) exists iff row (b,a) does, with the same request id and status |
| `Friends.DeleteHitsOneCouple` | db/src/postgres/friend.rs:393-404 | a delete marks exactly the two rows made by that request, and only when asked by one of the two |
| `Friends.StatusesAgreeIff` | db/src/postgres/friend.rs:37-404 | over every sequence of apply, agree and delete, each couple's rows have the status of the request they name all along if and only if every operation is harmonious |
| `Friends.SyncStepIff` | db/src/postgres/friend.rs:37-404 | one operation keeps them in step if and only if it does not re-apply a request that made friends, re-accept deleted rows under another request, or delete live rows for a stranger |
| `Friends.AgreeInWords` | db/src/postgres/friend.rs:277-317 | an agreement accepts the request with the reply's remark, gives each row the remark of its own side, and changes nothing else |
| `Friends.DeleteAgreesIff` | db/src/postgres/friend.rs:393-404 | after a delete the request and the rows it made have the same status if and only if one of the two asked or the rows were deleted before |
| `Friends.StrangerDeletesRequestOnly` | db/src/postgres/friend.rs:393-404 | a stranger's delete leaves two accepted friends under a deleted request |
| `Friends.AgreedIdDeletesIff` | db/src/postgres/friend.rs:298-307 | deleting under the request just agreed ends the friendship if and only if no earlier row of the couple carries another request id |
| `Friends.ReverseRequestCannotDelete` | db/src/postgres/friend.rs:303-317 | a second request in the opposite direction, agreed and deleted by its own id, leaves rows (a,b) and (b,a) accepted |
| `Friends.FriendRepo.CreateFs` | db/src/postgres/friend.rs:37-94 | the upsert on (user, friend): the surviving row's id, pending again; a panic after the commit exactly when the two users are not both found |
| `Friends.FriendRepo.AgreeFriendApplyRequest` | db/src/postgres/friend.rs:277-331 | the request becomes accepted and both rows are upserted with their own remarks, existing rows keeping their request id; unknown ids and self-requests fail without effect; a panic after the commit exactly when the two users are not both found |
| `Friends.FriendRepo.DeleteFriend` | db/src/postgres/friend.rs:387-408 | the request of that id becomes deleted, its rows too when one of the two asks, and nothing else changes |
| `Migration.Batches` | cmd/src/migrate.rs:97-157 | the batches concatenate to the stream, none empty, none over-full, all but the last full |
| `Migration.Migrate` | cmd/src/migrate.rs:97-164 | for any batch size and interleaving of tasks, every document arrives once, with every field it was read with, if and only if the index has room for all |
| `Migration.MigratedDocument` | cmd/src/migrate.rs:178-198 | the stored document is the source after one reading and writing, and migrating it again changes nothing |
| `Discovery.DynamicServiceDiscovery.ChangeSet` | utils/src/service_discovery/tonic_service_discovery.rs:71-85 | inserts for exactly the new buildable addresses, then removals for exactly the vanished ones |
| `Discovery.DynamicServiceDiscovery.Discovery` | utils/src/service_discovery/tonic_service_discovery.rs:60-69 | a round ends with the fetched set, or fails with `services` unchanged and a prefix of one change list sent; on a closed channel the balancer and the buildable services are frozen, and it succeeds exactly when there is nothing to send |
| `Discovery.DynamicServiceDiscovery.Run` | utils/src/service_discovery/tonic_service_discovery.rs:95-103 | after any history of rounds the balancer holds the last fetched buildable set; once the receiver is gone it stays between the last set fetched before and the set of that round, whatever follows |
| `Discovery.PartOfRound` | utils/src/service_discovery/tonic_service_discovery.rs:64-66 | wherever a round stops, the balancer holds every address that stays, nothing foreign, and all old addresses or all new ones |
| `Discovery.NothingToSendIff` | utils/src/service_discovery/tonic_service_discovery.rs:71-85 | a change list is empty if and only if no service vanished and no buildable one came |
| `LoadBalancer.RoundRobinFair` | api/src/api_utils/lb/strategy.rs:49-53 | without a wrap, k consecutive picks choose each of n services floor(k/n) or ceil(k/n) times |
| `LoadBalancer.FairForeverIff` | api/src/api_utils/lb/strategy.rs:49-53 | with wraps this holds for all starts and lengths if and only if n divides 2^64 |
| `LoadBalancer.Balancer.Serve` | api/src/api_utils/lb/mod.rs:47-64 | the services actually returned by k requests in a row, counted |
| `LoadBalancer.Balancer.GetService` | api/src/api_utils/lb/mod.rs:47-64 | a member of the set exactly when it is non-empty, at the counter's position in ascending order |
| `LoadBalancer.Balancer.Index` | api/src/api_utils/lb/strategy.rs:49-53 | the old counter modulo the count; the counter advances and wraps |
| `LoadBalancer.Balancer.Apply` | api/src/api_utils/lb/mod.rs:81-89 | an address that comes up is in the set, one that goes down is not, the rest stay, in ascending order |

## Left out

- Kafka, gRPC, websocket, Redis, Mongo and Postgres clients, object storage, mail, OAuth, JWT, HTTP extractors and configuration loading: I/O and libraries.
- Failed saves of ceilings, failed loader batches, concurrent loaders, and a group handler that fails between counting and saving.
- Progress of the bounded channels that `get_max_seq` and the flat box's stream fill before returning: rows are modelled as a sequence.
- The producer's `send_time` in milliseconds: the box takes seconds.
- Times outside chrono's range, for which the code substitutes the current time.
- 64-bit overflow of message numbers, and the precision of Lua numbers above 2^53.
- The collection handle cache and index creation: they hold no documents.
- `get_messages_stream` of both boxes, and the flat box's own queries: the flat collection appears as the ghost field the sharded box is proved against.
- Locks of the cleaner: a tick is one atomic step, and its deletes succeed.
- Query: documents with equal sort keys come in no promised order, as Mongo promises none; the implementation here happens to be stable.
- Migrate: its result stands for "no save error was logged"; the semaphore and the progress reporter are not modelled.
- Message texts, apply messages, remarks' history, times and the other columns of the friend tables; the friend group, tag and privacy tables.
- Group roles, polls, and the agreement of the cached member list with the database.
- The Postgres message history and the flag that selects it.
- Deliver: the binary decoding of a `Read` message's content, which arrives here as a user and a list of numbers; content that does not decode ends the call with an error.
- Run: changes that the channel accepted but a vanished balancer never took out count as sent.
- GetMessages: a capacity that is not negative counts as granted, however large; overflow of the 64-bit subtraction is not modelled.
- Pushing messages to gateways, and which platform receives the sender's own copy.
