# eos_sql_db_plugin: a verified model

The plugin listens to a running EOSIO chain, queues what it hears, replays the queued actions into SQL
tables, and answers token and proposal queries from those tables and the chain state. This project models
the three parts and proves what each keeps, and what they come to when put together.

* **The consumer protocol** (`Protocol`, `ProtocolSafety`, `ProtocolProgress`). Producers append to a shared
  deque under a mutex; a consumer thread waits on a condition variable, moves the whole deque into a private
  one, unlocks and drains it. Block lane and trace lane share the condition variable and the exit flag. The
  model is a labelled transition system with one program counter per thread, any number of producers and
  every interleaving. `TraceConsumer` has the trace lane in the form of the source, as an object whose
  deques change in place, and proves the `run_traces` loops.
* **The replay into tables** (`Traces`, `Tables`, `Statements`, `ActionsTable`, `SqlDatabase`). A trace forest is
  walked down to its frontier of recorded actions; each of them issues SQL statements that may fail in any
  pattern. The tables are proved equal to a last-writer query computed from the log of actions alone, and
  `ActionMeaning` says of the actions themselves which of them makes, changes or removes each row.
  `SqlDatabase.Database` holds the tables as fields and runs the traversal with the writes interleaved.
* **The read side** (`ChainIndex`, `Listings`, `Proposals`, `Approvals`, `Amounts`). The range scan over the sorted
  index, the listings and the proposal queries built on it, the substring search over printed permission
  levels, and the fixed-point printer over 64-bit integers. `PendingSearch` follows a proposal from the actions
  of the log to the search.

`EndToEnd` runs the protocol against the tables: every attempt of a consumer is one `actions_table::add`.
`Refinement` proves that what the object of `TraceConsumer` leaves behind is left behind by a run of that system.

Code outside the repository is represented by function-valued fields: `ActionsTable.Codec` (decoding under an
ABI, JSON, unpacking) and the two `Reader` datatypes (packed chain rows, rendering, authorization). A field
that gives `None` has thrown. `Outcomes` says which SQL statements of one `add` are accepted,
`Sessions` which leases of a session succeed.

Two promises of the code turn out to hold only in part, and are stated exactly. Shutdown wakes a waiting lane
unless that lane had already tested the flag (`ShutdownWakesUnlessAboutToWait`), and then ends it
(`ShutdownEndsLane`); `ShutdownCanMissSleeper` has a run that ends with the lane asleep and nobody left to wake
it. A second pass over a log repeats the effects of the first if and only if every ABI that the log stores late is
harmless (`SecondPassExactly`), and then it changes nothing (`ReplayTwice`); `ReplayTwiceExactly` has the exact
condition for the outcome alone, and `ReplayCanDiffer` a log for which both fail.

## Model

| member | source | states |
|---|---|---|
| ProtocolSafety.LockKept | sql_db_plugin/consumer.hpp:80-95 | every move keeps mutual exclusion: a thread is between lock and unlock of a lane exactly when it holds that lane's mutex |
| ProtocolSafety.FlowKept | sql_db_plugin/consumer.hpp:132-158 | every move keeps pushed = consumed, then private batch, then shared queue, with an empty batch outside draining |
| ProtocolSafety.WakeKept | sql_db_plugin/consumer.hpp:94-96 | every move keeps: a lane asleep over a non-empty queue has a producer that has appended and not yet notified |
| ProtocolSafety.ExitKept | sql_db_plugin/consumer.hpp:174-182 | every move keeps: batches taken after exit, plus one if another may still come, are at most one |
| ProtocolSafety.WorkKept | sql_db_plugin/consumer.hpp:195-207 | every move keeps the log of begun records equal to those of the consumed entries followed by those of the front entry |
| ProtocolSafety.SourceKept | sql_db_plugin/consumer.hpp:77-97 | every move keeps: a thread's gated signals are what it has pushed, in order, and the entry in flight |
| ProtocolSafety.LaneInvKept | sql_db_plugin/consumer.hpp:76-219 | the conjunction of the above is kept on each lane by any move of any thread |
| ProtocolSafety.ReachableIsSafe | sql_db_plugin/consumer.hpp:76-219 | every reachable state, for any number of producers and any interleaving, satisfies the invariant of both lanes |
| ProtocolSafety.Conservation | sql_db_plugin/consumer.hpp:181-207 | no entry is lost, duplicated or reordered, and the deque is moved only into an empty process queue |
| ProtocolSafety.NoLostPushWakeup | sql_db_plugin/consumer.hpp:94-96 | a lane asleep over a non-empty queue has a wakeup pending; with all producers idle a sleeping lane has consumed everything pushed |
| ProtocolSafety.ShutdownLeavesSuffix | sql_db_plugin/consumer.hpp:174-216 | after exit at most one more batch is taken, and an ended lane leaves unconsumed exactly its shared queue |
| ProtocolSafety.FailureIsContained | sql_db_plugin/consumer.hpp:195-207 | records begun are, entry by entry in consumption order, all of an entry that finished and a prefix of one that did not; the attempts that threw are exactly the last ones of the entries an add ended; a trace that failed outside an add has no record |
| ProtocolSafety.FinishedIsWhole | sql_db_plugin/db/database.cpp:53-68 | without a throw, what is begun for the consumed entries is the concatenation of all their records |
| ProtocolSafety.ProducerOrder | sql_db_plugin/consumer.hpp:77-97 | each thread's entries are pushed in the order of its signals, all but the one in flight |
| ProtocolSafety.ConsumedIsSignalPrefix | sql_db_plugin/sql_db_plugin.cpp:67-72 | with one signalling thread, the signals that pass the gates are exactly consumed, then batch, then queue, then in flight |
| ProtocolSafety.CallsMeaning | sql_db_plugin/sql_db_plugin.cpp:147-156 | the calls of a lane are, in order, exactly the signals of its kind at or above the start block that are not a lone onblock |
| ProtocolSafety.BackPressure | sql_db_plugin/consumer.hpp:82-92 | a producer that holds the mutex makes way exactly when the queue is longer than the limit, and appends at once otherwise |
| ProtocolSafety.NotificationsWake | sql_db_plugin/consumer.hpp:70-96 | notifying all leaves no sleeper on either lane; notifying one leaves one sleeper less, if there was one |
| ProtocolProgress.StepLowersMeasure | sql_db_plugin/consumer.hpp:76-219 | every move but a signal, a spurious wakeup or the setting of exit lowers the measure |
| ProtocolProgress.SomeoneMoves | sql_db_plugin/consumer.hpp:76-219 | short of a settled state some thread can move by itself: there is no deadlock |
| ProtocolProgress.SettledIsDelivered | sql_db_plugin/consumer.hpp:172-219 | in a settled state all calls are pushed, a sleeping lane has consumed them all, an ended one all but its queue |
| ProtocolProgress.RunsAreBounded | sql_db_plugin/consumer.hpp:172-219 | left to themselves the threads make at most as many moves as the measure says |
| ProtocolProgress.EveryScheduleDelivers | sql_db_plugin/consumer.hpp:76-219 | from any reachable state every schedule without new signals is bounded, leads to a reachable state, and can only stop when everything is delivered on both lanes, with every record accounted for |
| ProtocolProgress.NeverSleeps | sql_db_plugin/consumer.hpp:128-130 | a lane that is neither asleep nor about to wait once exit is set never sleeps again |
| ProtocolProgress.ShutdownWakesUnlessAboutToWait | sql_db_plugin/consumer.hpp:64-74 | after shutdown's notification a lane can be asleep in some run if and only if it was about to wait at that moment |
| ProtocolProgress.ShutdownEndsLane | sql_db_plugin/consumer.hpp:64-74 | a lane not about to wait when shutdown notifies ends, under every schedule and after a bounded number of moves, with everything consumed but its shared queue |
| ProtocolProgress.ShutdownCanMissSleeper | sql_db_plugin/consumer.hpp:64-74 | a concrete run after which shutdown has finished, the trace lane is asleep, and no thread can move by itself |
| TraceConsumer.TraceLane.Push | sql_db_plugin/consumer.hpp:77-97 | the entry goes last behind all that was pushed before it; while a full queue is waited on, other producers may push, exit may be set, and the consumer may take the queue and consume, in any order, and nothing is lost |
| TraceConsumer.TraceLane.TakeBatch | sql_db_plugin/consumer.hpp:181-187 | the whole shared deque becomes the process deque and nothing of either is lost |
| TraceConsumer.TraceLane.ConsumeFront | sql_db_plugin/consumer.hpp:195-206 | the front entry is consumed and popped whether or not consuming it throws |
| TraceConsumer.TraceLane.DrainBatch | sql_db_plugin/consumer.hpp:195-207 | the batch is consumed in order to the end, and the tables are those of consuming its traces one after the other |
| TraceConsumer.TraceLane.Wait | sql_db_plugin/consumer.hpp:176-179 | the wait ends only with a non-empty queue or exit, unless nothing more happens |
| TraceConsumer.TraceLane.RunTraces | sql_db_plugin/consumer.hpp:172-219 | over every script of arrivals, with any sessions failing: pushed = consumed then queue, the tables are those of the consumed traces, and a lane not told to exit has consumed everything |
| Refinement.OutcomeIsReached | sql_db_plugin/consumer.hpp:76-219 | every split of gated traces into consumed ones and a queue, with a queue left only after exit, is where some run of producers, consumer and database ends, with the tables of the consumed traces |
| Refinement.RunTracesRefines | sql_db_plugin/consumer.hpp:172-219 | run_traces as an object refines the thread system: its deques, consumed traces, tables and exit flag are those of a run of the composed system |
| TraceConsumer.ConsumeConcat | sql_db_plugin/consumer.hpp:195-207 | consuming two batches one after the other is consuming their concatenation |
| Traces.FrontierCharacterised | sql_db_plugin/db/database.cpp:59-68 | the traversal offers, in preorder and each once, exactly the nodes that received their own action, are named by the filter, and whose ancestors are all self-received and not named |
| Traces.FrontierIsAntichain | sql_db_plugin/db/database.cpp:61-66 | no recorded node lies below another |
| Traces.WiderFilterCovers | sql_db_plugin/db/actions_table.cpp:10 | under a wider filter every recorded node is recorded or lies below a recorded one |
| Traces.FrontierInPreorder | sql_db_plugin/db/database.cpp:60-64 | the frontier positions come in strict preorder |
| Traces.FrontierActions | sql_db_plugin/db/database.cpp:59-68 | the actions offered are those at the frontier positions, in the same order |
| Traces.TraceRecords | sql_db_plugin/db/database.cpp:53-68 | the records of a trace are, in preorder, the actions at exactly the recorded positions, each with the id and block time of the trace |
| Traces.BlockRecords | sql_db_plugin/db/database.cpp:33-51 | the records of a block are, in order, exactly the named actions of the packed transactions before the first receipt that does not unpack, lone onblock transactions left out, with transaction id and block time |
| Traces.PassesExactly | sql_db_plugin/sql_db_plugin.cpp:65-72 | a signal passes the gates exactly from the start block on and unless it is a trace of a single onblock |
| Tables.UpsertKept | eos.sql:278 | insert or update on duplicate key keeps unique keys and increasing ids and changes the answer for its key only |
| Tables.ReplaceKept | eos.sql:134 | replace keeps unique keys and increasing ids and changes the answer for its key only |
| Tables.DeleteKept | eos.sql:295 | delete by key keeps unique keys and increasing ids and removes the answer for its key only |
| Tables.InsertIfAbsentKept | eos.sql:41 | inserting an account that may exist keeps unique keys and never touches an existing row |
| Tables.GetMeaning | eos.sql:278 | a key answers a value exactly when some row holds both |
| Statements.TablesAreLastWrites | sql_db_plugin/db/actions_table.cpp:82-202 | after any statements, each key of each keyed table answers what the last statement about it dictates, or what it answered before |
| Statements.ProposalIsLastPropose | sql_db_plugin/db/actions_table.cpp:133-171 | of statements: a proposal row with given approvals exists if and only if the last one about its key inserts it with those approvals, when there was none to begin with |
| Statements.AssetsListedByLastCreate | sql_db_plugin/db/actions_table.cpp:186-193 | assets ordered by id come in the order of the last successful create of their key |
| Statements.ProposalsListedByBirth | sql_db_plugin/db/actions_table.cpp:138-162 | proposals ordered by id come in the order of the propose that inserted their row |
| Statements.BornMeaning | sql_db_plugin/db/actions_table.cpp:138-162 | that propose is the first one of its key since the key's last deletion |
| Statements.LogAppends | sql_db_plugin/db/actions_table.cpp:23-37 | actions and accounts_keys are the initial rows followed by what the statements append, in order |
| Statements.LogKeepsValid | eos.sql:41 | unique keys hold after any statements |
| Statements.StatementsTwice | sql_db_plugin/db/actions_table.cpp:82-202 | the same statements again change no keyed answer and append each row once more |
| Statements.SecondStatements | sql_db_plugin/db/actions_table.cpp:82-202 | other statements afterwards change no keyed answer if and only if each key they concern already answers what they dictate last, and append the same rows if and only if theirs are the same |
| ActionsTable.LookupFindsAbiInEffect | sql_db_plugin/db/actions_table.cpp:218-247 | the ABI the lookup finds is that of the last stored setabi of the account in the log, or the initial one |
| ActionsTable.StatementsAreDirect | sql_db_plugin/db/actions_table.cpp:61-80 | the statements of a log are those computed action by action from the log before it, without the tables |
| ActionsTable.TablesAreDirectQuery | sql_db_plugin/db/actions_table.cpp:61-205 | after any log with any failures every table equals a last-writer query over statements computed from the log alone; `ActionMeaning` says which actions these are |
| ActionsTable.NoAbiNoEffect | sql_db_plugin/db/actions_table.cpp:69-77 | without a stored ABI an action is recorded with the empty object and changes nothing else, except that the system account falls back to the built-in ABI |
| ActionsTable.TablesStaySound | sql_db_plugin/db/actions_table.cpp:84-105 | whatever fails: unique keys hold, every key row names an existing account, no account or stored ABI is lost |
| ActionsTable.KeysAreAPrefix | sql_db_plugin/db/actions_table.cpp:84-105 | one newaccount adds a prefix of its owner keys followed by its active keys, any other action none |
| ActionsTable.SecondPassExactly | sql_db_plugin/db/actions_table.cpp:69-80 | a second pass brings every action to the result of the first if and only if each action recorded before its account's first stored ABI comes to the same result under the last ABI the log stores for the account as under the initial one |
| ActionsTable.ReplayTwice | sql_db_plugin/db/actions_table.cpp:82-202 | under that condition on the log and the initial tables, a second pass leaves accounts, votes, proposals and assets, and doubles actions and accounts_keys exactly |
| ActionsTable.ReplayTwiceExactly | sql_db_plugin/db/actions_table.cpp:82-202 | the same promise holds if and only if the statements of the second pass, read off the log, append the rows of the first and give each key they concern what it had from the first |
| ActionsTable.AbiBeforeUseSuffices | sql_db_plugin/db/actions_table.cpp:69-80 | in particular when no action is recorded before its account's first stored ABI |
| ActionsTable.ReplayCanDiffer | sql_db_plugin/db/actions_table.cpp:71-77 | a concrete log that violates the condition, whose second pass creates an asset that the first did not |
| ActionMeaning.ProposalByActions | sql_db_plugin/db/actions_table.cpp:133-171 | a proposal is in the table with given approvals if and only if the last propose, cancel or exec of eosio.msig for its proposer and name that took effect is a propose whose "requested" prints as these approvals; took effect: the add did not throw, second lookup and write were accepted, and the data decodes under the ABI in effect |
| ActionMeaning.ProposalsInOrder | sql_db_plugin/db/actions_table.cpp:138-162 | proposals ordered by id come in the order of the propose actions that made them, each the first to take effect since the last cancel or exec of its key |
| ActionMeaning.VoteByActions | sql_db_plugin/db/actions_table.cpp:107-127 | a vote row is the last voteproducer of the voter that took effect, with its proxy and its producers as JSON |
| ActionMeaning.AssetByActions | sql_db_plugin/db/actions_table.cpp:175-202 | an asset row is the last create of its symbol by its contract that took effect with an issuer and a positive maximum supply, with that precision, maximum and issuer and supply zero |
| ActionMeaning.AbiByActions | sql_db_plugin/db/actions_table.cpp:218-235 | the stored ABI of an account is that of the last setabi for it that unpacks and whose write was accepted, whether or not that add went on to throw |
| ActionMeaning.AccountByActions | sql_db_plugin/db/actions_table.cpp:84-88 | an account has a row if and only if it had one, or a newaccount naming it took effect, or an ABI was stored for it |
| ActionMeaning.KeysByActions | sql_db_plugin/db/actions_table.cpp:89-105 | accounts_keys is appended, action after action, the owner keys and then the active keys of each newaccount that took effect, up to the first insert refused |
| ActionMeaning.RecordedRows | sql_db_plugin/db/actions_table.cpp:16-43 | the rows appended to the actions table are, in order, one for each action whose data converts and whose insert was accepted, with its account, name, time, transaction id and printed authorization, the six names of its data, and as data the stored ABI text of a setabi, the decoded action as JSON, or the empty object |
| ActionMeaning.ThrowsByActions | sql_db_plugin/db/actions_table.cpp:19-20 | an add throws if and only if the data it would store does not convert to the six names |
| ActionMeaning.TablesAreDeeds | sql_db_plugin/db/actions_table.cpp:61-205 | ids and order included, the keyed tables are those of one statement, or none, for each action of the log |
| SqlDatabase.RanIsAPrefix | sql_db_plugin/db/actions_table.cpp:19-21 | the actions begun are a prefix of the list, all of it unless conversion threw, and the tables are the replay of that prefix |
| SqlDatabase.OnlyTheLastThrows | sql_db_plugin/db/actions_table.cpp:19-21 | of the actions begun only the last can have thrown, and it did exactly when the run was cut short |
| SqlDatabase.Database.Bootstrap | sql_db_plugin/sql_db_plugin.cpp:134-139 | the system account gets the built-in ABI on a first start from block zero, and otherwise nothing changes |
| SqlDatabase.Database.AddData | sql_db_plugin/db/actions_table.cpp:208-274 | the JSON returned and the ABI stored are those of the specification, in every branch and with any failure |
| SqlDatabase.Database.InsertKeys | sql_db_plugin/db/actions_table.cpp:89-105 | the two loops add the owner keys and then the active keys up to the first insert that fails |
| SqlDatabase.Database.ParseActions | sql_db_plugin/db/actions_table.cpp:61-205 | the table changes are the statements of the specification applied in order; `ActionMeaning` says which rows these are |
| SqlDatabase.Database.Add | sql_db_plugin/db/actions_table.cpp:8-59 | an unnamed action changes nothing; a named one applies its statements and throws exactly when converting the JSON does; the row it inserts is that of `RecordedRows` |
| SqlDatabase.Database.DfsInlineTraces | sql_db_plugin/db/database.cpp:59-68 | walking with the writes interleaved equals recording the frontier in order up to the first action that throws |
| SqlDatabase.Database.ConsumeTransactionTrace | sql_db_plugin/db/database.cpp:53-57 | without a session a trace changes nothing and throws; with one it changes the tables as its frontier does |
| SqlDatabase.Database.ConsumeBlockState | sql_db_plugin/db/database.cpp:33-51 | a block changes the tables as the named ones of its actions do in order, skipping lone onblock transactions, with a session for each, up to a throw, a missing session or a receipt that does not unpack |
| SqlDatabase.SessionsCutBlocks | sql_db_plugin/db/database.cpp:44-46 | a missing session cuts a block short and does nothing else: the records are those of the actions before it |
| SqlDatabase.BlockIsItsJobs | sql_db_plugin/db/database.cpp:37-50 | with a session for every action a block is recorded as its list of records says |
| EndToEnd.TablesFollowSignals | sql_db_plugin/consumer.hpp:172-218 | in every reachable state of producers, consumers and database the tables are the replay of the attempts, and each lane's attempts, with their throws, are those of its consumed entries, whole unless cut short, and a prefix of the one in progress |
| EndToEnd.CutTraceHasCause | sql_db_plugin/consumer.hpp:195-207 | the attempts of a consumed trace are its records in order: all of them and none throwing if it finished, otherwise none at all, or a prefix of which the last threw and no other |
| EndToEnd.ShippedPlugin | sql_db_plugin/sql_db_plugin.cpp:147-156 | with the trace signal alone: attempts are the records of the consumed traces, whole unless cut short, these are a prefix of the signals that pass the gates, and the tables are the replay of the attempts, so that every theorem about a log of actions holds of them |
| EndToEnd.SomeoneMovesWhole | sql_db_plugin/consumer.hpp:76-219 | short of a settled state some thread of the composed system can move, whatever its add comes to |
| EndToEnd.WholeSchedulesDeliver | sql_db_plugin/consumer.hpp:76-219 | every schedule of the composed system without new signals is bounded and can only stop when everything pushed has been delivered to the tables |
| EndToEnd.ShippedPluginAtRest | sql_db_plugin/sql_db_plugin.cpp:147-156 | at rest, with no exit and no trace cut short, the records begun are exactly all records of the traces that passed the gates, in signal order |
| ChainIndex.RangeIsTable | sql_db_plugin/sql_db_plugin.cpp:560-563 | the range between the two lower bounds is exactly the rows of the table |
| ChainIndex.RowsKeepOrder | sql_db_plugin/sql_db_plugin.cpp:564 | the rows of a table are scanned in key order |
| ChainIndex.WalkKeyValueTable | sql_db_plugin/sql_db_plugin.cpp:554-572 | the callback sees the rows of one table in key order up to the first on which it stops or throws, and the second callback runs exactly when the table is absent |
| ChainIndex.VisitedMeaning | sql_db_plugin/sql_db_plugin.cpp:564-569 | the rows visited are a beginning of the table, on all but the last of which the callback went on, and rows are left out only because the last stopped or threw |
| Listings.SearchMeaning | sql_db_plugin/sql_db_plugin.cpp:264-280 | a balance is found exactly when some row holds it and every row before it is readable, and it is the first such row |
| Listings.SearchExactly | sql_db_plugin/sql_db_plugin.cpp:266-280 | a search gives a balance if and only if it stands in the first row that is not a readable balance of another symbol, and has this symbol |
| Listings.OneAsset | sql_db_plugin/sql_db_plugin.cpp:259-296 | an asset gives one token exactly when its contract lists accounts and has, under code contract, scope account and table "accounts", such a balance, or has no such table and a valid symbol and the listing has placeholders; the token bears the contract and symbol of the row, the decimals of the balance and the canonical text of its amount, or the precision of the row and a text that reads as zero |
| Listings.ScanTokens | sql_db_plugin/sql_db_plugin.cpp:316-336 | one asset contributes one token exactly when the account holds a balance of the symbol in its table of the contract, and the absent table is told apart |
| Listings.GetTokens | sql_db_plugin/sql_db_plugin.cpp:201-246 | the tokens are, in order, one for each requested asset that `OneAsset` lists, held or as a placeholder of at most 18 decimals, and none for any other |
| Listings.GetAllTokens | sql_db_plugin/sql_db_plugin.cpp:248-299 | the tokens are, in order, one for each asset of the page that is held or stands as a placeholder, and none for any other; empty for a negative start or size |
| Listings.GetHoldTokens | sql_db_plugin/sql_db_plugin.cpp:301-348 | the tokens are, in id order, one for each asset whose contract has a table for the account in which a balance of the symbol is found, and none for any other |
| Listings.AssetRowsAreLastCreates | sql_db_plugin/db/actions_table.cpp:276-285 | with no assets to begin with, the assets query lists every created asset, each once, with the precision of its last create, in the order of these creates |
| Listings.AssetsAfterLog | sql_db_plugin/db/actions_table.cpp:186-193 | the same of actions: with no assets to begin with, after any log with any failures, the query lists every asset some create made, with the precision of its last create, in the order of these creates |
| Listings.LimitMeaning | sql_db_plugin/db/actions_table.cpp:276-280 | a page has the rows from its start on, as many as its size or as there are |
| Listings.PagesConcatenate | sql_db_plugin/db/actions_table.cpp:276-285 | adjacent pages concatenate to the larger page, and a large enough page is the full listing |
| Listings.HoldingsAreListingWithoutPlaceholders | sql_db_plugin/sql_db_plugin.cpp:282-287 | the holdings are the full listing of the assets whose contract has, under its own code, a table "accounts" in the scope of the account, and each asset gives at most one token |
| Proposals.Visit | sql_db_plugin/sql_db_plugin.cpp:515-545 | the inner walk hands on one proposal exactly when some row of the proposal table bears the name and every row up to it unpacks: requested and provided as in the approvals row, the rendering of the packed transaction, and status 1 if and only if the provided approvals authorize it; nothing of an earlier row survives in the shared variable |
| Proposals.GetMyProposals | sql_db_plugin/sql_db_plugin.cpp:504-552 | the proposals are, in key order, those of exactly the approvals rows in the scope of the proposer that have a transaction, each as `Visit` says; it fails exactly when some row does not unpack, render or check |
| Proposals.GetPendingProposal | sql_db_plugin/sql_db_plugin.cpp:453-502 | the same for the approvals rows of that name |
| Proposals.GetPendingProposals | sql_db_plugin/sql_db_plugin.cpp:396-451 | for each row of the SQL search, in order, the proposal of the first approvals row of its name, if it has a transaction; it fails exactly when one of them does |
| Proposals.ReplyMeaning | sql_db_plugin/sql_db_plugin.cpp:465-499 | row by row, which proposals an answer shows and when it is a failure, without the functions that compute it |
| Proposals.FirstMeaning | sql_db_plugin/sql_db_plugin.cpp:408-446 | only the first approvals row of the name counts, provided every row before it unpacks |
| Proposals.PendingMeaning | sql_db_plugin/sql_db_plugin.cpp:404-449 | the answer is a failure if one of its parts is, and otherwise their proposals in order |
| Proposals.PendingProposalIsMyProposalsByName | sql_db_plugin/sql_db_plugin.cpp:453-552 | asking by name gives exactly the account's own proposals of that name |
| Proposals.PendingProposalsAreByName | sql_db_plugin/sql_db_plugin.cpp:404-449 | with unique names the pending proposals are the concatenation over the SQL rows of asking by name |
| Proposals.RowsKeyedByNameAreUnique | sql_db_plugin/sql_db_plugin.cpp:408-411 | names are unique when rows are stored under the number of their name, as the multisig contract does |
| Proposals.AwaitingIsExact | sql_db_plugin/db/actions_table.cpp:287-291 | over rows that hold printed levels, the SQL search lists, in id order, exactly the proposals whose levels name the account |
| PendingSearch.AwaitingAfterLog | sql_db_plugin/db/actions_table.cpp:133-171 | with no proposals to begin with, after any log of actions with any failures, the search lists exactly the proposals whose last propose, cancel or exec to take effect is a propose that asks for the account's approval, each once, in the order they were made, provided each propose that took effect prints its requested levels as compact JSON |
| Approvals.LikeIsContains | sql_db_plugin/db/actions_table.cpp:289 | a literal text between percent signs matches exactly the texts that contain it |
| Approvals.SearchIsExact | sql_db_plugin/db/actions_table.cpp:287-291 | the text is found in the printed levels if and only if some level's actor is the account |
| Approvals.PrintedLevels | sql_db_plugin/db/actions_table.cpp:21 | the compact JSON of a list of levels: brackets, and each level an object with actor and permission, behind a comma from the second on |
| Approvals.LikeByPlaces | sql_db_plugin/db/actions_table.cpp:289 | without percent signs and escapes a pattern is matched place by place, an underscore by any character |
| Amounts.Shape | sql_db_plugin/include/eosio/sql_db_plugin/sql_db_plugin.hpp:173-183 | the text is a minus for negative amounts, the whole part, and a fraction of exactly as many digits as there are decimals; `PrintedExactly` has the meaning |
| Amounts.PrintedExactly | sql_db_plugin/include/eosio/sql_db_plugin/sql_db_plugin.hpp:173-183 | the printed text is the only canonical one that reads as the amount: no minus for zero, no leading zero in the whole part unless it is the digit 0, as many places after the point as decimals, no point without any |
| Amounts.IntermediatesFit | sql_db_plugin/include/eosio/sql_db_plugin/sql_db_plugin.hpp:175-180 | the absolute value fits 64 bits, and precision plus fraction stays below 2 * 10^18 |
| Amounts.PrintedAmountReadsBack | sql_db_plugin/include/eosio/sql_db_plugin/sql_db_plugin.hpp:173-183 | reading the text back gives the amount, and a minus is printed exactly for negative amounts |
| Amounts.PrintingIsInjective | sql_db_plugin/include/eosio/sql_db_plugin/sql_db_plugin.hpp:173-183 | at fixed decimals different amounts print differently |

## Left out

Assumptions and limits of the members above:

- TraceConsumer.TraceLane.RunTraces: what other threads do enters as a script at the points where the mutex is free; `Protocol` has all interleavings, for both lanes.
- Refinement.RunTracesRefines: the run of the thread system has the same outcome, not the same order of moves; it pushes the consumed traces before it consumes them. Script and object speak of traces that have passed the gates.
- ProtocolProgress.StepLowersMeasure: excludes spurious wakeups, which the safety results allow.
- ProtocolSafety.FailureIsContained: a block, for which a session is leased before every action, may be cut short at any point.
- Statements.AssetsListedByLastCreate: only the order of ids is meant; auto-increment gaps, as `ON DUPLICATE KEY` leaves them, are not modelled.
- Approvals.LikeIsContains: matches characters exactly; case folding of the SQL collation is not modelled, and EOS names have no upper-case letters.
- Amounts.PrintedAmountReadsBack: excludes the least 64-bit amount, whose absolute value is undefined in the source; stored balances are assumed to be different from it.
- EndToEnd.TablesFollowSignals: one `add` is one step, so calls of the two lanes do not interleave inside an `add`; the shipped plugin feeds the trace lane only (sql_db_plugin/sql_db_plugin.cpp:147-150).
- A moved-from deque is taken to be empty, and logging to never throw.
- Moving the deque and unlocking are one move of the model, and so are appending and unlocking: no other thread can tell them apart.
- The gate of the block lane is the one in the commented-out connection (sql_db_plugin/sql_db_plugin.cpp:147-150).
- Distinct keys stay distinct under the SQL collation; names consist of a-z, 1-5 and the dot.
- The row count that `accounts_table::exist` leaves uninitialised when its query fails (sql_db_plugin/db/accounts_table.cpp:34-45): the bootstrap check is assumed to succeed.
- In the proposal queries the multisig contract is assumed to have an ABI; a missing one fails the whole request before any row is read.
- An ABI that does not unpack is taken to raise an fc exception, which `add_data` answers with the ordinary lookup.

Not modelled:

- Thread creation, join and object lifetime (setting exit and notifying is the same in the destructor and in `shutdown`, which the plugin itself has commented out); sleep durations and the unlocked size reads of the back-pressure branch.
- The session pool and reconnection: a session can be had or not, and a statement either applies or fails without effect.
- Unpacking, ABI decoding, JSON reading and printing (but for permission levels), hex decoding and `check_authorization`: partial functions.
- The normalisation that the JSON column type applies to stored ABIs, and the columns created_at of accounts, updated_at and logo_url.
- `get_userresource` and `get_refund`: single-row decoding.
- The tables of blocks and transactions, `accounts_table::add`, `sql_change.sql`, HTTP routes and option parsing.
