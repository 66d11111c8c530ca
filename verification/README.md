# AnyManager in Dafny

AnyManager is a gateway that keeps upstream API keys in a priority-ordered table, sends each proxied request to
the best key that is enabled and not cooling, counts consecutive failures, cools a key down when its counter meets
a threshold, and logs every request. This project models that behaviour and proves what it promises over all runs.
`dafny verify dfyconfig.toml` checks every file.

## How the model is built

- **The store.** `Store.dfy` gives every statement on the tables as a function from one database value to the
  next, with the constraints of the schema as part of its meaning: a violated constraint fails the statement and
  rolls the transaction back. `Repository.dfy` is the same store as a class whose methods change the tables in
  place, one transaction each, proved against those functions. `Columns.dfy` says of each transaction when it
  succeeds and what it does to every column, without those functions. Renumbering visits the rows one by one, in an
  arbitrary order, with the unique index checked at every row (`Renumbering.dfy`, `KeyTable.dfy`).
- **Choosing a key.** `Selection.dfy` has `filterAvailable`, `Select` and `Status` as methods with the program's
  loops; the stable sort works in place on an array (`Sorting.dfy`).
- **The gateway.** `Gateway.dfy` is a state machine over requests, administration, cleanup and the clock. Every
  transaction is one atomic step, and a request is broken exactly where the program lets go of the database, so
  any interleaving of requests and edits is a run. Time is an explicit number of nanoseconds that never
  decreases. What the world does (the upstream's answer, failing reads and writes) is part of the action.
  `Forwarder.dfy` is `Proxy` as one method over the store, proved equal to the steps of one undisturbed request.
  `Routing.dfy`, `History.dfy`, `Readings.dfy`, `Attribution.dfy`, `RateBound.dfy`, `Overshoot.dfy`, `Failover.dfy`,
  `Staleness.dfy`, `LogView.dfy`, `LostRows.dfy` and `Retention.dfy` prove the properties of runs.
- **Sessions and hashes.** `Base64.dfy`, `Text.dfy`, `Session.dfy` and `HashString.dfy` print and parse the two
  text formats, with HMAC and argon2 as arbitrary functions. `AuthProtocol.dfy` runs bootstrap, login, reset and
  request checks as interleaved handlers.
- **Rewriting.** `ModelRewrite.dfy` works on a body's top-level fields in document order; `Headers.dfy` on header
  maps that change in place, copied in an arbitrary iteration order.

## Where the code does not do what one would expect

- `time.Duration(seconds) * time.Second` is the configured cooldown exactly up to 9,223,372,036 seconds; beyond
  that it wraps, and ten billion seconds, which every check accepts, is a cooldown in the past
  (`RateBound.CooldownExactIff`, `RateBound.CooldownCanBeNegative`).
- The shift by 1,000,000 is safe in every visiting order for a reorder of at most 1,000,000 rows, and for a delete
  up to there or, with one row more, of the first or the last key; otherwise visiting the rows by ascending
  priority trips the unique index (`KeyTable.ReorderSafeIff`, `KeyTable.DeleteSafeIff`).
- `MarkResult` reads the threshold and the cooldown before the transaction that records the result. In every run
  each result is recorded under the configuration in force when its call ended, which the history theorem speaks
  of (`Readings.ReadingsHold`, `Readings.CountersRefineConfigurations`); it is the one in force at the write when
  nothing saved a configuration in between (`Readings.ReadIsCurrent`). `Readings.OldThresholdCanDecide` is a run
  from the empty store that ends with a key cooling after one failure under a threshold of 20, and
  `Readings.RecordedAsCurrentIff` says exactly when the difference shows.
- `Select` lists the keys first and reads the clock afterwards, so a request can be sent to a key that is cooling,
  and a later failure under a smaller `cooldown_seconds` ends a cooldown early; `Staleness.CoolingKeyCanBeChosen`
  is a run from the empty store in which both happen. It happens exactly when a failure that met its threshold
  was recorded on the key between the request's listing and its choice (`Staleness.ChosenWhileCoolingIff`), and
  never with one request at a time (`RateBound.SequentialNeverCooling`). In the same way a request that holds a
  listing can still take a key that was disabled meanwhile (`Staleness.HolderSelectsDisabled`), and no other
  request can (`Staleness.DisabledIsNotSelected`).
- The window of a query starts 24 hours before its clock is read, and the rows are read later. A cleanup in
  between can take a row of the window: `Retention.QueryCanMissRow` is a run from the empty store in which the
  total is 0 instead of 1, and `Retention.QueryAgreesIff` says exactly when answers are unaffected.
- A log row of a request whose key was deleted while it was in flight violates the foreign key and is lost:
  `LostRows.RowCanBeLost` is a run from the empty store that answers a request and ends with an empty log. A row
  that is written for a status other than 401 is lost exactly if it names a key whose delete committed since the
  request arrived (`LostRows.RowLostIff`).
- The version of a cookie is checked when a request arrives, not when its reset commits. Of two resets that passed
  the check with one cookie both take effect (`AuthProtocol.OutdatedResetHappens`); a reset commits under a cookie
  that has run out exactly if another reset committed since its check (`AuthProtocol.OutdatedResetIff`).

## Model

| member | source | states |
|---|---|---|
| Listings.ListingUnique | internal/store/repository.go:170-195 | the table determines the answer of ORDER BY priority, id: there is only one such listing |
| Listings.ListingIds | internal/store/repository.go:322-337 | the ids read back for a renumbering are every id of the table, each once |
| Listings.ListingUpdate | internal/store/repository.go:250-286 | writing any column but id and priority leaves every key at its place in the listing |
| Repositories.Repository.ListUpstreamKeys | internal/store/repository.go:170-195 | the rows appended one by one are the unique listing of the table by (priority, id) |
| Repositories.Repository.NextPriorityOf | internal/store/repository.go:559-568 | one more than the highest priority, and 1 for the empty table |
| Repositories.Repository.ShiftRows | internal/store/repository.go:352-354 | the in-place shift succeeds or fails, row by row, exactly as the unique index decides in that visiting order |
| Repositories.Repository.AssignRows | internal/store/repository.go:355-363 | the loop over the ids writes 1, 2, ... in place and stops exactly where the unique index objects |
| Repositories.Repository.CreateUpstreamKey | internal/store/repository.go:212-248 | it succeeds exactly if no row has the alias; then the table is the old one with the new row, which the contract gives column by column, and stays dense, and otherwise nothing changes |
| Repositories.Repository.ReplaceUpstreamKey | internal/store/repository.go:250-267 | it succeeds exactly if the row exists and no other row has the alias; then alias, hint, secret and flag of that row are the given ones, its other columns and the rest of the store are as before, and the table stays dense; otherwise nothing changes |
| Repositories.Repository.SetUpstreamEnabled | internal/store/repository.go:269-286 | only the flag of an existing row changes, a missing id is an error, and the table stays dense |
| Repositories.Repository.DeleteUpstreamKey | internal/store/repository.go:288-313 | the transaction ends in the renumbered table, with all columns of the log as before but the references to the key, or in no change at all; whenever no two survivors are 1,000,000 apart an existing key is deleted |
| Repositories.Repository.ReorderUpstreamKeys | internal/store/repository.go:315-368 | for a payload of arbitrary numbers the transaction ends in the renumbered table or in no change; up to 1,000,000 rows it succeeds exactly for the permutations of the ids |
| Repositories.Repository.RecordUpstreamResult | internal/store/repository.go:370-432 | it succeeds exactly for an existing row, of which it writes counter, cooldown and error text: 0, none and empty after a success; one more, armed at the threshold, and the summary after a failure. No other column, row or table changes |
| Repositories.Repository.UpdateAppConfig | internal/store/repository.go:96-110 | the five columns change together exactly if the auth mode is one of the two, the threshold at least 1 and the cooldown at least 60 seconds; anything else violates a CHECK and changes nothing |
| Repositories.Repository.InsertRequestLog | internal/store/repository.go:457-479 | a 401 is silently skipped, a dangling key or unknown route is an error and no change, any other row is appended with a new id |
| Repositories.Repository.CleanupRequestLogs | internal/store/repository.go:547-557 | exactly the rows older than the cut go, the others keep their order, and the count is what went |
| Columns.CreateColumns | internal/store/repository.go:212-248 | a create goes through exactly if no row has the alias, and adds one row with priority n + 1, no failures, no cooldown and no error text, and nothing else |
| Columns.ReplaceResult | internal/store/repository.go:250-267 | a replace goes through exactly if the row exists and no other row has the alias; then the row holds the four given values, its other columns, all other rows and the rest of the store are unchanged, and the listing differs in that entry |
| Columns.EnableColumns | internal/store/repository.go:269-286 | switching a key on or off succeeds exactly for an existing row and changes only its flag |
| Columns.DeleteColumns | internal/store/repository.go:288-313 | a delete drops one row and changes at most the priority of the others; every log row keeps all its columns, but those of the key no longer name it |
| Columns.RecordColumns | internal/store/repository.go:370-432 | the recording of a result writes counter, cooldown and error text of one row, as success or failure and the threshold say, and nothing else |
| Columns.InsertColumns | internal/store/repository.go:457-479 | status 401 is skipped, a route other than the two or a missing key is refused, and any other row goes unchanged to the end of the log |
| Columns.RecordStepColumns | internal/upstream/service.go:115-121 | in the running gateway the mark of a result does this to the marked row, as a success exactly for an answer within 200..299 |
| Columns.ConfigStepColumns | internal/store/repository.go:96-110 | saving puts the whole given configuration in force, exactly if it passes the CHECKs |
| Columns.CleanupStepColumns | internal/jobs/cleanup.go:28-31 | a cleanup takes exactly the rows older than 86,400,000,000,000 nanoseconds before the clock it read |
| Renumbering.ShiftSucceedsIff | internal/store/schema.sql:58-59 | for any visiting order the shift goes through if and only if no row lands on a row still waiting, and then every row has moved by 1,000,000 |
| Renumbering.AssignSucceeds | internal/store/repository.go:588-595 | as long as waiting rows lie above and placed rows below, no target priority is ever taken |
| Renumbering.RenumberSucceeds | internal/store/repository.go:570-597 | with at most 1,000,000 rows, none exactly 1,000,000 above another, the renumbering never trips the unique index, whatever the visiting order |
| Renumbering.RenumberResult | internal/store/repository.go:588-595 | a renumbering that goes through gives the t-th id priority t + 1 and changes no other column |
| Renumbering.RenumberIntermediates | internal/store/repository.go:352-363 | in every table between two rows, of the shift and of the reassignment, all priorities are distinct |
| KeyTable.DensePriorities | internal/store/schema.sql:58-59 | a dense table has distinct priorities and they are exactly 1..n |
| KeyTable.CreateKeeps | internal/store/repository.go:212-248 | a created key is appended at the end of the listing with rank n + 1, fresh counters and no cooldown; the table stays dense |
| KeyTable.EditKeeps | internal/store/repository.go:250-286 | an edit of one row keeps density and every other entry of the listing |
| KeyTable.DeleteResult | internal/store/repository.go:288-313 | the survivors keep their order, get their new ranks, and keep every other column; log rows of the key lose only their reference |
| KeyTable.DeleteSafeIff | internal/store/repository.go:570-597 | a delete goes through in every visiting order exactly up to 1,000,000 rows, and with one row more exactly for the first and the last key |
| KeyTable.DeleteTrips | internal/store/repository.go:588-590 | any other delete is rolled back when the rows are visited by ascending priority |
| KeyTable.ReorderAcceptsPermutations | internal/store/repository.go:340-350 | equal length and every existing id seen holds exactly for the payloads that list each id once |
| KeyTable.AcceptedAreIds | internal/store/repository.go:340-350 | a payload of arbitrary numbers that passes both checks holds nothing but existing ids |
| KeyTable.ReorderResult | internal/store/repository.go:352-366 | an accepted payload becomes the listing order, and every key keeps its flag, counter, cooldown and text |
| KeyTable.ReorderSucceedsIff | internal/store/repository.go:315-368 | up to 1,000,000 rows a reorder succeeds exactly for permutations and otherwise reports the payload |
| KeyTable.ReorderTrips | internal/store/repository.go:352-354 | beyond 1,000,000 rows a valid reorder is rolled back when rows are visited by ascending priority |
| KeyTable.ReorderSafeIff | internal/store/repository.go:315-368 | a payload goes through in every visiting order exactly if it is a permutation of at most 1,000,000 ids |
| Sorting.SortInPlace | internal/upstream/service.go:238-243 | the in-place sort leaves the stable sorted form of what was in the array |
| Sorting.StableSortSorts | internal/upstream/service.go:238-243 | the sorted form is in order and holds the same elements with the same multiplicity |
| Sorting.StableSortFixed | internal/upstream/service.go:238-243 | what is already in order is not moved |
| Selection.FilterAvailable | internal/upstream/service.go:227-245 | the loop and the in-place sort give, in order, exactly the enabled keys whose cooldown is over or was never set |
| Selection.Select | internal/upstream/service.go:99-103 | from the keys and the time: none exactly if each key is disabled or cooling, and otherwise an enabled key that does not cool, with no other such key before it |
| Selection.GetStatus | internal/upstream/service.go:206-225 | both counts as numbers of keys of one listing at one instant, availability, and the alias of a key that Select could return |
| Selection.SortingIsRedundant | internal/upstream/service.go:227-245 | on a listing by (priority, id) the sort changes nothing |
| Selection.PickIsBest | internal/upstream/service.go:90-103 | the chosen key is exactly the (priority, id)-least enabled key without a cooldown or with one that has ended, and there is none if and only if each key is disabled or cooling |
| Selection.PickFromAnyOrder | internal/upstream/service.go:238-243 | for keys in any order the choice still has no usable key before it |
| Selection.StatusAgrees | internal/upstream/service.go:206-225 | Status names the alias Select would choose, counts no more available than enabled keys, and is unavailable if and only if Select has no candidate |
| Selection.DisabledIsNeverPicked | internal/store/repository.go:269-286 | a listing made right after a key is disabled never offers it, and enabling it again restores the table |
| Staleness.DisabledIsNotSelected | internal/upstream/service.go:227-232 | over all runs, as long as nothing enables a disabled key, it is selected only by requests that had listed the keys before |
| Staleness.HolderSelectsDisabled | internal/upstream/service.go:95-103 | such a request still selects the key it would have selected without the edit |
| Staleness.ChosenWhileCoolingIff | internal/upstream/service.go:95-103 | in every run the key a request chooses is cooling at that moment exactly if, since its listing, a failure that met its threshold was recorded on it, followed by no success and no other such failure, and that cooldown has not ended |
| Staleness.CoolingKeyCanBeChosen | internal/upstream/service.go:90-121 | from the empty store there is a run in which a cooling key is chosen, and in which a smaller cooldown_seconds ends its cooldown a minute early |
| Gateway.StepKeeps | internal/store/schema.sql:40-59 | every step of every request, edit and cleanup keeps unique aliases, priorities exactly 1..n, ids below the counters and log references to existing keys |
| Gateway.PrioritiesStayDense | internal/store/repository.go:212-248 | in every state reached from the empty store the priorities are distinct and exactly 1..n, and every logged key exists |
| Gateway.DeleteKeeps | internal/store/repository.go:288-313 | a delete in the running gateway removes one id, renumbers the others and forgets it in the log, nothing else |
| Routing.ChoiceIff | internal/upstream/service.go:90-103 | in every run, whatever happens between listing and choice as long as the keys at the choice are those listed: refused with 503 exactly if each key is disabled or cooling, and otherwise sent to the enabled key of the smallest priority that is not cooling |
| Routing.AskGoesToNext | internal/proxy/forwarder.go:40-80 | with any other requests in flight, a request that comes now is sent to the next key of the moment it chooses, or refused with 503 |
| Routing.CallOutcome | internal/proxy/forwarder.go:102-160 | with any other requests in flight: an answer within 200..299 clears its key's counter, cooldown and error text, a 401 leaves every key alone and is not logged, any other end raises the counter by one; the logged row has that status and success |
| Routing.SuccessIsNext | internal/store/repository.go:389-398 | an enabled key on which a success has just been recorded, with no usable key before it, is where the next request goes |
| Routing.ReplacedOffIsNotSelected | internal/store/repository.go:250-267 | a replace that switches a key off is followed by no selection of it, until something enables it, except by requests that had already listed the keys |
| Forwarders.Forwarder.RecordUpstreamResult | internal/proxy/forwarder.go:155-160 | a 401, an unreadable configuration, a failed write or a missing key leaves the keys alone; otherwise counter, cooldown and error text of the one row are written under the configuration in force |
| Forwarders.Forwarder.SelectKey | internal/upstream/service.go:90-113 | with the table and the clock: 503 exactly if the keys were read and each is disabled or cooling, 500 on any other error, and otherwise the (priority, id)-least usable key |
| Forwarders.Forwarder.Conclude | internal/proxy/forwarder.go:102-152 | the row says success exactly for an answer within 200..299, and has status 504 for a timeout, 502 for another transport error and the upstream status otherwise; the key is marked with that; the client gets the status of the row, or 502 for an unreadable body |
| Forwarders.Forwarder.Forward | internal/proxy/forwarder.go:55-152 | refusals and local aborts mark nothing and log the row given in the contract; a finished call marks its own key, once, and its row says success exactly for an answer within 200..299 |
| Forwarders.Forwarder.Proxy | internal/proxy/forwarder.go:40-153 | one undisturbed call changes the tables exactly as the gateway's steps for one request do; it logs one row unless the status is 401 or the write fails, as a success exactly for an answer within 200..299, with the status codes written out |
| Attribution.ResultsLandWhereSelected | internal/store/repository.go:377-387 | under any interleaving a result, ignored 401, abort or drop is for a key its request selected before and that was created before, each of these happening once |
| Attribution.DeletedStaysDeleted | internal/store/schema.sql:41 | an id that is gone never comes back in any run |
| Attribution.SelectionsAreConserved | internal/proxy/forwarder.go:55-160 | for every key in every run: selections = successes + failures + ignored 401s + local aborts + dropped results + requests in flight |
| History.TrailingIsRun | internal/store/repository.go:399-402 | the counted number is the length of the maximal run of failures at the end, and of no other |
| History.LastArmedMeaning | internal/store/repository.go:400-406 | the summarised time is that of the last failure of the trailing run to meet its threshold, and none exactly if none did |
| History.CountersRefineHistory | internal/store/repository.go:370-432 | in every reachable state, under any interleaving and edits, consecutive_failures is the trailing run of recorded failures and cooldown_until was set by its last failure to meet the threshold it was recorded with; which threshold that is follows in the next rows |
| Readings.ReadingsHold | internal/upstream/service.go:115-121 | in every run each recorded result carries outcome and key of a call that ended before, the threshold and cooldown of the configuration in force when that call ended, and the time of its writing |
| Readings.CountersRefineConfigurations | internal/store/repository.go:370-432 | the history theorem with every threshold and cooldown tied to the configuration in force when the call of that result ended |
| Readings.RecordedAsCurrentIff | internal/store/repository.go:400-406 | a counted failure leaves the key as the configuration in force at the write would, exactly if it meets both thresholds under equal cooldowns, or neither, or only one and the key already has the end that one would set |
| Readings.ReadIsCurrent | internal/upstream/service.go:115-121 | with no configuration saved between the end of a call and the write of its result, that result is recorded under the configuration in force at the write |
| Readings.OldThresholdCanDecide | internal/upstream/service.go:115-121 | from the empty store there is a run in which the threshold goes from 1 to 20 and a key then cools for 120 seconds after a single failure |
| RateBound.CooldownExactIff | internal/upstream/service.go:115-121 | the cooldown that is passed on is the configured one if and only if it is at most 9,223,372,036 seconds |
| RateBound.CooldownWraps | internal/upstream/service.go:115-121 | the cooldown that is passed on is the int64 that equals the configured number of nanoseconds modulo 2^64 |
| RateBound.CooldownCanBeNegative | internal/upstream/service.go:115-121 | a cooldown the schema accepts becomes negative |
| RateBound.WindowBound | internal/store/repository.go:399-417 | results spaced by their cooldowns, of at least C, with thresholds of at most T: at most T + W div C failures within W |
| RateBound.FailureRateBound | internal/upstream/service.go:227-236 | in every run with one request at a time, with any edits around it, a key takes at most T + W div C failures without a success in any window W, when its results were recorded with thresholds of at most T and cooldowns of at least C |
| RateBound.EditKeepsCounters | internal/store/repository.go:250-313 | no administrative edit touches counter or cooldown of a key that stays |
| RateBound.SequentialNeverCooling | internal/upstream/service.go:227-236 | in every run with one request at a time, a key that is called or about to be marked is not cooling |
| Overshoot.StepLowers | internal/store/repository.go:370-432 | failures of a key plus requests that may still hit it never grow while later requests stay away |
| Overshoot.OvershootUntilSelected | internal/proxy/forwarder.go:55-160 | with m requests in flight when a key reaches T, its counter stays at most T + m - 1 until a later request takes the key |
| Overshoot.OvershootWhileCooling | internal/upstream/service.go:90-121 | until the trip's cooldown ends, under parallel results, edits, threshold changes and longer cooldowns, the counter stays at most T + m - 1 and no later request is sent to the key |
| Failover.ServeEffect | internal/proxy/forwarder.go:40-160 | an undisturbed request that fails in a counted way is recorded on the best key of the moment, or on nothing when there is none |
| Failover.TurnIsDiv | internal/store/repository.go:400-406 | counting T failures per key, one key after the other, is division by T: rank k div T with k mod T failures, until all n have had theirs |
| Failover.ServedProgress | internal/store/repository.go:399-417 | after k failures the ranks before the one whose turn it is are all cooling until the first expiry or later, that one has failed as often as its turn says, and the rest are fresh |
| Failover.ExactRouting | internal/upstream/service.go:90-103 | from fresh enabled keys, one request at a time with any pauses between and within requests, before the first cooldown ends: the k-th failing request goes to the key of rank k div T, and from n * T on there is no candidate |
| Failover.ReturnsToFirst | internal/upstream/service.go:227-236 | when the cooldown of the first tripped key has ended, the next failing request goes to that key again, however many keys are fresh, trips it at once, and no request is sent to it for another cooldown |
| LogView.CounterAgreesWithLog | internal/proxy/forwarder.go:71-160 | one request at a time, without cleanup and with every write made, whatever keys are edited or deleted meanwhile: at every moment the rows logged for a key that exists, with the row that the request under way still owes, are its recorded results one for one, and its counter is the trailing run of failed rows |
| LostRows.RowLostIff | internal/store/repository.go:457-479 | in every run and under any interleaving, a written row with a status other than 401 has the time and route of its request's arrival, and is refused exactly if it names a key whose delete committed since then; otherwise exactly this row is appended |
| LostRows.RowCanBeLost | internal/store/schema.sql:84 | from the empty store there is a run that answers a request with 200 and ends with no request in flight and an empty log |
| Retention.CleanupInvisibleIff | internal/jobs/cleanup.go:28-31 | a run with cleanups and the same run without them agree in everything but log rows; statistics of a window agree, and with them every page, exactly if no cleanup found a row of the window old enough to delete, and otherwise the total falls short |
| Retention.CleanupIsInvisible | internal/jobs/cleanup.go:28-31 | if the cleanups read their clocks within 24 hours of the start of a window, every statistics and list query on it is answered as without them, whatever the log holds |
| Retention.QueryAgreesIff | internal/http/admin/router.go:515-520 | a query whose clock is read before its rows is answered as by a store never cleaned exactly if no cleanup in between found a row of its window old enough to delete; earlier cleanups never matter |
| Retention.QueryCanMissRow | internal/metrics/summary.go:34-35 | from the empty store there is a run in which the 24h total is 0 where an uncleaned store has 1 |
| RequestLogs.Get24hStats | internal/store/repository.go:533-545 | successes and failures are the numbers of such rows in the window, and the total is their sum |
| RequestLogs.ListRequestLogs | internal/store/repository.go:481-531 | the page of the rows that meet window, route and result, each as often as it is stored, descending by time and id; 100 rows unless the limit is within 1..500 |
| RequestLogs.TotalIsSum | internal/store/repository.go:533-545 | the total is successes plus failures |
| RequestLogs.StatsCount | internal/store/repository.go:533-545 | the counted successes and failures are those of the window, each counted once |
| RequestLogs.PageAnswers | internal/store/repository.go:481-531 | the page is a stretch of the asked-for rows in descending order, by offset and limit |
| RequestLogs.TotalIsListing | internal/store/repository.go:481-545 | what the total counts is exactly what an unfiltered query lists |
| RequestLogs.MatchingMembers | internal/store/repository.go:490-513 | a row is found if and only if it is in the table and meets window, route and result |
| RequestLogs.PagesTile | internal/store/repository.go:482-489 | turning pages one after the other shows every row once and in order |
| RequestLogs.PagesShowMatches | internal/store/repository.go:481-531 | all pages together are the matching rows, newest first, none twice |
| RequestLogs.SameWindowSameAnswers | internal/store/repository.go:481-545 | tables that agree on the window answer every listing and statistics query on it alike |
| Base64.RoundTrip | internal/auth/session.go:47-95 | decoding gives back every byte string, of every length modulo 3, in both unpadded alphabets |
| Base64.NoSeparators | internal/security/hash.go:35-42 | neither separator occurs in encoded text |
| Base64.LineBreaksIgnored | internal/auth/session.go:61-95 | the decoder ignores line feeds and carriage returns anywhere |
| Base64.ForeignRefused | internal/auth/session.go:61-95 | any character outside the alphabet but a line break makes the text undecodable |
| Base64.EncodedGroup | internal/security/hash.go:35-42 | three bytes become four letters, the first bits first |
| Base64.LettersInOrder | internal/security/hash.go:35-42 | the letters are A to Z, a to z, 0 to 9 and the two of the alphabet, in the order of RFC 4648 |
| Text.SplitJoin | internal/security/hash.go:44-49 | joined parts without the separator come apart again |
| Text.ScanDecimal | internal/security/hash.go:49-62 | a printed number is read back, signs and bounds included, up to the first other character |
| Text.TrimResult | internal/http/admin/router.go:621-622 | trimming takes nothing but spaces, leaves none at either end, and changes nothing the second time |
| Text.TrimBetween | internal/http/admin/router.go:621-622 | spaces around a trimmed text go, and the text stays |
| Sessions.TokenRoundTrip | internal/auth/session.go:47-81 | for every version, time, lifetime and signing function a token decodes to its version and expiry exactly while the clock, in whole seconds, is before the expiry, and is expired from then on |
| Sessions.TokensIdentifySessions | internal/auth/session.go:47-59 | two tokens are the same text if and only if version and expiry agree |
| Sessions.LifetimeBounds | internal/auth/session.go:47-81 | the whole-second lifetime never exceeds the ttl and falls short of it by less than a second |
| Sessions.WrongSignatureRefused | internal/auth/session.go:66-68 | a token with another signature is refused whatever it carries |
| Sessions.OnlySignedAccepted | internal/auth/session.go:61-81 | whatever text is accepted is a payload and its signature joined by one dot, and its session has not expired |
| HashStrings.SixFields | internal/security/hash.go:27-49 | the stored string splits into exactly the six fields it was printed from, for every version and all parameters |
| HashStrings.VerifyHash | internal/security/hash.go:44-72 | checking any value against a stored hash never errs and says yes exactly when the hashes under the stored salt, 64 MiB, one pass, four threads and 32 bytes coincide, so a value verifies against its own |
| HashStrings.VerifyStored | internal/security/hash.go:44-72 | of any stored string only version 19 is accepted, and a value verifies exactly if its hash under the stored salt, parameters and length is the stored one |
| HashStrings.OtherFieldCounts | internal/security/hash.go:44-48 | a string with another number of fields is refused |
| AuthProtocol.AppConfig.BootstrapDownstreamKey | internal/store/repository.go:40-65 | the first key is set with version 1, and a later call changes nothing |
| AuthProtocol.AppConfig.UpdateDownstreamKey | internal/store/repository.go:67-94 | the new key and the next version come into force together |
| AuthProtocol.StepKeeps | internal/http/admin/router.go:104-168 | over all steps of interleaved handlers the version never falls, the hash that came with a version stays, and whoever holds a verified login has shown that version's key; what a handler gets done is in the rows of the outcomes |
| AuthProtocol.LoginOutcome | internal/http/admin/router.go:137-168 | whatever other handlers do between its steps, a login gets a cookie of the version it has read exactly if its password verifies against the hash it has read, and otherwise ends without one |
| AuthProtocol.BootstrapOutcome | internal/http/admin/router.go:104-135 | of the handlers that want to set the first key, one that commits while none is set brings its hash into force with version 1 and gets that cookie, and any other changes nothing |
| AuthProtocol.CheckOutcome | internal/http/admin/router.go:523-546 | a check of an issued cookie that starts before its expiry accepts exactly the version current when it ends; any other check lets nobody in |
| AuthProtocol.CookieWorks | internal/http/admin/router.go:535-543 | from any reachable state, after anything else: a check of an issued cookie that has not expired accepts it exactly if as many resets have committed as its version says |
| AuthProtocol.LoginThenCheck | internal/http/admin/router.go:137-168 | from any reachable state with a key set, the right password gets a cookie that every check before its expiry accepts exactly if no reset has committed since the login read the key |
| AuthProtocol.BootstrapThenCheck | internal/http/admin/router.go:104-135 | likewise the cookie of a bootstrap is accepted before its expiry exactly as long as no reset has committed |
| AuthProtocol.ResetOutcome | internal/http/admin/router.go:283-313 | an authorized handler that resets brings the hash it asked for into force with the next version, whatever others do meanwhile |
| AuthProtocol.VersionsOnlyGrow | internal/store/repository.go:67-94 | in every run the version never decreases and no version changes its key |
| AuthProtocol.BootstrapOnce | internal/store/repository.go:48-55 | in every run bootstrap succeeds at most once |
| AuthProtocol.ResetInvalidates | internal/http/admin/router.go:523-546 | no cookie issued before a reset is accepted after it, in any run |
| AuthProtocol.PendingLoginsAreStale | internal/http/admin/router.go:137-168 | a login or bootstrap under way when a reset commits ends with a version that no later state has |
| AuthProtocol.VersionsVouchForOneKey | internal/http/admin/router.go:149-166 | all holders of cookies of one version have shown a password that one and the same hash verifies |
| AuthProtocol.ChecksAreExact | internal/http/admin/router.go:535-543 | a check accepts if and only if the cookie carries the version made by all resets so far |
| AuthProtocol.OutdatedResetIff | internal/http/admin/router.go:523-546 | in every run a reset commits for a handler that passed the check, and under a cookie no longer current exactly if another reset committed between that check and this commit |
| AuthProtocol.OutdatedResetHappens | internal/http/admin/router.go:283-313 | before any key is set there starts a run in which two handlers pass the check with one cookie and both resets commit, the second under a cookie that the first has outdated |
| ModelRewrite.DecodesIff | internal/http/public/router.go:138-146 | reading the model fails exactly if some field of that name, in any letter case, is neither text nor null |
| ModelRewrite.NamesModelIff | internal/http/public/router.go:138-146 | a field names the model exactly if it reads model in any mixture of small and capital letters |
| ModelRewrite.ModelIsLastText | internal/http/public/router.go:138-146 | the model is the last text under any spelling of the name, nulls aside, and empty if there is none |
| ModelRewrite.LastOneWins | internal/http/public/router.go:162-173 | of equal keys the decoded map keeps the last |
| ModelRewrite.SmallLettersLast | internal/http/public/router.go:162-173 | of all spellings of a name the one in small letters is written last |
| ModelRewrite.MarshalRoundTrip | internal/http/public/router.go:162-173 | a map written with ascending keys and read back is the same map |
| ModelRewrite.RewriteThenRead | internal/http/public/router.go:138-173 | a rewritten body keeps the last value of every other field, and its model reads as the trimmed target whatever other spellings it has |
| ModelRewrite.RewritingNeverFails | internal/http/public/router.go:148-160 | no request fails over a redirect: bodies without a model, among them null, pass unchanged, so the nil map is never written |
| ModelRewrite.ReplaceReadsBackIff | internal/http/public/router.go:162-173 | for any object, after replacing the model reads as the trimmed target exactly if no other spelling of the name ends with a value of another type, or the target is blank |
| ModelRewrite.NormalizeModelRedirects | internal/http/admin/router.go:617-636 | accepted exactly if all trimmed names are non-empty and all trimmed downstream names differ; the result is the trimmed list in order, the error that of the first fault |
| ModelRewrite.RedirectTable.ReplaceModelRedirects | internal/store/repository.go:146-168 | the table becomes the given redirects, or stays as it was exactly if two share a downstream model |
| ModelRewrite.RedirectTable.Rewrite | internal/http/public/router.go:148-173 | called with the body's own model the lookup and the map rewrite never fail; a redirected body keeps its other fields and reads as the trimmed target, any other body passes unchanged |
| ModelRewrite.RedirectTakesEffect | internal/http/admin/router.go:269-274 | once saved, a request for the trimmed downstream model of an input goes out with its trimmed upstream model |
| ModelRewrite.OtherModelsPass | internal/http/public/router.go:148-160 | a request for any model without redirect goes out as it came |
| Headers.CanonicalTwice | internal/proxy/headers.go:38-41 | canonical names are stable |
| Headers.RemoveConnectionTokens | internal/proxy/headers.go:43-49 | the nested loops delete exactly the canonical forms of all listed, trimmed names |
| Headers.ListedNames | internal/proxy/headers.go:43-49 | a Connection header lists the names between its commas, without the spaces around them and in canonical form |
| Headers.CopyHeaders | internal/proxy/headers.go:20-30 | for any iteration order the destination ends with old values followed by arriving ones, minus the listed names |
| Headers.CopyResult | internal/proxy/headers.go:20-49 | from canonical keys every header ends, whatever the order, as old values plus source values, without hop-by-hop and Connection-listed names (section 7.6.1 of RFC 9110) |
| Headers.OrderIndependentIff | internal/proxy/headers.go:20-30 | copying is independent of the iteration order exactly if any two source keys of one end-to-end name that Connection does not list have values that read the same joined either way |
| Headers.OrderIndependent | internal/proxy/headers.go:21-28 | two iteration orders over the same canonical source end in the same headers |
| Headers.OrderShows | internal/proxy/headers.go:21-28 | a source built by hand with two spellings of one name shows its iteration order in the values |
| Headers.StripAuthHeaders | internal/proxy/headers.go:32-36 | both credential headers are gone and nothing else is |
| Headers.ApplyUpstreamAuth | internal/proxy/forwarder.go:170-177 | one credential header is set by mode, replacing what was there |
| Headers.BuildUpstreamHeaders | internal/proxy/forwarder.go:98-100 | the upstream request has exactly one credential, X-Api-Key with the key or Authorization with Bearer and the key, whatever the client sent or listed in Connection, and otherwise the client's headers without the nine hop-by-hop names and the listed ones |

## Left out

- HTTP serving, middleware, sockets, proxies and dialers: an upstream call is an outcome (transport, stream or read error, or an answer with a status).
- Rows that the public router logs for requests it refuses before `Proxy`, such as a missing downstream key: they name no key and are not steps of the gateway.
- The log columns method, model, request id, latency, tokens, client address and user agent, and the failure text. The model's rows carry an origin tag that tells local aborts from upstream results, which the table cannot always do: an upstream 500 whose error message is `build_upstream_request` is logged like the abort of that name (internal/proxy/forwarder.go:91-97, 146-149).
- Balance columns and their refresh, key hints, `created_at` and `updated_at`: no other step reads them.
- Truncation of error summaries, path joining and token extraction: single-function string facts.
- SQLite itself and its date texts: transactions are atomic, times are numbers, and a failed statement rolls back.
- The width of ids, priorities and counters: they are unbounded here; the multiplication for the cooldown is modelled with its wrap-around.
- HMAC, SHA-256, argon2 and AES-GCM: arbitrary functions, of which the model uses only the output length of argon2. That nobody but the server signs a session is an assumption of `AuthProtocol`: only issued cookies reach a check.
- Stored hash strings with zero time or threads, on which argon2 itself panics: the server never writes one.
- JSON beyond what is needed: a session payload is read in the form the server writes; a request body is its list of top-level fields, with every other value kept as text.
- `Sscanf` accepts blanks and signs in places the server never writes them.
- `ListModelRedirects` and the page handlers of the administration: they only read.
- Saving the configuration reads, merges and writes without a transaction; the write is one atomic step here, and the merge of a form with the columns read before is not modelled.
- The two commits of a saved form, configuration first and redirects second, are not one transaction; each is modelled by itself.
- Errors of the configuration read, the decryption and the parsing of the base URL in `Select`: one flag of the gateway's Choose step, because they are treated alike.
- Overshoot.OvershootWhileCooling: needs the cooldown not to be made shorter, because a failure under a shorter one can end it earlier, as `Staleness.CoolingKeyCanBeChosen` shows.
