# Verified model of the V2bX node back end

A Dafny model of the stateful parts of the node back end, with proofs about whole runs and
unbounded inputs. `dafny verify dfyconfig.toml` checks everything.

| module (file) | models |
|---|---|
| `ConnLimits`, `ConnHistory` | the connection limiter: per-user connection counts and online addresses, and what every run of it keeps |
| `Limits`, `LimiterHistory` | the node limiter: speed buckets, dynamic limits, the device limit |
| `EntryHistory`, `DeviceHistory`, `SessionHistory` | whole runs of the node limiter told from their history: entries and rates, devices, sessions |
| `Json5Lexer`, `Json5Filter`, `Json5Meaning`, `Json5Bytes` | the comment and trailing-comma filter: a pure lexer, the in-place scanner, the meaning on token level, and the rules by byte values |
| `Users`, `UserSync`, `NaiveInbound`, `Traffic` | comparing user lists, keeping controller, core and limiter in step, the naive inbound, the traffic counters |
| `OnlinePayload` | the two ways an online-user payload is built |
| `Sniffing`, `CachedReading` | the shrinking sniffer list and the look-ahead reader |
| `Xhttp` | the XHTTP settings rewrite |
| `PeriodicTask` | the periodic runner as interleaved steps |
| `Text`, `Ordering`, `Int64` | string order, decimal numbers, separators, sorting, wrap-around |

Code that updates an object is a class whose methods are proved against functions on its state;
the run-level theorems are about those functions. Loops over Go maps pick keys in any order.

## What the proofs found

- `AddConnCount` raises the connection count before the address check and never lowers it when that
  check refuses. The leaked attempts are counted exactly (`ConnectionsAreConserved`), and a realtime
  user with no session open is locked out, for good, if and only if they reach the limit
  (`LeaksLockUsersOutIff`, reached by `LeaksHappen`). Outside realtime mode closes are ignored, so
  there the connection limit bounds admissions over the whole run.
- A TCP attempt that `AddConnCount` lets through and `CheckLimit` then refuses, as an unknown user's or
  for the device limit, is never closed: its count and its address stay for good
  (`CountIsOpenLeakedAndStranded`, `StrandedAddressStays`). One attempt made before the panel adds the
  user can lock the user out (`EarlyAttemptLocksOut`).
- With the address limit at zero in realtime mode, closes never reach the address table
  (`PackedCountIsOpenSessions` states both cases in one formula).
- A block comment is blanked properly if and only if every star in its body is followed, inside the
  body, by a space (`BlockCommentIsBlankedIff`): the byte after a star is never examined.
- Filtering twice equals filtering once if and only if no comma is separated only by space and
  comments from a trailing comma (`FilterIsIdempotentIff`).
- The report and the synchronisation of the same online users agree if and only if no address carries
  the IPv4-mapped prefix three times (`PathsAgreeIff`).
- The added users of a comparison are exactly the new ones if and only if no old record is repeated in
  the new list (`AddedIsNewIff`).
- Synchronising by differences equals a rebuild except for the users that a check dropped from the
  limiter because their dynamic limit had expired and they have no base limit: exactly those are
  missing (`IncrementalSyncEqualsRebuild`), and it happens (`ExpiryDropsAUser`).
- A failing call to the core leaves the core's table ahead of the controller's list; the next cycle
  repairs it exactly under the condition of `FailedCycleIsRepairedIff`.
- It is not true that no timer is armed between a Close and the next Start: a Start that comes while an
  earlier call is past `hasClosed` leads to two timers, of which Close stops one
  (`CloseCanLeaveATimerArmed`). From any state, no Close before the next Start can leave a timer armed if
  and only if no armed timer is forgotten and, while running, at most one call or timer is outstanding
  (`CloseStaysSafeIff`); and that holds throughout a run if and only if every Start that takes effect
  finds no timer armed and no call that may still arm one (`CloseAlwaysDisarmsIff`).

## Model

| member | source | states |
|---|---|---|
| `ConnLimits.ConnLimiter.AddConnCount` | limiter/conn.go:28-100 | refuses exactly over the connection limit or, for a new address, over the address limit; the new tables in every case, the count kept raised when the address check refuses |
| `ConnLimits.ConnLimiter.RaiseCount` | limiter/conn.go:29-44 | the first half: whether the connection limit is reached, and the count it leaves |
| `ConnLimits.ConnLimiter.RecordAddress` | limiter/conn.go:45-99 | the second half: whether the address limit is reached, and the address table it leaves |
| `ConnLimits.ConnLimiter.DelConnCount` | limiter/conn.go:103-132 | closes one session in realtime mode: count and packed number go down, empty entries go away, with the early returns |
| `ConnLimits.ConnLimiter.ClearOnlineIP` | limiter/conn.go:135-164 | in any walking order keeps exactly the addresses that are not packet-only and not older than five minutes, and no empty table |
| `ConnLimits.ConnLimiter.ReachesLimit` | limiter/conn.go:74-82 | the early-stopping walk says whether the table already has as many addresses as the limit |
| `ConnLimits.ConnLimiter.Sweep` | limiter/conn.go:139-159 | one user's table swept in any order, and the not-deleted flag means something was left |
| `ConnLimits.ClearTwiceIsClearOnce` | limiter/conn.go:135-164 | cleaning twice at one moment is cleaning once |
| `ConnHistory.PackedCountIsOpenSessions` | limiter/conn.go:28-132 | over every realtime run with matched closes the stored number is twice the open sessions, plus one exactly when packet traffic opened the entry; an absent entry has no open session; with the address limit off it counts all sessions ever admitted |
| `ConnHistory.CleanupKeepsOpenSessions` | limiter/conn.go:135-164 | the clean-up leaves the entry of an address with an open session as it is |
| `ConnHistory.CleanupLeavesSessions` | limiter/conn.go:135-164 | right after a realtime clean-up the tracked addresses are exactly those with a session |
| `ConnHistory.ConnectionsAreConserved` | limiter/conn.go:28-44 | over every run the count is open sessions plus leaked attempts, stored exactly when positive, and within a positive limit; outside realtime mode it counts every admitted session |
| `ConnHistory.OverConnLimitIff` | limiter/conn.go:29-35 | in every matched run a user is over the limit if and only if open sessions and leaked attempts together reach it |
| `ConnHistory.LeaksLockUsersOutIff` | limiter/conn.go:72-87 | a realtime user with no session open is over the limit if and only if its leaked attempts reach it, and is then refused everywhere in every continuation |
| `ConnHistory.LeaksHappen` | limiter/conn.go:72-87 | a run of two attempts that locks a user out with no session open |
| `ConnHistory.AddressTablesAreBounded` | limiter/conn.go:57-98 | in every run a tracked user has at least one address and at most the address limit |
| `ConnHistory.RefusedIff` | limiter/conn.go:28-87 | in every run an attempt is refused if and only if the counted connections have reached the limit, or the address is new and the user tracks exactly as many as the address limit |
| `ConnHistory.WindowHolds` | limiter/conn.go:45-99 | outside realtime mode a tracked pair carries its latest admission, an untracked one was last admitted more than five minutes before the latest clock reading |
| `ConnHistory.CleanupLeavesTheWindow` | limiter/conn.go:135-164 | right after a clean-up the tracked pairs are exactly those admitted within the last five minutes, for any history |
| `Limits.Limiter.constructor` | limiter/limiter.go:63-96 | the limiter of a node that starts with a user list |
| `Limits.Limiter.UpdateUser` | limiter/limiter.go:114-137 | drops the deleted users from every table, then stores fresh entries for the added ones |
| `Limits.Limiter.UpdateDynamicSpeedLimit` | limiter/limiter.go:139-150 | sets limit and end of a known user and drops its bucket; reports an unknown one |
| `Limits.Limiter.CheckLimit` | limiter/limiter.go:176-252 | the new state and the reply of a check in every branch, changes of a refused check included |
| `Limits.Limiter.CheckDevice` | limiter/limiter.go:206-235 | the device window after a check, where an address is stored first and taken out when refused |
| `Limits.Limiter.SnapshotOnlineUsers` | limiter/limiter.go:254-300 | lists each tracked user and normalised address once, whatever the walking order |
| `Limits.Limiter.GetOnlineDevice` | limiter/limiter.go:302-323 | the same list; every address of the online window is remembered for a user it was online for, and what was remembered before keeps its user |
| `Limits.Limiter.GetOnlineIPMap` | limiter/limiter.go:325-332 | the same users grouped by id, each address once per user and no user without addresses |
| `LimiterHistory.DetermineIsLeastNonZero` | limiter/dynamic.go:20-38 | for non-negative limits the limit asked for is the least non-zero one of node, user and unexpired dynamic limit |
| `LimiterHistory.RateIsExactIff` | limiter/limiter.go:237 | the rate is 125000 times the limit if and only if the 64-bit product does not overflow |
| `LimiterHistory.RateTruncates` | limiter/limiter.go:237 | in general the rate is the 64-bit product divided by eight, rounded towards zero |
| `LimiterHistory.RunsKeepCacheSound` | limiter/limiter.go:237-251 | in every run a cached bucket has the rate it is filed under and an identity already given out |
| `LimiterHistory.AdmittedRate` | limiter/limiter.go:237-251 | while the cache is sound, an admitted check gives no bucket exactly when no limit is in force, else one at 125000 times the least |
| `LimiterHistory.AdmittedRateIsEntitled` | limiter/limiter.go:184-252 | after any run an admitted check gives no bucket exactly when no limit is in force, else one at 125000 times the least |
| `LimiterHistory.BucketLivesUntilDisturbed` | limiter/limiter.go:114-150 | a bucket stays cached until a deletion, a dynamic update or a check at another rate, and is then never given out again |
| `LimiterHistory.SameBucketIffUndisturbed` | limiter/limiter.go:238-251 | two admitted checks return the same bucket object if and only if nothing disturbed it in between and the rate is the same |
| `LimiterHistory.AdmittedDeviceStaysAdmitted` | limiter/limiter.go:206-235 | an address the device limit let in is not turned away by it again until a report or the user's deletion |
| `EntryHistory.EntryTellsItsHistory` | limiter/limiter.go:74-205 | over every run a user has an entry exactly when the panel lists it and no check dropped it since, and the entry says the latest record and the latest dynamic limit given since, or none once a check found it over |
| `EntryHistory.LapseNeedsADynamicLimit` | limiter/limiter.go:188-199 | nobody is dropped without a dynamic limit given since the panel put it, ending in an earlier second than the check |
| `EntryHistory.AdmittedRateByHistory` | limiter/limiter.go:184-252 | with the clock never running back, an admitted check gives no bucket exactly when the history puts no limit in force, else one at 125000 times the least of the node's, the panel's and the dynamic limit |
| `DeviceHistory.CheckRefusesIff` | limiter/limiter.go:176-235 | a check refuses if and only if a connection or address limit is reached, the user is unknown, or the device limit is reached by an address neither in the window nor, as its first, in the last report |
| `DeviceHistory.OnlineIsLetIn` | limiter/limiter.go:206-235 | in every run an address is in the window exactly when a check let it in since the last report and the user's last deletion |
| `DeviceHistory.DeviceRefusedIff` | limiter/limiter.go:206-235 | so the device limit refuses exactly the addresses not let in since, while the panel counts enough devices |
| `DeviceHistory.RememberedIsUsedUp` | limiter/limiter.go:218-222 | the first address of a window is taken off the last report, if it was there under the same id |
| `DeviceHistory.DeletionForgetsDevices` | limiter/limiter.go:115-121 | the panel's device count goes with a deleted user and only then |
| `DeviceHistory.RememberedForItsUser` | limiter/limiter.go:305-320 | an address the window has for one user only is remembered for that user |
| `DeviceHistory.OthersAreRememberedAsBefore` | limiter/limiter.go:305-320 | any other remembered address keeps its user |
| `SessionHistory.CountedIsOpenOrStranded` | limiter/limiter.go:176-232 | over every run whose closes end sessions a check admitted, what the connection limiter takes for open is the open sessions and the attempts refused after being counted |
| `SessionHistory.CountIsOpenLeakedAndStranded` | limiter/limiter.go:180-232 | over every such run the connection count is open sessions plus address leaks plus attempts refused after being counted |
| `SessionHistory.PackedIsOpenAndStranded` | limiter/limiter.go:180-232 | over every such realtime run the stored number is twice the open and the refused-after-counting sessions, plus zero or one |
| `SessionHistory.StrandedAddressStays` | limiter/conn.go:135-164 | the address of such an attempt stays tracked through every clean-up and close |
| `SessionHistory.LockedOutIff` | limiter/limiter.go:180-182 | a realtime user with no session open is over the limit if and only if its leaked and refused-after-counting attempts reach it |
| `SessionHistory.OpenSessionIsOnline` | limiter/limiter.go:254-300 | a known user with an open session is listed online at its address |
| `SessionHistory.OnlineIsTracked` | limiter/limiter.go:254-300 | whoever is listed is a known user with an id, at a tracked address, normalised and not empty |
| `SessionHistory.EarlyAttemptLocksOut` | limiter/limiter.go:203-205 | a run in which an attempt before the panel adds the user has every later check of that user refused |
| `Json5Lexer.LexOnlyBlanks` | common/json5/json5.go:13-93 | on any byte string each byte is kept or becomes a space; the length is kept |
| `Json5Filter.ConsumeComment` | common/json5/json5.go:21-47 | blanks one comment and leaves the scan where lexing goes on, or leaves a stray slash alone |
| `Json5Filter.TrimComma` | common/json5/json5.go:73-87 | blanks the comma at hand exactly when it is the last before a bracket, and what was looked past |
| `Json5Filter.SkipString` | common/json5/json5.go:60-70 | passes a string literal with its escapes |
| `Json5Filter.Prep` | common/json5/json5.go:49-93 | the in-place scan equals the pure lexer on every byte string, in bounds and terminating |
| `Json5Meaning.LexIsCleaning` | common/json5/json5.go:49-93 | on every well-formed commented text exactly the comments and trailing commas become spaces |
| `Json5Meaning.BlockCommentIsBlankedIff` | common/json5/json5.go:28-45 | a block comment is blanked and left if and only if each star of its body is followed by a space |
| `Json5Meaning.FilterIsIdempotentIff` | common/json5/json5.go:73-87 | filtering twice is filtering once if and only if no commas are stacked before a bracket |
| `Json5Meaning.JsonIsUntouched` | common/json5/json5.go:95-97 | plain JSON (RFC 8259, sections 2, 4, 5 and 7) passes through unchanged |
| `Json5Bytes.TrailingCommaGoes` | common/json5/json5.go:73-87 | byte 44 followed by bytes 9, 10, 13 or 32 and then 93 or 125 becomes byte 32 |
| `Json5Bytes.OtherCommaStays` | common/json5/json5.go:73-87 | it stays when anything else follows the space, slashes apart, or nothing |
| `Json5Bytes.LineCommentGoes` | common/json5/json5.go:21-27 | bytes 47, 47 up to byte 10 or 13 become bytes 32 |
| `Json5Bytes.BlockCommentGoes` | common/json5/json5.go:28-45 | bytes 47, 42 to 42, 47, with no 42 between, become bytes 32 |
| `Json5Bytes.StringStays` | common/json5/json5.go:60-70 | from byte 34 to the next that no byte 92 takes with it, nothing changes |
| `Json5Bytes.OtherByteStays` | common/json5/json5.go:58-90 | any other byte stays |
| `Users.CompareKeyIsInjective` | node/user.go:219-221 | two records have the same key exactly when they are equal, bars in uuids included |
| `Users.CompareUserList` | node/user.go:223-244 | deleted is old without new, each record once, in any order; added is the new list's records that are not old or come again |
| `Users.AddedIsNewIff` | node/user.go:230-237 | added is exactly new without old if and only if no old record is repeated in the new list |
| `UserSync.TagIsJoined` | common/format/user.go:7-9 | a user's key is the tag, a bar and the uuid |
| `UserSync.DiffOfTables` | core/sing/naive.go:47-77 | deleting and adding the difference of two lists turns the table of one into that of the other |
| `UserSync.FailedCycleIsRepairedIff` | node/task.go:267-292 | after a cycle whose last core call failed, the next one repairs the core's table exactly under the stated condition on the three lists |
| `UserSync.SyncKeepsStep` | node/task.go:258-316 | a synchronisation keeps list, core table and limiter tables in step |
| `UserSync.EntryExpiresAwayIff` | limiter/limiter.go:188-205 | outside synchronisations an entry goes away if and only if a check that passes the connection limiter finds its dynamic limit expired and no base limit; else its terms are kept |
| `UserSync.OtherKeepsStep` | limiter/limiter.go:188-205 | every other limiter step keeps them in step, up to users so dropped |
| `UserSync.DroppedIff` | limiter/limiter.go:192-199 | a user counts as dropped if and only if some check dropped it and no later synchronisation added or deleted it |
| `UserSync.IncrementalSyncEqualsRebuild` | node/task.go:258-316 | after any run the views are those of a node freshly started with the latest list, and the users missing from the limiter are exactly those dropped by a check that found their dynamic limit expired and no base limit |
| `UserSync.ExpiryDropsAUser` | limiter/limiter.go:192-199 | a run that drops a user the panel still lists |
| `UserSync.DroppedUsersAreRefused` | limiter/limiter.go:192-205 | a dropped user is refused by every check and stays dropped |
| `UserSync.Controller.MonitorUsers` | node/task.go:258-316 | one cycle with an unchanged node: the new list, core table, limiter and traffic counters, what a failing core call leaves, other tags untouched and inbounds still in agreement |
| `UserSync.Controller.SpeedChecker` | node/task.go:319-339 | exactly the users over the threshold get the dynamic limit, and their counters are consumed |
| `UserSync.DynamicsHave` | node/task.go:324-337 | applying the limit to a list changes those users' entries and buckets and no others |
| `NaiveInbound.NaiveCore.AddNaiveUsers` | core/sing/naive.go:47-63 | the user table after an addition, also when rebuilding fails; success leaves the tag in agreement |
| `NaiveInbound.NaiveCore.DelNaiveUsers` | core/sing/naive.go:65-77 | the same for a deletion |
| `NaiveInbound.NaiveCore.ApplyNaiveInbound` | core/sing/naive.go:79-111 | after success the inbound exists exactly when the table is not empty, with its credentials, whatever was there before |
| `NaiveInbound.NaiveCore.AddNaiveNode` | core/sing/naive.go:21-30 | a fresh tag starts in agreement |
| `NaiveInbound.NaiveCore.DelNode` | core/sing/node.go:484-499 | exactly when removing a node succeeds, what it leaves, and that the rest stays in agreement |
| `NaiveInbound.BuildNaiveAuthUsers` | core/sing/naive.go:113-128 | one credential per uuid, strictly sorted |
| `NaiveInbound.CredentialsAreUnique` | core/sing/naive.go:113-128 | credentials depend on the set of uuids alone |
| `NaiveInbound.CredentialsAreUuids` | core/sing/naive.go:113-128 | each uuid is name and password of one credential, in the order of names |
| `NaiveInbound.NaiveCore.AgreementSays` | core/sing/naive.go:79-111 | a tag in agreement has an inbound exactly when it has users, with one credential for each uuid |
| `Traffic.TrafficTable.AddTraffic` | node/controller.go:138-150 | adds positive amounts in 64-bit arithmetic and ignores others |
| `Traffic.TrafficTable.ConsumeDynamicSpeedLimitUsers` | node/controller.go:159-181 | returns exactly the users at or above the threshold, once each, and removes them; nothing when limiting is off |
| `Traffic.ConsumeConserves` | node/controller.go:172-178 | returned and remaining traffic add up to what there was, and what remains is below the threshold |
| `Traffic.CounterIsWindowSum` | node/controller.go:131-181 | over any run a counter exists exactly when something was added since the last consume that took it, delete or reset, and is the 64-bit sum of it; a consume takes it exactly when that sum meets the threshold |
| `Int64.WrapIsTheRepresentative` | node/controller.go:138-150 | 64-bit arithmetic gives the one number in range that differs by a multiple of 2 to the 64th |
| `OnlinePayload.DedupeOnlineUsersByIP` | node/user.go:157-184 | strictly increasing by id and address, with the set of non-empty normalised pairs |
| `OnlinePayload.CanonicalListIsUnique` | node/user.go:177-183 | the result depends on that set alone |
| `OnlinePayload.NormalizeStripsOnePrefix` | common/netutil/ip.go:6-8 | "::ffff:" in front of an address goes, and an address without it stays |
| `OnlinePayload.ListGoesByIdThenAddress` | node/user.go:177-183 | the list goes by id, and within an id by address |
| `Text.BeforeIff` | node/user.go:177-183 | one string is before another when it is a proper prefix, or smaller at the first difference |
| `OnlinePayload.DedupeOnlineIPMapByIP` | node/user.go:186-217 | no user without addresses, each list strictly increasing, with the set of non-empty normalised pairs |
| `OnlinePayload.CanonicalMapIsUnique` | node/user.go:213-216 | two canonical maps are equal exactly when their sets of pairs are |
| `OnlinePayload.BuildOnlineIPPayload` | node/user.go:246-255 | the canonical payload of a list of users |
| `OnlinePayload.BuildOnlineIPMapPayload` | node/user.go:257-271 | the canonical payload of a map, empty for a nil map |
| `OnlinePayload.NoCount` | node/user.go:41-50 | the users left out of a report are those with a record of too little traffic, and only on the panel that asks for it |
| `OnlinePayload.LeavesOutIff` | node/user.go:41-50 | short of overflow, left out are users with a record of less than a thousand times the setting |
| `OnlinePayload.ReportPayload` | node/user.go:36-56 | the payload of a report: normalised twice, without the users left out for little traffic |
| `OnlinePayload.SyncPayload` | node/user.go:123-134 | the payload of a synchronisation: normalised three times |
| `OnlinePayload.PathsAgreeIff` | node/user.go:118-134 | both paths send the same payload for the same online users if and only if no address has the prefix three times |
| `Sniffing.Sniffer.Sniff` | core/xray/app/dispatcher/sniffer.go:58-82 | the first hit among the applicable sniffers, else no clue with the list cut to the undecided ones, else unknown content |
| `Sniffing.Sniffer.SniffMetadata` | core/xray/app/dispatcher/sniffer.go:84-109 | the same for metadata sniffers, keeping content sniffers |
| `Sniffing.AnswerIs` | core/xray/app/dispatcher/sniffer.go:58-82 | an attempt finds what the first content sniffer of the network that recognises the payload finds, else has no clue while one is unsure; only then the list shrinks, to the unsure ones |
| `Sniffing.MetaAnswerIs` | core/xray/app/dispatcher/sniffer.go:84-109 | the same for metadata sniffers, with content sniffers always left |
| `Sniffing.IncrementalEqualsFull` | core/xray/app/dispatcher/sniffer.go:58-82 | when failures are final, every attempt with the shrinking list answers what the full list would |
| `Sniffing.RemainingIsSubsequence` | core/xray/app/dispatcher/sniffer.go:76-79 | the list left is an order-preserving part of the list before |
| `Sniffing.MetadataKeepsContents` | core/xray/app/dispatcher/sniffer.go:84-109 | metadata sniffing drops no content sniffer |
| `Sniffing.MetadataChangesNoAnswer` | core/xray/app/dispatcher/sniffer.go:84-109 | so it changes no later answer |
| `CachedReading.CachedReader.Cache` | core/xray/app/dispatcher/default.go:42-63 | does the look-ahead step with what the source returned, and makes the payload the whole cache; a failed read changes nothing |
| `CachedReading.CachedReader.ReadMultiBuffer` | core/xray/app/dispatcher/default.go:65-94 | does the read step and hands out the cache, or else what the source returned |
| `CachedReading.LookAheadLosesNothing` | core/xray/app/dispatcher/default.go:42-94 | for any interleaving of look-aheads and reads, failed ones included, delivered, cached and unread bytes are the stream |
| `CachedReading.PayloadsExtend` | core/xray/app/dispatcher/default.go:48-61 | until a read, look-aheads extend the payload by exactly what they took off the stream, in order |
| `CachedReading.SeenComesFirst` | core/xray/app/dispatcher/default.go:65-94 | the first read after look-aheads hands out exactly what they saw and leaves nothing cached |
| `CachedReading.SniffContent` | core/xray/app/dispatcher/default.go:517-543 | keeps the stream; when failures are final, the result is the verdict of the full list on the first of at most two attempts that decides |
| `CachedReading.SniffConnection` | core/xray/app/dispatcher/default.go:505-552 | metadata and content together: which answer, or composite, comes out, with the content judged by the list as it was before the metadata pass |
| `CachedReading.CombinedSays` | core/xray/app/dispatcher/default.go:546-552 | recognised metadata gives the domain and recognised content the protocol; an error is left only when metadata was not recognised |
| `CachedReading.FullBufferEndsIt` | core/xray/app/dispatcher/default.go:539-541 | a payload that fills its buffer unrecognised is unknown content at once |
| `CachedReading.RecognisedAtOnce` | core/xray/app/dispatcher/default.go:533-538 | any other answer than no clue ends the sniffing with that answer |
| `CachedReading.NoClueGoesOn` | core/xray/app/dispatcher/default.go:517-543 | with room left and no clue, no attempt settles the content |
| `Xhttp.HeadersArrayToMap` | core/xray/inbound.go:423-446 | the header object of an array |
| `Xhttp.FirstStringDecides` | core/xray/inbound.go:448-458 | of the accepted keys the first that holds a string gives the text, trimmed |
| `Xhttp.HeaderObjectIsRead` | core/xray/inbound.go:427-432 | a header object is named by "name", "key" or "header" and valued by "value", "val" or "v", in this order |
| `Xhttp.OtherElementsAreNoHeaders` | core/xray/inbound.go:433-443 | a string without a colon, or anything else, is no header |
| `Xhttp.SpacesAreWhiteSpace` | core/xray/inbound.go:453 | the characters trimmed, by number |
| `Xhttp.TrimSpaceTrims` | core/xray/inbound.go:453 | trimming takes space, and only space, off both ends and leaves none there |
| `Xhttp.HeaderLineIsCut` | core/xray/inbound.go:433-443 | a header line is cut at its first colon, and both halves are trimmed |
| `Xhttp.LastHeaderWins` | core/xray/inbound.go:423-446 | the last element naming a header gives its value |
| `Xhttp.HeadersComeFromElements` | core/xray/inbound.go:423-446 | a header comes from an element that names it, and is a string |
| `Xhttp.NormalizeValue` | core/xray/inbound.go:396-421 | the rewrite does not depend on the order in which fields are visited |
| `Xhttp.NormalizedIsInForm` | core/xray/inbound.go:396-421 | no array stands under a listed key, in any letter case, at any depth |
| `Xhttp.OtherPathsAreKept` | core/xray/inbound.go:396-421 | a path that avoids arrays under listed keys leads to the same value, or a container of the same kind, before and after, and exists after exactly when it did before |
| `Xhttp.ListedIff` | core/xray/inbound.go:401-412 | the listed keys are these six names in any letter case, and no others |
| `Xhttp.ListedArraysAreReplaced` | core/xray/inbound.go:402-410 | an array under a listed key, wherever it stands, becomes its header object under "headers" and an empty object under the others |
| `Xhttp.StreamOneIff` | core/xray/inbound.go:380-381 | the mode is "stream-one" in any letter case and with space around it, and nothing else |
| `Xhttp.OtherModesKeepDownload` | core/xray/inbound.go:381-391 | download settings go, at the top and under "extra", in this mode only |
| `Xhttp.CompatClears` | core/xray/inbound.go:374-394 | no forbidden download settings are left; a tree with none is unchanged, and any other loses those settings and nothing else |
| `Xhttp.NormalizeReachesItsFixedPoint` | core/xray/inbound.go:364-365 | both steps together are idempotent, and the identity exactly on trees already in form |
| `Xhttp.NormalizeSettings` | core/xray/inbound.go:355-372 | the two steps in sequence compute the rewrite these results are about |
| `PeriodicTask.Task.Begin` | common/task/task.go:51-58 | the first section of Start |
| `PeriodicTask.Task.HasClosed` | common/task/task.go:20-30 | the test before the mutex is taken again |
| `PeriodicTask.Task.Lock` | common/task/task.go:32-34 | the section up to Execute |
| `PeriodicTask.Task.Unlock` | common/task/task.go:35-47 | the section after Execute: stop on an error, arm a timer while running |
| `PeriodicTask.Task.StopAfterError` | common/task/task.go:59-64 | a failed Start clears the flag once more |
| `PeriodicTask.Task.Shut` | common/task/task.go:69-78 | Close stops the remembered timer |
| `PeriodicTask.OneExecuteAtATime` | common/task/task.go:32-35 | in every interleaving at most one Execute runs, and Close waits for it |
| `PeriodicTask.ExecuteSawRunning` | common/task/task.go:27-35 | every call that executes saw the flag set at its own test |
| `PeriodicTask.ExecutesIffAsked` | common/task/task.go:27-51 | in every run an outstanding call is to execute if and only if a firing timer made it or its Start asked for it |
| `PeriodicTask.AcquireExecutesIff` | common/task/task.go:32-35 | a call past its test that takes the mutex begins an Execute exactly in that case |
| `PeriodicTask.PeriodExecutesOnce` | common/task/task.go:27-47 | a firing timer of a running task leads to exactly one Execute, then to the next timer, or to a stop when it fails |
| `PeriodicTask.StoppedTaskWindsDown` | common/task/task.go:27-47 | from a stop to the next Start no timer is armed anew and at most as many Executes begin as calls were past the test |
| `PeriodicTask.CloseStaysSafeIff` | common/task/task.go:69-78 | from any state, no Close before the next Start can leave a timer armed if and only if every armed timer is the remembered one and, while running, at most one call or timer leads to a next one |
| `PeriodicTask.CloseAlwaysDisarmsIff` | common/task/task.go:51-78 | that is so throughout a run if and only if every Start that takes effect finds no timer armed and no call that may still arm one |
| `PeriodicTask.NoTimerUntilTheNextStart` | common/task/task.go:51-78 | after such a run no timer is armed from a Close to the next Start |
| `PeriodicTask.CloseCanLeaveATimerArmed` | common/task/task.go:43-45 | a run in which Close leaves a timer armed |

## Left out

- Atomicity of `sync.Map` load-then-store pairs: each limiter method is one step here.
- PeriodicTask.Task.HasClosed: interleavings are steps of a state machine; Go's memory model and the scheduler are not modelled.
- Execute bodies that call Start or Close on their own runner: the mutex is not reentrant, so they never return. The changed-node branch of `nodeInfoMonitor` does this when the pull interval changes.
- The changed-node branch of `nodeInfoMonitor`, and the cores other than the naive inbound of sing.
- Json5Filter.Prep: the reader it drains and the read error it passes on are not modelled; the text is an array.
- CachedReading.CachedReader.Cache: pooled buffers and `Interrupt` are not modelled; the capacity of a grown payload is a parameter.
- Xhttp.NormalizeValue: trees are values, so two parents sharing one object are not captured; reading and writing JSON text is not modelled, and numbers are opaque.
- Limits.Limiter.CheckLimit: a bucket is an identity and a rate; token timing is not modelled. The field `OverLimit`, which only core/hy2 sets and reads, is left out.
- Limits.Limiter.constructor: the global registry of limiters by tag is not modelled.
- `AddDynamicSpeedLimit` in limiter/dynamic.go, which no other code calls.
- NaiveInbound.NaiveCore.ApplyNaiveInbound: building inbound options is reduced to whether it fails; node info and options are not stored.
- Limits.Limiter.GetOnlineDevice: which user an address shared by several users is remembered for is left open, as the walking order decides it.
- Panel client, JSON decoding, certificates, file watching, logging, commands and system status: input and output.
- Getters, interval clamping, rule lists and the core selector: easy members only.
