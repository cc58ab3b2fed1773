# parsedmarc: a Dafny model

parsedmarc fetches DMARC and SMTP TLS reports, parses them and writes them to configured outputs. This project models
the parts of it that keep state or do exact arithmetic, and proves what they promise:

- **Mailbox** (`MailboxSpec`, `MailboxRuns`, `Mailbox`): one check of a report mailbox. Messages are parsed one by one
  or by a worker pool, classified and deduplicated; a save callback is asked; the batch is committed or held back with
  a bounded number of retries. `MailboxSpec` gives the rounds and calls as functions, `Mailbox` the loops over mutable
  lists, maps and folders that refine them, `MailboxRuns` what every round, call and run keeps.
- **ParallelMap**: the generator that maps a function over a lazy job source with a bounded submission window.
- **Reload**: building and closing output clients, the process-wide search aliases, and the transactional reload of the
  configuration with its snapshots and rollback, over heap objects that are open or closed.
- **DayBuckets**: cutting a report's interval into calendar days and apportioning its count by largest remainders.
- **Utf8Repair**: scanning for bad UTF-8 bytes and repairing them one by one, line by line.
- **Archive**, **LegacyMigration**, **IndexNames**, **SampleNames**: claiming names in a shared archive, migrating a
  legacy index through crashes, the index names saves and migrations use, and file names for failure samples.
  `Numbering` holds what these share about numbered names.

Loops and objects that update their fields are methods and classes. Each such method is proved against a function or
predicate on values; the lemmas are about those, and the main methods also state what they leave behind field by
field. What the outside world decides -- what a message parses to, what a callback answers, which requests a server
refuses, where a crash or an interrupt lands, how threads interleave -- is a parameter, so that the theorems hold for
all of it. Dafny 4.11 checks the project with `dafny verify dfyconfig.toml`.

Three findings come with exact conditions and failing inputs. The dedup key joins name and id with an underscore, so
two different reports can share a key; `KeysCollideExactlyWhen` says which, `CollidingReportIsDropped` shows for every
such pair the second one put away without ever being in a batch, and `OwnReportsExactlyWhen` says that the runs drawn
from a set of reports are free of this if and only if no two of them collide. If parsing raises something other than a
parser error, the two parsing branches can leave different mailboxes; `BranchesAgreeExactlyWhen` says when they agree,
and `BranchesCanDisagree` gives a fetch after which they do not. A `-v2` index holding documents that its long-mapped
original lacks loses them, because the code takes any existing target for the debris of an interrupted attempt
(parsedmarc/elastic.py:809-819); `CompletedKeepsExactlyDebris` says when nothing is lost, and `DocumentsCanBeLost`
gives a pair of indexes for which something is. The recursive mailbox call passes no batch size
(parsedmarc/__init__.py:3252-3268), so it falls back to the default of 10 and a call makes at most two rounds.

## Model

| member | source | states |
|---|---|---|
| Mailbox.BatchLists.ClassifyParsedEmail | parsedmarc/__init__.py:2415-2473 | an aggregate report is appended and its key staged unless the key is in the cache or already staged; failure and SMTP TLS reports are always appended; nothing else changes |
| Mailbox.BatchLists.Take | parsedmarc/__init__.py:3027-3040 | classifying a message extends the report lists, the staged keys and exactly the id list of the report's own kind |
| Mailbox.Checker.DisposeInvalidMessages | parsedmarc/__init__.py:3042-3049 | the parallel branch disposes of invalid messages in order; the first refusal by the server ends the call with exactly the earlier ones disposed of |
| Mailbox.Checker.ParseSequentially | parsedmarc/__init__.py:3050-3082 | the sequential loop ends as the specification says after any mix of reports, parser errors, refusals and other exceptions |
| Mailbox.Checker.SortInParallel | parsedmarc/__init__.py:2998-3040 | the worker-pool loop classifies every message under its own id: the head of the queue of fetched ids always belongs to the next result |
| Mailbox.Checker.ConsumeOne | parsedmarc/__init__.py:3019-3040 | one iteration pops the id of the message whose result is in hand, sorts the result under it and asks for the next; another exception ends the loop |
| Mailbox.HeadIsNext | parsedmarc/__init__.py:3000-3022 | as long as the pool has not stopped, its next result is the parse of the message at the head of the queue of fetched ids |
| Mailbox.Checker.ParseInParallel | parsedmarc/__init__.py:2987-3049 | the parallel branch as a whole ends as its specification says |
| Mailbox.Checker.CommitBatch | parsedmarc/__init__.py:3115-3123 | a saved batch: exactly the staged keys enter the cache; outside test mode its counters go and each message moves to its type folder or is deleted unless the server refuses |
| Mailbox.Checker.CountAttempts | parsedmarc/__init__.py:3132-3140 | each held-back message counts one more attempt; the over-cap list is exactly the messages whose new count exceeds the cap |
| Mailbox.Checker.HoldBatch | parsedmarc/__init__.py:3124-3170 | an unsaved batch: over-cap messages the server lets go move to Unsaved and lose their counter, all others stay with the counter raised; the cache is untouched |
| Mailbox.Checker.PutAway | parsedmarc/__init__.py:3179-3229 | messages of one kind are deleted or moved one by one; a refusal is skipped and leaves its message in place |
| Mailbox.Checker.CheckOnce | parsedmarc/__init__.py:2974-3229 | one fetch refines the round specification for every batch, callback answer and set of refused moves, history included; unless parsing is aborted it adds one entry, saved exactly when there is no callback or the callback says so, and returns the reports it was given followed by the entry's, list by list, or raises when the callback did |
| Mailbox.Checker.GetReports | parsedmarc/__init__.py:2860-3270 | invalid arguments change nothing; otherwise a call is one round, and a second one over new mail exactly when the first was saved, no batch size is set, it is no test and mail arrived; each of the three lists it returns is that list of the batches it made, put together in order |
| MailboxRuns.ClassificationAccounts | parsedmarc/__init__.py:2451-2473 | staged keys are exactly the keys of the batch's aggregate reports, pairwise distinct and disjoint from the cache; every parsed message is listed under its kind and its report, or one with its key, is in the batch or the cache |
| MailboxRuns.ListedMessagesParse | parsedmarc/__init__.py:3027-3040 | an id is listed under a kind only if a message with that id parsed to a report of that kind |
| MailboxRuns.BatchIsWhatParsed | parsedmarc/__init__.py:2451-2473 | the batch's reports of one kind are, in the order of the messages and none twice, all failure or SMTP TLS reports that parsed; of the aggregate reports, exactly those whose key neither the cache nor an earlier message of the fetch has |
| MailboxRuns.RoundReturns | parsedmarc/__init__.py:3097-3236 | a round is aborted without an entry or adds one; what it returns, kind by kind, is what it was given followed by the reports of that entry |
| MailboxRuns.CallReturns | parsedmarc/__init__.py:2860-3270 | each list a call returns is the concatenation of that list over the batches of the one or two rounds it made, and the conditions of the second round are exactly those |
| MailboxRuns.AbortsExactlyWhen | parsedmarc/__init__.py:3042-3082 | parsing ends early if and only if something other than a parser error is raised, or outside test mode the server refuses to dispose of an unparseable message |
| MailboxRuns.TestTouchesNothing | parsedmarc/__init__.py:3042-3229 | in test mode no message moves and no counter changes |
| MailboxRuns.BatchSizeDecides | parsedmarc/__init__.py:2974-2985 | with a batch size and no start time exactly the first that many messages are worked on and all later ones are left alone; otherwise every message meets its fate |
| MailboxRuns.SecondRoundFetches | parsedmarc/__init__.py:3240-3268 | the second round works on all new messages if the mailbox keeps time, otherwise on the first ten |
| MailboxRuns.BranchesAgree | parsedmarc/__init__.py:2987-3082 | without other exceptions the sequential and the parallel branch end in the same mailbox, finish alike, and when they finish produce the same batch, id lists and staged keys |
| MailboxRuns.BranchesAgreeExactlyWhen | parsedmarc/__init__.py:2987-3082 | with other exceptions allowed they leave the same mailbox if and only if there is none, in test mode, or the sequential branch disposes of nothing before the first one |
| MailboxRuns.BranchesCanDisagree | parsedmarc/__init__.py:2987-3082 | a concrete fetch, an unparseable message followed by one whose parse raises something else, after which the two branches leave different mailboxes and the condition fails |
| MailboxRuns.RoundIndependentOfWorkers | parsedmarc/__init__.py:2987-3229 | when parsing raises nothing but parser errors, changing the number of workers changes nothing about a round: mailbox, cache, counters, history, result |
| MailboxRuns.CallIndependentOfWorkers | parsedmarc/__init__.py:2860-3270 | the same, under the same condition, for a whole call with its possible second round |
| MailboxRuns.RoundKeepsInvariant | parsedmarc/__init__.py:3094-3170 | one round keeps: the cache is the keys of all committed aggregate reports, those keys are distinct, every counter is its message's current streak of unsaved batches |
| MailboxRuns.EveryRunKeepsInvariant | parsedmarc/__init__.py:2860-3270 | the invariant holds after every run of calls from an empty cache, whatever happens to the mailbox in between |
| MailboxRuns.CommittedKeysAreDistinct | parsedmarc/__init__.py:3115-3120 | over all committed batches of any run each aggregate key occurs at most once |
| MailboxRuns.CounterIsStreak | parsedmarc/__init__.py:3121-3170 | after any run a message's counter is the number of unsaved batches containing it since its last committed batch or move to Unsaved |
| MailboxRuns.RoundDecidesFates | parsedmarc/__init__.py:3094-3229 | a valid message leaves the reports folder for its type folder or deletion only if its report (for aggregates its key) is in a committed batch; unsaved, it stays or is shelved past the cap and is never deleted; aborted, in test mode or refused, it stays |
| MailboxRuns.EveryCallRespectsFates | parsedmarc/__init__.py:2860-3270 | those fates hold in both rounds of any call after any run |
| MailboxRuns.RoundDisposesOfInvalid | parsedmarc/__init__.py:2504-2527 | a completed round outside test mode leaves no unparseable message in the reports folder: deleted or in Invalid, as configured |
| MailboxRuns.OthersUntouched | parsedmarc/__init__.py:3111-3229 | messages a round did not fetch keep folder and counter |
| MailboxRuns.RoundBoundsStreaks | parsedmarc/__init__.py:3132-3170 | when the moves to Unsaved that a round makes succeed -- other moves and deletions may fail -- it keeps every streak within the cap and shelves a message exactly at its (cap + 1)-st unsaved batch in a row |
| MailboxRuns.RetriesAreBounded | parsedmarc/__init__.py:3124-3170 | so over any run with one cap in which moves to Unsaved succeed no counter ever exceeds the cap, whatever else the server refuses |
| MailboxRuns.RetryMakesSameBatch | parsedmarc/__init__.py:3094-3123 | an unsaved or aborted round leaves the cache as it was, so the same messages with the same parses make the same batch, ids and staged keys again |
| MailboxRuns.KeysCollideExactlyWhen | parsedmarc/__init__.py:2452-2454 | two reports share a dedup key if and only if name and id agree, or shifting an underscore-separated piece between them makes them agree |
| MailboxRuns.CollidingReportIsDropped | parsedmarc/__init__.py:2451-2463 | for every pair of reports with one key but different names or ids, outside test mode: once the first is saved, the message with the second leaves the reports folder, put away or deleted, and still only the first report is committed |
| MailboxRuns.OwnReportIsCommitted | parsedmarc/__init__.py:2451-2463 | as long as no two aggregate reports of a run collide, a message with an aggregate report is put away or deleted only if a report with its own name and id is committed, in either round of any call |
| MailboxRuns.OwnReportsExactlyWhen | parsedmarc/__init__.py:2451-2463 | the exact condition, for any set of reports and any accepted settings outside test mode: all runs drawn from the set put away only messages whose own report is committed if and only if no two of its aggregate reports collide |
| ParallelMap.JobSource.Pull | parsedmarc/__init__.py:3007-3017 | the lazy producer hands out the next job, queues its id and notes the pull in the trace; after the last it hands out nothing |
| ParallelMap.Pool.Prime | parsedmarc/parallel.py:161-170 | priming submits jobs in order until the window is full or the jobs run out, never more |
| ParallelMap.Pool.Harvest | parsedmarc/parallel.py:172-184 | the oldest job's result is yielded and the rest of the window keeps its order; each timeout sends one heartbeat |
| ParallelMap.Pool.Shutdown | parsedmarc/parallel.py:186-191 | a stop keeps exactly the jobs that were not cancelled, in order, and submits nothing more |
| ParallelMap.Pool.WindowBound | parsedmarc/parallel.py:104-109 | between a refill and the next result, the jobs pulled and not yet yielded fit into the window |
| ParallelMap.Pool.Next | parsedmarc/parallel.py:172-197 | each resumption yields the function of the next delivered job or ends; when it yields, the jobs it has pulled exceed the results yielded before by no more than the window size, and every timeout of the wait sent one heartbeat unless the pool is draining |
| ParallelMap.Pool.DeliveredInOrder | parsedmarc/parallel.py:111-113 | until a stop the k-th result belongs to the k-th job and the window is the jobs pulled after it |
| ParallelMap.Pool.FinalDelivery | parsedmarc/parallel.py:138-197 | what an exhausted pool has delivered: all jobs, or after a stop the prefix and the surviving rest of the window |
| ParallelMap.SurvivorsKeepOrder | parsedmarc/parallel.py:186-191 | what survives a cancellation is a subsequence of the window that lacks exactly the cancelled positions |
| ParallelMap.StopsAfterStep | parsedmarc/parallel.py:186-187 | the first affirmative answer of the consumer decides when the run stops, whatever it would answer later |
| ParallelMap.Collect | parsedmarc/parallel.py:138-197 | the consumer receives the function mapped over what was delivered, and the pool stopped exactly at the first affirmative answer |
| ParallelMap.Run | parsedmarc/parallel.py:92-199 | for all jobs, workers, window factors, stops, cancellations and timeouts: an error exactly when there are no workers; without a stop the function of every job, in order; with one, the first results in order up to the first affirmative answer and less than a window more, which are the survivors; at no point of the trace of pulls and yields are more jobs pulled than yielded by more than the window size |
| ParallelMap.ResultsUntilStop | parsedmarc/parallel.py:172-197 | a consumer that first asks to stop after k results receives the first k jobs' results and fewer than a window size more |
| ParallelMap.WindowSize | parsedmarc/parallel.py:154-154 | the window is the factor times the workers, but at least one job |
| Reload.SearchHandle.Close | parsedmarc/cli.py:1537-1559 | the connection is closed and the alias given up only while it still names that connection |
| Reload.CloseOutputClients | parsedmarc/cli.py:2290-2307 | uninterrupted, every entry is closed, the dictionary is empty and exactly the aliases its handles own are released; interrupted at any close, only owned aliases were released and nothing was reopened; nothing is allocated |
| Reload.SearchAliasSnapshot | parsedmarc/cli.py:1703-1754 | one entry per installed backend with the client its alias names, and the serverless flag for Elasticsearch |
| Reload.SnapshotCovers | parsedmarc/cli.py:1726-1754 | every installed backend has an entry, which records what its alias named |
| Reload.RestoreOne | parsedmarc/cli.py:1785-1815 | one backend: the flag and the alias are put back in any case; a client that had taken the alias over is closed when its close works and left open when that close is interrupted |
| Reload.RestoredIsBefore | parsedmarc/cli.py:1785-1815 | restoring every entry brings the aliases at snapshot time back whatever the registry has become |
| Reload.RestoreSearchAliases | parsedmarc/cli.py:1757-1815 | aliases and flag are as at the snapshot whichever closes work, the newcomer of every backend whose close works is closed, and no other client is touched |
| Reload.SetHosts | parsedmarc/elastic.py:620-639 | the flag is assigned first; if no client comes about, alias and dictionary are as they were, otherwise exactly this alias names the one new client; a later failure leaves that client reachable through the alias alone |
| Reload.BuildOutputClients | parsedmarc/cli.py:1872-2206 | stopped at any step, every client the call constructed, none excepted, is open and in the dictionary or holds an alias; completed, every configured output is there and every search alias is owned by its handle |
| Reload.EntriesAreSteps | parsedmarc/cli.py:1872-2206 | a completely built dictionary has one output for each step that makes one and no other, in the order of the steps, each of its step's kind |
| Reload.LastElasticDecides | parsedmarc/elastic.py:620-639 | the serverless flag is that of the last Elasticsearch step, or unchanged if there is none |
| Reload.InitOutputClients | parsedmarc/cli.py:2242-2287 | all or nothing at every failure point: on failure aliases and flag are as on entry even if the teardown is interrupted, and older clients are never touched; when the teardown runs to its end, every client constructed during the call is closed, except at most the one that a failing step had registered, if its own close is interrupted |
| Reload.EverythingInDict | parsedmarc/cli.py:2245-2248 | after a complete build every client built is in the dictionary |
| Reload.OnlyNewAliases | parsedmarc/cli.py:4018-4023 | after the replaced clients are closed every alias left is owned by the new dictionary |
| Reload.UtilsGlobals.LoadPslOverrides | parsedmarc/utils.py:104-132 | the one shared list is refilled in place; a failing read leaves it changed |
| Reload.UtilsGlobals.LoadReverseDnsMap | parsedmarc/utils.py:963-1019 | the overrides are replaced first; only when that worked is the map it was handed cleared and refilled, and a failing read leaves it with what was read |
| Reload.UtilsGlobals.ConfigureIpinfoApi | parsedmarc/utils.py:706-718 | the token is assigned before the probe that may raise |
| Reload.UtilsGlobals.Restore | parsedmarc/cli.py:1855-1869 | the three globals are as at the snapshot, the overrides in the same list object |
| Reload.Watcher.Stage | parsedmarc/cli.py:3713-3829 | phase 1 succeeds exactly when every step does; otherwise it leaves new clients and loader state for the rollback and nothing else; all clients and log handlers it constructed are handed on |
| Reload.WhatReloadsDo | parsedmarc/cli.py:3713-3829 | the specification of a reload spelled out step by step: when it succeeds, and every part of the configuration it then installs |
| Reload.Watcher.Rollback | parsedmarc/cli.py:3834-3932 | from any state phase 1 can leave: aliases, flag and loader globals restored, every new client and the staged log handler closed |
| Reload.Watcher.Commit | parsedmarc/cli.py:3959-3973 | options, clients, tenant map and watch parameters are the new ones; the shared reverse DNS map is refilled in place |
| Reload.Watcher.SwitchLog | parsedmarc/cli.py:3984-4014 | a changed log file closes every old handler and attaches the staged one; an unchanged one keeps them |
| Reload.Watcher.Retire | parsedmarc/cli.py:4018-4023 | the replaced clients are closed without taking an alias from the new ones |
| Reload.Watcher.Reload | parsedmarc/cli.py:3697-4025 | a reload succeeds if and only if the configuration loads, no build step fails, the values convert, a changed log file opens and none of the loaders raises; then options, tenant map, watch parameters, log file, reverse DNS map, loader globals, flag and clients are the new ones and the old clients are closed; otherwise each of them, the aliases and the log handlers are as they were; every client and log handler constructed during it is in use or closed |
| Reload.RunReloads | parsedmarc/cli.py:3697-4025 | after any number of reloads every alias names an open client owned by the current dictionary, every other client constructed during them or before is closed, likewise for log handlers, and the configuration is what the successful reloads add up to |
| Reload.FailedReloadsLeaveNoTrace | parsedmarc/cli.py:3834-3935 | removing from a run exactly the reloads that fail in their turn changes nothing: the run ends in the same configuration and every remaining reload still succeeds |
| Reload.Start | parsedmarc/cli.py:3095-3170 | startup succeeds if and only if no build step fails and then yields a process with the options, tenant map and watch parameters it was given, meeting the invariant that accounts for every client constructed; a log file that does not open is no failure; otherwise no alias is left and every client it constructed is closed |
| Reload.Watcher.Shutdown | parsedmarc/cli.py:4027-4030 | after the final close every client the process accounts for is closed and no alias is set |
| Reload.RunProcess | parsedmarc/cli.py:3697-4030 | over a whole process, from startup through any number of reloads to the final close, every client that was ever constructed is closed at the end and no alias is set |
| DayBuckets.DayOverlaps | parsedmarc/__init__.py:359-389 | the loop terminates with non-empty contiguous pieces from begin to end, cut at exactly the midnights inside the interval |
| DayBuckets.OneMoreDay | parsedmarc/__init__.py:370-389 | one iteration extends a tiling by one day and never appends an empty piece |
| DayBuckets.TilingIsUnique | parsedmarc/__init__.py:347-389 | only one list of pieces tiles an interval that way |
| DayBuckets.InnerDaysAreWhole | parsedmarc/__init__.py:359-389 | every piece but the first and the last is 24 hours long |
| DayBuckets.TileIsDay | parsedmarc/__init__.py:370-389 | a piece begins at the interval's begin or a midnight, ends at its end or a midnight, and has none inside |
| DayBuckets.TilesLengths | parsedmarc/__init__.py:378-387 | the overlaps are positive and add up to the interval |
| DayBuckets.SortDescending | parsedmarc/__init__.py:410-415 | the index order is a permutation, descending by fraction, stable among equals |
| DayBuckets.RemainderFits | parsedmarc/__init__.py:407-408 | what is left after flooring is at least 0 and less than the number of buckets |
| DayBuckets.AddOnes | parsedmarc/__init__.py:417-422 | exactly the first remainder indices of the order gain one, in place |
| DayBuckets.Apportion | parsedmarc/__init__.py:400-422 | the counts are the largest-remainder apportionment: floors or floors plus one, extras by descending fraction with earlier buckets first, total preserved |
| DayBuckets.ApportionmentIsUnique | parsedmarc/__init__.py:400-422 | no other counts meet that description |
| DayBuckets.ExtraOnlyForFractions | parsedmarc/__init__.py:410-422 | a bucket with an integral share never gets the extra one |
| DayBuckets.QuotaRule | parsedmarc/__init__.py:400-422 | every count is strictly within one of its exact share and equal to it when the share is integral |
| DayBuckets.OrderPreserved | parsedmarc/__init__.py:404-422 | a longer overlap never gets fewer, and of two equal overlaps the earlier never gets fewer |
| DayBuckets.NonEmptyBuckets | parsedmarc/__init__.py:424-436 | the final loop keeps the days that got a positive count, in order |
| DayBuckets.KeptExactly | parsedmarc/__init__.py:424-436 | the buckets are exactly the days with a positive count, in order, each with its own bounds and its own count |
| DayBuckets.BucketIntervalByDay | parsedmarc/__init__.py:330-436 | which inputs are errors, which give no buckets, and for all others the bucketing the specification pins down |
| DayBuckets.BucketsConserveCount | parsedmarc/__init__.py:424-436 | bucket counts are positive and add up to the total; buckets are in order, disjoint, inside the interval and each inside one day |
| DayBuckets.BucketingIsUnique | parsedmarc/__init__.py:347-436 | the buckets depend on nothing but interval and count |
| DayBuckets.AppendParsedRecord | parsedmarc/__init__.py:439-480 | not normalized, the record itself is appended, marked so, with the report's begin and end in whole seconds and nothing else changed; normalized, the record is left alone and one fresh copy per bucket is appended that differs in count, mark and interval only, which are the bucket's; a count that is not a number or negative, or an interval that ends before it begins, is an error that appends nothing |
| DayBuckets.PartsConserve | parsedmarc/__init__.py:466-480 | the copies' counts are positive and add up to the record's; their intervals are those of days of the record's interval, in whole seconds, in order, begin before end and within the record's own; every other field is the record's |
| DayBuckets.DroppedExactlyWhenEmpty | parsedmarc/__init__.py:466-470 | a normalized record disappears if and only if its count is 0 or its interval is empty |
| Utf8Repair.DecodeThenEncode | parsedmarc/resources/maps/find_bad_utf8.py:30-33 | decoding a well-formed sequence (section 4 of RFC 3629) and encoding the code point gives the sequence back |
| Utf8Repair.EncodeThenDecode | parsedmarc/resources/maps/find_bad_utf8.py:309-310 | encoding a code point gives one well-formed sequence that decodes to it |
| Utf8Repair.EncodingKeepsOrder | parsedmarc/resources/maps/find_bad_utf8.py:309-310 | of two code points the smaller has the encoding that comes first byte by byte; together with the two round trips this leaves one decoder |
| Utf8Repair.SegmentsCoverInput | parsedmarc/resources/maps/find_bad_utf8.py:199-247 | the greedy left-to-right reading loses no byte, and each good piece is a well-formed sequence kept whole |
| Utf8Repair.BadSegmentsAreBadPositions | parsedmarc/resources/maps/find_bad_utf8.py:212-213 | one fix replaces one byte: the bad pieces are exactly the bytes at the bad positions, in order |
| Utf8Repair.FirstBadPosition | parsedmarc/resources/maps/find_bad_utf8.py:34-37 | the first bad position is where a strict decode fails, and reading goes on one byte later |
| Utf8Repair.PrefixDecodes | parsedmarc/resources/maps/find_bad_utf8.py:206-210 | the text before the first error decodes strictly, to the same text |
| Utf8Repair.ScanLine | parsedmarc/resources/maps/find_bad_utf8.py:20-57 | one error per bad position of the line, with line number, column, offset, byte, and as many bytes of context on either side as asked for or as the line has |
| Utf8Repair.DecodeOneByte | parsedmarc/resources/maps/find_bad_utf8.py:215-228 | the text is what the first codec of the chain that can decode the byte makes of it, with that codec's index; if none can, the code point of the byte's value |
| Utf8Repair.FallbackIsFirstWorking | parsedmarc/resources/maps/find_bad_utf8.py:215-228 | the specified fallback, which the repair of whole files is stated with, is that text and no other |
| Utf8Repair.RepairLine | parsedmarc/resources/maps/find_bad_utf8.py:189-249 | the repairer terminates with the specified repair of the line and one fix per bad position, whose replacement is what the first working codec makes of the byte, or its code point |
| Utf8Repair.RepairFromFirstError | parsedmarc/resources/maps/find_bad_utf8.py:199-247 | a repair is the valid prefix, the replacement of one byte, and the repair of what follows |
| Utf8Repair.RepairOfValidIsIdentity | parsedmarc/resources/maps/find_bad_utf8.py:269-272 | a string is valid if and only if it has no bad position, and then repair changes no byte |
| Utf8Repair.SecondRepairIsNoOp | parsedmarc/resources/maps/find_bad_utf8.py:189-249 | repairing the re-encoded result again makes no fix and gives the same text |
| Utf8Repair.IterLinesWithOffsets | parsedmarc/resources/maps/find_bad_utf8.py:171-181 | the pieces end at exactly the line feeds and each knows its offset |
| Utf8Repair.LinesConcatenate | parsedmarc/resources/maps/find_bad_utf8.py:171-181 | the pieces put together are the file |
| Utf8Repair.LineOffsets | parsedmarc/resources/maps/find_bad_utf8.py:171-181 | a piece's offset is the total length of the pieces before it |
| Utf8Repair.LineSplitIsUnique | parsedmarc/resources/maps/find_bad_utf8.py:64-86 | only one list of pieces splits a file that way, so reading by lines yields the same ones |
| Utf8Repair.RepairAfterLineFeed | parsedmarc/resources/maps/find_bad_utf8.py:267-284 | text after a line feed is repaired as if it stood alone |
| Utf8Repair.BadPositionsAfterLineFeed | parsedmarc/resources/maps/find_bad_utf8.py:64-86 | and its bad positions are found as if it stood alone, counted from where it starts |
| Utf8Repair.LineByLineIsWholeFile | parsedmarc/resources/maps/find_bad_utf8.py:267-304 | concatenated line repairs are the repair of the whole byte string, and the lines' bad positions are the file's |
| Utf8Repair.LineInFile | parsedmarc/resources/maps/find_bad_utf8.py:268-282 | every byte of the k-th line is at line k, its own column and offset of the file |
| Utf8Repair.NumbersCount | parsedmarc/resources/maps/find_bad_utf8.py:171-181 | a line number is one more than the line feeds before the byte, a column one more than the bytes since the last of them |
| Utf8Repair.TargetedFix | parsedmarc/resources/maps/find_bad_utf8.py:267-304 | with unlimited fixes the loop returns the whole-file repair and, for each bad position of the file, one fix that is truly located and whose replacement is what the first working codec makes of the byte, or its code point if none works |
| Utf8Repair.ScanFile | parsedmarc/resources/maps/find_bad_utf8.py:64-86 | without a limit the scanner reports every bad position of the file, each with its true line, column, offset and byte |
| Archive.CandidatesAreDistinct | parsedmarc/cli.py:425-440 | the names tried for a file are pairwise distinct whatever its own name looks like |
| Archive.CandidateShape | parsedmarc/cli.py:425-440 | the number goes before the last suffix, a dot preceded by something other than dots, or to the end of a name without one |
| Archive.Disk.Claim | parsedmarc/cli.py:427-443 | the claim loop terminates at the first candidate that does not exist and adds only that placeholder |
| Archive.Disk.MoveToArchive | parsedmarc/cli.py:399-455 | on success the content moves to the claimed name and nothing else changes; on failure, which a missing source always is, the sources stay and at most the claimed name is left behind |
| Archive.StepIsSafe | parsedmarc/cli.py:430-454 | one step of one of many concurrent archivers, of the same or different sources, keeps: older files untouched; every new file belongs to exactly one archiver; each content is at its source or, once the source is gone, archived by exactly one of its archivers; an archiver's file holds nothing whole but its own source's content |
| Archive.EveryScheduleIsSafe | parsedmarc/cli.py:430-454 | the same after every interleaving: no older or archived file is overwritten, no content is lost, and no two archivers both succeed with one source |
| Archive.WholeCopiesAreOwned | parsedmarc/cli.py:445-454 | every whole copy in the archive that was not there at first lies under a name of exactly one archiver, which has archived it, has copied but not yet unlinked, has just failed, or gave up and could not clean up; it is that archiver's own source's content |
| Archive.LeftoverCanStay | parsedmarc/cli.py:445-454 | a concrete race of two archivers of one file after which the archive holds its content twice and the source is gone, because the first one failed after copying and could not clean up |
| Archive.ArchivedStays | parsedmarc/cli.py:445-455 | an archived file is never overwritten or removed for the rest of any schedule |
| Archive.EveryScheduleIsExplained | parsedmarc/cli.py:430-443 | after every interleaving each name an archiver was refused was there at first or was claimed by an archiver |
| Archive.ClaimingIsBounded | parsedmarc/cli.py:428-441 | so no archiver is ever refused more often than there are older files and other archivers |
| LegacyMigration.Cluster.MigrateOne | parsedmarc/elastic.py:780-829 | one attempt under any fault leaves the cluster after exactly the changes the specification allows, and a caught error is not a crash; an index that is missing or not mapped as long is left alone whatever goes wrong, and without a fault one that is mapped so is replaced by a text-mapped copy with all its documents |
| LegacyMigration.Cluster.MigrateIndexes | parsedmarc/elastic.py:778-829 | the loop goes on after a caught error and stops when the process dies |
| LegacyMigration.DiscardComesFirst | parsedmarc/elastic.py:814-823 | once a leftover target is discarded an attempt goes as if there had been none |
| LegacyMigration.OriginalUntilCopied | parsedmarc/elastic.py:809-823 | the original is untouched until it is deleted, and by then the target is its complete copy |
| LegacyMigration.OthersUntouched | parsedmarc/elastic.py:779-829 | an attempt touches one index and its target only |
| LegacyMigration.AttemptKeepsDocuments | parsedmarc/elastic.py:809-823 | however an attempt ends, the documents in original and target together are the same, if the target held only copies |
| LegacyMigration.CompletedKeepsExactlyDebris | parsedmarc/elastic.py:809-819 | an undisturbed attempt keeps them if and only if every document of an existing target is also in the original waiting for migration |
| LegacyMigration.DocumentsCanBeLost | parsedmarc/elastic.py:809-819 | a concrete pair of indexes, a target with a document and a long-mapped original without it, where the condition fails and the document is lost |
| LegacyMigration.EveryRunKeepsDocuments | parsedmarc/elastic.py:779-829 | if every existing target of an index waiting for migration holds only copies of that index's documents, and none of the indexes is the target of another, then over every run of calls that fail or die anywhere no document of any pair is lost or invented and every other index stays |
| LegacyMigration.CallCompletesAll | parsedmarc/elastic.py:779-829 | an undisturbed call replaces each of its indexes that is mapped as long by its complete text-mapped -v2 copy, debris or not, and leaves every other one and its -v2 index as they were |
| LegacyMigration.CallMigrates | parsedmarc/elastic.py:779-829 | errors that are caught do not stop the loop: every long-mapped index visited without a fault of its own is migrated, whatever goes wrong with the others; indexes not mapped as long and their targets stay |
| LegacyMigration.DeathEndsTheCall | parsedmarc/elastic.py:779-829 | a fault that kills the process ends the loop: an index that is neither visited before nor a target of one that was is untouched |
| LegacyMigration.RunKeepsPair | parsedmarc/elastic.py:779-829 | over every run an index mapped otherwise and its target are as they were, and a long-mapped one is intact until its target is its complete copy |
| LegacyMigration.LegacyNamesAre | parsedmarc/cli.py:2093-2098 | the names passed are the prefixed aggregate name with the suffix, if there is one, and without |
| LegacyMigration.LegacyNamesAreSeparate | parsedmarc/cli.py:2093-2098 | no configured suffix or prefix makes one of the names passed the target of another |
| LegacyMigration.DeploymentMigratesSafely | parsedmarc/cli.py:2089-2127 | for every suffix and prefix and every history of interrupted starts, one undisturbed start leaves each index that was mapped as long replaced by its complete copy and every other one with its -v2 index as it was; if moreover every existing target of a long-mapped index holds only copies of its documents, every document is in place and all other indexes are unchanged |
| IndexNames.NormalizedPrefixShape | parsedmarc/cli.py:1624-1625 | a tenant prefix is its key without exactly the whitespace around it and then exactly the underscores around the rest, in lower case and with underscores for spaces and hyphens, plus one underscore; no capital A to Z, space or hyphen is left |
| IndexNames.AsciiBlanks | parsedmarc/cli.py:1624-1624 | which ASCII characters count as whitespace there |
| IndexNames.StripCutsEnds | parsedmarc/cli.py:1624-1624 | stripping cuts both ends as far as every character is to be dropped and no further |
| IndexNames.UnprefixedExactlyWhen | parsedmarc/cli.py:2348-2370 | a report is saved without a prefix if and only if none is configured and no tenant lists its base domain |
| IndexNames.TenantPrefixIsFirstMatch | parsedmarc/cli.py:2366-2370 | a prefix is found if and only if some tenant lists the domain, and it is the first such tenant's |
| IndexNames.SavedUnderFirstTenant | parsedmarc/cli.py:2348-2370 | an aggregate report is about its policy's domain, a failure report about the reported one, an SMTP TLS report about its first policy's; it is saved under the prefix of the first tenant that lists the lower-cased base domain |
| IndexNames.SavedWithoutTenant | parsedmarc/cli.py:2352-2370 | a configured prefix is used whatever the tenants list, and an SMTP TLS report without policies has no tenant |
| IndexNames.MigrationIndexNames | parsedmarc/cli.py:1681-1700 | the nested loops compute the deduplicated product of prefixes and base names |
| IndexNames.ProductAt | parsedmarc/cli.py:1693-1700 | before deduplication the names go through all base names under the first prefix, then under the second, and so on |
| IndexNames.UniqueKeepsElements | parsedmarc/cli.py:1694-1699 | deduplication keeps exactly the elements, each once |
| IndexNames.UniqueKeepsFirstSeenOrder | parsedmarc/cli.py:1694-1699 | and keeps them in the order in which they were first seen |
| IndexNames.TargetsAreOwnNames | parsedmarc/cli.py:1681-1700 | a name is a target if and only if it is one of the deployment's own prefixes followed by the suffixed or the bare base name; no target occurs twice |
| IndexNames.SavePrefixIsOwn | parsedmarc/cli.py:2471-2472 | every report is saved under one of those prefixes |
| IndexNames.SavedIndexesAreCovered | parsedmarc/elastic.py:1075-1081 | for all options, tenant maps, reports and dates the index a report is saved to is one of the target names followed by a hyphen and the date; an index saved with no or another suffix has a target name as a prefix |
| IndexNames.ConfiguredPrefixConfines | parsedmarc/cli.py:1685-1686 | with a configured prefix, no index outside prefix and base name is reached |
| IndexNames.NothingConfigured | parsedmarc/cli.py:1681-1700 | without options the base name is the only target |
| IndexNames.TargetsUnderOnePrefix | parsedmarc/cli.py:1681-1700 | under a configured prefix, or without tenants, the targets are the suffixed name, if there is a suffix, and then the bare one |
| SampleNames.GetFilenameSafeString | parsedmarc/utils.py:1269-1280 | the character loop, the cut and the strip compute the specified safe name |
| SampleNames.SafeNameIsSafe | parsedmarc/utils.py:1269-1280 | the result has at most 100 characters, none of them invalid, does not end in a dot or space, and drops nothing else |
| SampleNames.SafeMeans | parsedmarc/utils.py:1269-1280 | safe means at most 100 characters, no trailing dot or space, and none of the ten characters slash, backslash, colon, quote, asterisk, question mark, bar, line feed, carriage return and NUL |
| SampleNames.KeptInOrder | parsedmarc/utils.py:1272-1273 | removing the invalid characters goes through a text piece by piece, so what is kept keeps its order and number |
| SampleNames.MissingText | parsedmarc/utils.py:1270-1271 | a missing text counts as the text None |
| SampleNames.SafeNameIsUnique | parsedmarc/utils.py:1269-1280 | it is the only string meeting that description |
| SampleNames.SafeNamesAreFixpoints | parsedmarc/utils.py:1269-1280 | a string is left alone if and only if it is safe, so the function is idempotent |
| SampleNames.Directory.ChooseName | parsedmarc/__init__.py:3564-3571 | the inner loop terminates with the first numbered name that is free |
| SampleNames.NumbersAreBounded | parsedmarc/__init__.py:3569-3571 | it never counts past the number of earlier samples |
| SampleNames.NamesAreDistinct | parsedmarc/__init__.py:3561-3573 | all names of a call are pairwise distinct, even for subjects that already look numbered |
| SampleNames.NamingIsUnique | parsedmarc/__init__.py:3561-3573 | the names are determined by the subjects |
| SampleNames.PathsAreSafe | parsedmarc/__init__.py:3566-3576 | no file name holds a separator, a NUL or another invalid character, nor is it a dot name |
| SampleNames.PathShape | parsedmarc/__init__.py:3562-3576 | a file name is the safe subject, or sample if that is empty, with a number in brackets no larger than the count of earlier samples when it is taken, and the extension eml |
| SampleNames.Directory.WriteSamples | parsedmarc/__init__.py:3561-3577 | every sample of a call is found under its own name and files under other names stay |
| Numbering.NumeralRoundTrip | parsedmarc/__init__.py:3571-3571 | decimal numerals determine their numbers |
| Numbering.NumeralIsDecimal | parsedmarc/__init__.py:3571-3571 | the last character of a numeral is the decimal digit of the remainder by ten and the rest is the quotient's numeral |
| Numbering.NumberedInjective | parsedmarc/cli.py:439-440 | different numbers give different names |
| Numbering.TakenNamesBound | parsedmarc/cli.py:428-441 | when the first n candidates are taken there are at least n taken names, so a search through them ends |

## Left out

Mailbox:

- Parsing itself (XML, JSON, MIME, archives): a parse is a report, a parser error or another exception.
- Mail protocols, folder creation, the relative `since` option and the missing-connection check.
- Cache expiry, the cache writes of the file and mbox paths, counters shared by two connections with the same folder name.
- The inherited delete flags: the settings hold the four resolved flags.
- Exceptions raised by fetching a message; a move or deletion the server refuses has no effect on the mailbox.
- Mailbox.Checker.GetReports: results carried in from outside start empty, because only the recursive call passes any.

Parallel map:

- Processes, logging in workers and an exception raised by a job; which jobs a stop cancels and how often a wait times out are parameters.

Reload:

- Parsing the configuration and building each client: a step that succeeds or fails, with or without a close method.
- The PostgreSQL client whose table creation fails before it is in the dictionary, and the exit on an invalid IPinfo token.
- The IP database file a loader downloads, log levels, and the parser configuration object built from the new options.
- Reload.Start: one attempt; the program retries a failed one a few times, and the steps between log file and clients are not modelled.
- Errors raised by a close: they are swallowed, and the connection counts as closed once close was called.
- `parsedmarc/opensearch.py`: the same code for the other backend, which has no serverless flag.

Day buckets:

- DayBuckets.Apportion: shares are exact, because the rounding of the float computation is not modelled; a count may differ where floats round a fraction across another.
- DayBuckets.BucketIntervalByDay: the checks that both ends carry the same time zone; moments are microseconds on that zone's wall clock.
- DayBuckets.AppendParsedRecord: the text format of timestamps; an interval end is its whole second.
- Text as a count: whether `int` converts it, and to what, is part of the modelled value.

UTF-8:

- Limits on errors or fixes other than none, detection of a file's encoding, whole-file conversion, printing and the dry run.
- Codecs of the fallback chain are arbitrary partial functions from a byte to text.

Naming and migration:

- IndexNames.NormalizedPrefixShape: lower-casing covers the letters A to Z only; the public suffix lookup is a parameter.
- SampleNames.Directory.WriteSamples: file systems that identify names differing in case, and samples of earlier calls, which are overwritten.
- Archive.Disk.MoveToArchive: creating the directory, and names that differ only by how a path is written.
- LegacyMigration.EveryRunKeepsDocuments: one process at a time, and no writes to the indexes by others meanwhile.
- The backfill scripts and queries that the cluster evaluates, and the other clients' save paths.
