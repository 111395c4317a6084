# Ollamail, modelled and proved in Dafny

This project models the parts of the Ollamail backend whose correctness is hardest to see from
reading one function, and proves properties of them. `dafny verify dfyconfig.toml` checks it all.

One module per component:

- **History paging** (`SortKeys`, `HistoryPaging`). The history table is one sorted partition per
  account. A page reads at most a limit of each, filters, merges, and cuts at a floor below which
  the merge is incomplete; the cursor of one page starts the next.
- **Claims and the classify pipeline** (`ClaimProtocol`, `ProcessedTable`, `ClassifyPipeline`,
  `EmailRules`, `LabelBatches`, `JsonExtract`). Any number of invocations claim, confirm, release
  and crash over one table of markers; one invocation fans classification out behind a semaphore,
  a bounded channel and a single writer; matching rules become label changes, which are grouped
  and sent in bulk; the model's answer is cut out of prose.
- **The example corpus** (`RoundRobin`, `SenderSubject`, `Sampling`, `SampleOrder`, `Corpus`,
  `Prune`, `PruneSelection`, `PruneLimits`). Corrections become examples; recurrences are marked,
  resolved rows dropped, the newest row of a message wins, and a tiered round-robin sample is shown
  to the improver. Pruning keeps what the sampler would pick.
- **The improve loop** (`Replay`, `Rounds`, `RunCorpus`, `RunSelection`, `RoundKinds`,
  `ImproveLoop`, `TraceLog`). A rewritten rule is scored against the corpus, rounds are ranked, the
  loop stops by rule, and a live trace is written and polled.
- **Corrections and ids** (`HistoryRewrite`, `LocalIds`).

Asynchronous behaviour is modelled as steps over an explicit state: a run is any sequence of
enabled steps, so a statement about runs is a statement about every schedule. Whatever the code
takes from outside (clock readings, model answers, which writes fail, map iteration order, the
order in which calls complete) is a parameter or an arbitrary choice.

## What the proofs say about the code

Some promises in the code's comments hold only under a condition, and the project states which.

- Paging is complete, each row once and in order, for any filter on subject and sender. With a
  rule or "unmatched" filter it is complete exactly with at most one account
  (`HistoryPaging.CompleteExactly`): with two, every fetched row can lie below the floor, and the
  page then returns the empty cursor (db/store.go:1509-1512, 1529-1531). `LostRow` builds such a
  history for every filter of that kind, every number of accounts from two and every page size.
- The claim condition of the table is "expired before now" and that of the in-memory store "not
  after now" (db/store.go:1980, db/fake.go:171). With the in-memory condition, an invocation still
  acting in the last second of its lease can share a message with the next owner
  (`ClaimProtocol.SafeExactly`).
- "Pruning deletes only what selection would never pick" (improve.go:470-476) holds for every
  corpus that selection reads in full and that has no message with two live rows exactly when no
  live row the prune cap samples owes its recurrence mark to a resolved row beyond the newest ones
  up to the cap (`Prune.PruneInvisibleExactly`). On every corpus it holds exactly when the prune
  cap picks, from the rows the rule keeps and with the marks these give, what it picks from all
  (`PruneSelection.PruneKeepsSelectionExactly`). `PruneLimits` builds families of corpora on which
  it fails: more rows than selection reads, a message corrected several times, and a mark that
  comes from an old resolved row.
- The comment on recurrences speaks of an older resolved row; the code marks a live row whenever
  a resolved row for the same message or sender is in the corpus, older or newer
  (improve.go:513-561, `Corpus.MarkMeansRecurred`).
- `roundBetter` is not transitive. Sort rounds into kinds by which scores they have: the ranking is
  transitive on the rounds of given kinds, in every run, exactly when no two of these kinds
  disagree on a score that both are to be compared on (`RoundKinds.TransitiveExactly`). For every
  two that do, one of them too thinly scored on the held-out part, or without examples of both
  sides there or overall, or with nothing scored at all, three replays of the same thirteen
  examples beat each other in a circle, and `RunSelection.ThirteenExamples` gives the stored
  corrections and settings of a run that replays them. Among rounds that agree it is a strict weak
  order.
- A JSON object in the model's answer is found behind some text, whatever the object and whatever
  follows it, exactly when every brace of that text opens a balanced span that is not JSON
  (`JsonExtract.FoundExactly`). It is missed behind a brace that is left open, and behind an
  earlier span that is JSON, which is returned instead.
- A trace attempt whose lookup of the latest number fails starts from 0 (improve.go:126-136), which
  is harmless exactly while nothing is stored (`TraceLog.AttemptKeepsSound`).

## Model

| member | source | states |
|---|---|---|
| SortKeys.TsKeyOrder | db/store.go:210-214 | For timestamps of one length and ids of up to 20 digits, string order of sort keys is the order of (timestamp, id), and equal keys mean equal pairs |
| SortKeys.Int64Fits | db/store.go:211 | Every non-negative 64-bit id fits the 20 digits |
| SortKeys.KeyOrder | db/store.go:1656-1661 | The comparator of the merge sort agrees with the string comparisons used for cursor and floor |
| HistoryPaging.HistoryMergeCut | db/store.go:1504-1546 | The walk over the merged rows: which rows make the page, and in each case of the switch which cursor comes back |
| HistoryPaging.NewestFirstSorts | db/store.go:1654-1661 | The merge sort is a descending permutation |
| HistoryPaging.GetHistoryFiltered | db/store.go:1561-1667 | A page is one step of the paging system: limited queries per partition, merge, cut, number scanned; a limit of zero or less means 50 |
| HistoryPaging.PageLossless | db/store.go:1488-1503 | A page that does not stall returns exactly the matching rows between its cursor and the next one, descending |
| HistoryPaging.PageLosslessIff | db/store.go:1509-1531 | A page loses rows exactly when it stalls, every fetched row lying below the floor, while matching rows remain |
| HistoryPaging.PageProgress | db/store.go:1501-1514 | The next cursor is a stored row strictly below the present one, whatever the filters drop |
| HistoryPaging.PageSize | db/store.go:1509-1527 | A page holds at most as many rows as asked for, and fewer only when the merge has no other matching row down to the floor |
| HistoryPaging.NeverStalls | db/store.go:1494-1512 | Without a store-side filter, or with one account, no page stalls |
| HistoryPaging.SessionLossless | db/store.go:1488-1503 | Any pages in a row, of any positive sizes, together return exactly the matching rows down to where they got |
| HistoryPaging.FinishedSessionComplete | db/store.go:1488-1503 | Paging to the empty cursor returns every matching row once, in strictly descending order |
| HistoryPaging.SessionBounded | db/store.go:1501-1503 | Paging ends: never more pages than rows below the cursor, plus one |
| HistoryPaging.LostRow | db/store.go:1529-1531 | For every store-side filter, every number of accounts from two and every page size, a history on which paging ends with a matching row never returned |
| HistoryPaging.CompleteExactly | db/store.go:1488-1546 | Paging is complete on all histories, with whatever page sizes and at each single one, exactly without a store-side filter or with at most one account |
| HistoryPaging.ScrollIsSession | server.go:1086-1172 | A scroll through the handler, with its budget, is a run of pages as above |
| HistoryPaging.HandleHistory | server.go:1086-1172 | One request: its page limit, its page, and whether a link that is followed, a button or nothing stands at its end |
| HistoryPaging.BurstBounded | server.go:1160-1186 | On a whole scroll each page asks for the page size or what the ceiling leaves, a button stands exactly where the rows read since the last one reach the ceiling, and a burst reads at most the ceiling for each account |
| ClaimProtocol.SafeExactly | db/store.go:1941-2019 | Over every run of claims, confirms, releases, lost writes, crashes and clock steps, no message has two owners that may still act, exactly when the working window is at most 900 seconds (899 in memory) |
| ClaimProtocol.RunKeepsInv | db/store.go:1968-2019 | Every live claim is backed by the marker it wrote, and no two live claims are for one message |
| ClaimProtocol.ConfirmedForever | db/store.go:1994-2000 | A confirmed marker is never removed, replaced or won again, whatever the timing |
| ClaimProtocol.ConfirmedAtMostOnce | db/store.go:2094-2125 | Each message is confirmed at most once in a run, and ends confirmed exactly when it was |
| ClaimProtocol.ReleaseIsOwn | db/store.go:2001-2017 | A release removes the releaser's own lease, touches nobody else's claim, and makes the message claimable at once |
| ClaimProtocol.CrashRecovers | db/store.go:1941-1946 | After any crashes an unconfirmed message can be claimed once more than 900 seconds have gone by |
| ProcessedTable.Table.ClaimMessages | db/store.go:1968-1993 | One reading, one conditional write per id in order; on a write error, what was won so far |
| ProcessedTable.WonExactly | db/store.go:1961-1967 | A call wins exactly the listed ids that were free or expired when it began, each once |
| ProcessedTable.WonInOrder | db/store.go:1968-1993 | In the order of the list, each at its first mention |
| ProcessedTable.SecondClaimBlocked | db/store.go:1961-1967 | What one call won a later call cannot win while the lease lasts |
| ProcessedTable.BatchIsSteps | db/store.go:1968-1993 | A claim call is a run of single protocol steps, so the protocol's guarantees cover it |
| ProcessedTable.Table.ReleaseClaim | db/store.go:2001-2017 | Deletes a lease, never a confirmation, and no other marker |
| ProcessedTable.Table.ApplyWriteJob | processor/processor.go:347-371 | A job confirms or releases its own message, never both; a failed write is dropped |
| ProcessedTable.Table.FilterUnprocessed | db/store.go:2024-2065 | The chunked pre-filter keeps, in order, every id a claim on the same snapshot could win, and beyond those only leases in their last second |
| ProcessedTable.KeptInOrder | db/store.go:2056-2063 | What the pre-filter keeps stands in the order of the list, as often as listed |
| ClassifyPipeline.PipelineSafety | processor/processor.go:270-308 | On every schedule: classifications and queued jobs within capacity, no send on the closed channel; the jobs applied, with the writer and queued are together the jobs sent, each once, in sending order |
| ClassifyPipeline.CapacityReached | processor/processor.go:288-293 | The bound is reached: as many emails are classified at once as the setting allows |
| ClassifyPipeline.BufferFills | processor/processor.go:271-280 | The channel takes as many jobs as its size before the writer has applied any |
| ClassifyPipeline.NeverStuckExactly | processor/processor.go:543-548 | No schedule gets stuck before the return exactly when the capacity is positive or there is no message, which the guard on the setting secures |
| ClassifyPipeline.RunBounded | processor/processor.go:270-308 | Every schedule makes at most nine moves per message and four more |
| ClassifyPipeline.ReturnComplete | processor/processor.go:280-308 | On return each received message has had exactly one job applied and its label changes collected once, and no worker is left |
| ClassifyPipeline.ReturnMarkers | processor/processor.go:347-371 | On return, in any order of jobs and whichever writes fail, a classified message is confirmed, one whose classification failed has no marker, and one whose own write failed keeps its lease |
| EmailRules.ModifyForPrompt | processor/processor.go:42-63 | By the settings of the rule: which labels are added and removed, whether the email is trashed, and which action words are listed |
| EmailRules.RuleEffect | processor/processor.go:42-63 | What a rule does to INBOX, UNREAD, SPAM, its own label and every other label of its email |
| EmailRules.EmailAfter | processor/processor.go:423-466 | The labels of an email after all its acting rules, and when it is trashed |
| EmailRules.ReverseModifyForPrompt | processor/processor.go:71-76 | The same changes swapped |
| EmailRules.UndoExactly | processor/processor.go:65-76 | Undoing a rule restores a label exactly when the rule had really changed it, or does not touch it |
| EmailRules.RulesNeverConflict | processor/processor.go:42-63 | While no rule's own label is INBOX or UNREAD, a pass never both adds and removes one label |
| EmailRules.PassFromRules | processor/processor.go:289-305 | What a pass collects from any emails, model answers and rules are changes of that kind, while no rule's own label is INBOX or UNREAD or holds a comma |
| EmailRules.PassAsSequence | processor/processor.go:313-318 | Then sending a pass's changes in bulk, in any order of groups, gives the labels its acting rules gave in turn |
| EmailRules.ProcessEmail | processor/processor.go:391-523 | Matched names, label changes, trash, history rows and job of one email; a failed model call only releases |
| EmailRules.ActingUpToStop | processor/processor.go:423-466 | The rules that act are the matching ones up to and including the first that stops processing |
| EmailRules.MatchingAre | processor/processor.go:423-431 | The matching rules are those the model named, in the order of the list |
| EmailRules.RowPerRule | processor/processor.go:432-496 | One history row per acting rule, naming it, its label and each thing it did, and never a no-match row among them |
| LabelBatches.JoinInjective | gmail/client.go:710-712 | On label ids that are non-empty and without comma, equal keys mean equal label lists |
| LabelBatches.Group | gmail/client.go:706-721 | The loop over changes builds the groups that `GroupsSame` is about, ids collected per pair of joined label lists |
| LabelBatches.SameGroupExactly | gmail/client.go:706-721 | On plain label ids, changes share a group exactly when they add and remove the same labels |
| LabelBatches.GroupsSame | gmail/client.go:705-721 | The groups add and remove, on every message, exactly what the changes do |
| LabelBatches.OrderFreeExactly | gmail/client.go:705-729 | For a message and a label, every order of groups gives what the changes give one by one exactly when they do not both add and remove it |
| LabelBatches.KeysCollideExactly | gmail/client.go:710-712 | Two label lists share a key exactly when they fall into the same pieces at their commas |
| LabelBatches.SharedKeyLoses | gmail/client.go:710-720 | Of two changes that share a key, a label that only the second adds is lost in every order of groups |
| LabelBatches.Client.PostBatchModify | gmail/client.go:687-703 | Chunks of at most 1000 ids, all of them unless a post fails, then the beginning |
| LabelBatches.ChunkAt | gmail/client.go:687-703 | The k-th request of a group carries the k-th thousand of its ids, in order, and its labels |
| LabelBatches.ChunkCount | gmail/client.go:687-703 | And there are no more requests than that takes |
| LabelBatches.Client.BatchModifyEmails | gmail/client.go:706-729 | All groups in some order, no post empty or over 1000 ids; on failure the beginning of that |
| JsonExtract.BalancedBraceEnd | llm/bedrock.go:779-809 | The scan's result is where the span it starts closes, strings and escapes respected |
| JsonExtract.ExtractJSONObject | llm/bedrock.go:756-773 | The first balanced span the JSON library accepts, each turn starting beyond the one rejected |
| JsonExtract.ExtractSound | llm/bedrock.go:748-773 | Whatever is returned is a balanced, accepted span of the text |
| JsonExtract.PassesValue | llm/bedrock.go:779-809 | The scan passes over every JSON value, however nested, spaced or escaped, and ends where it was |
| JsonExtract.ExtractsObject | llm/bedrock.go:748-773 | Every JSON object, whatever its nesting, whitespace and escapes, is found, behind prose and balanced asides that are not JSON, and before any text |
| JsonExtract.ExtractsSpelled | llm/bedrock.go:679-773 | In particular an object of any keys and values in the ordinary spelling, a blank after each colon and comma |
| JsonExtract.ExtractsBehindProse | llm/bedrock.go:748-773 | In particular behind any prose without a brace |
| JsonExtract.FoundExactly | llm/bedrock.go:748-773 | For a library that accepts the empty object, every object behind a text is found, whatever follows, exactly when each brace of that text opens a balanced span that is not JSON |
| JsonExtract.NotBothFound | llm/bedrock.go:756-773 | Otherwise an earlier accepted span is returned, or a brace stays open and nothing is, so not both of two empty objects are found |
| RoundRobin.DealIsPermutation | improve.go:435-452 | Dealing hands out every element once |
| RoundRobin.DealKept | improve.go:435-452 | Keep only what the first n turns deal, deal again: the same n in the same order |
| RoundRobin.DealIsFair | improve.go:435-452 | After any number of turns each queue has given its first p or p+1 elements, or all it had |
| Sampling.RoundRobinBySender | improve.go:421-454 | The loop over shrinking bucket queues deals the buckets pass by pass, min(budget, n) in all |
| SenderSubject.SameKeyExactly | improve.go:345-352 | Keys are equal exactly when senders are the same up to case and surrounding whitespace, and so are subjects |
| Sampling.RoundRobinFair | improve.go:416-454 | No candidate twice, of each sender and subject a newest-first prefix, none more than one ahead of one not exhausted |
| SampleOrder.PickedInOrder | improve.go:421-454 | The order of the picks without buckets: by how many newer ones of its sender and subject an example has, then by whose sender and subject was seen first |
| SampleOrder.PickedComeFirst | improve.go:421-454 | And all picks come before everything not picked |
| Sampling.SampleVerdict | improve.go:390-414 | The loop takes recurred examples up to half the cap, then problems, then confirmations, round-robin |
| SampleOrder.SampleShape | improve.go:378-414 | The newest recurred examples, as many as there are or half the cap rounded up; then of the problems as many as there are or room is left; then of the confirmations likewise |
| Sampling.SampleGrows | improve.go:384-414 | What a cap selects every larger cap selects too |
| Sampling.SampleStable | improve.go:390-454 | Keep only what one cap selects, and every smaller cap selects the same examples in the same order as before |
| Corpus.MarkRecurrences | improve.go:528-561 | The slice after the in-place pass, element by element |
| Corpus.MarkMeansRecurred | improve.go:513-561 | A live row is marked exactly when a resolved row shares its verdict and its message, or its sender and subject up to case and whitespace |
| Corpus.MarkNamesVersion | improve.go:528-561 | The mark names the rule version of the first such row, one for the message before one for the sender and subject |
| Corpus.NewestWins | improve.go:252-267 | The two dedup loops keep, per message, its highest-id row |
| Corpus.GatherRawExamples | improve.go:229-268 | Window, mark, drop resolved, newest wins, in that order |
| Corpus.GatherExact | improve.go:229-268 | For each message with a live row in the windows, exactly its highest-id one, order kept: no message on both sides |
| Corpus.ShownIsReplayed | improve.go:363-376 | With the improve cap at most the replay cap, all shown examples are replayed and the held-out ones are the difference |
| Corpus.ResolvedOnlyIfReplayed | improve.go:601-635 | With replay on, the resolved keys are exactly the missed shown examples that the winning round's own calls, retry included, answered rightly |
| Prune.PruneKeepSet | improve.go:485-511 | The ids kept: the live sample at the cap and the newest resolved rows up to it |
| Prune.PruneVerdict | prune.go:74-100 | What a prune pass leaves of a verdict: all of it below the buffer; otherwise, of the rows up to the read ceiling, those in the keep set, and the rows beyond |
| Prune.KeepSize | improve.go:485-511 | Never more than twice the cap |
| Prune.PruneLeavesFew | prune.go:74-100 | A pass that prunes leaves at most twice the cap of the newest 2000 rows and every row beyond |
| Prune.PruneIdempotent | improve.go:485-511 | Pruning again keeps everything, although marks can be lost in between |
| Prune.PrunedSampleExactly | improve.go:470-511 | For one verdict's rows, every cap up to the prune cap samples the same, as sequences, exactly when no live row the cap samples owes its recurrence mark to a resolved row beyond the newest ones up to the cap |
| Prune.MarksKeptIsKept | improve.go:477-511 | That condition on the corpus before the prune says that no row left by it has lost its mark |
| Prune.PrunedSample | improve.go:470-511 | In particular while the resolved rows fit the cap |
| Prune.PruneInvisibleExactly | improve.go:470-511 | On a corpus read in full without repeated messages, a prune pass over both verdicts leaves the whole selection as it was, at every cap up to the prune cap, exactly when no verdict that it prunes loses a mark in that way |
| Prune.PruneInvisible | improve.go:470-476 | In particular while the resolved rows fit the cap |
| PruneSelection.SameSelectionExactly | improve.go:384-454 | Two corpora are selected from alike at every cap up to one, as sequences, exactly when that cap picks the same rows with the same marks from both |
| PruneSelection.SelectionUnchangedExactly | improve.go:470-511 | With both verdicts pruned, that is so exactly when what is gathered afterwards is what the prune cap selected before |
| PruneSelection.PruneKeepsSelectionExactly | prune.go:74-100 | For every corpus, buffer, read ceiling and windows included, a prune pass leaves every selection up to the prune cap as it was exactly when that cap picks, from the rows the rule keeps and with the marks these give, what it picks from all |
| PruneSelection.KeptIsLeft | improve.go:485-511 | The rule said row by row: a live row stays if the cap samples it, a resolved one if among the newest up to the cap |
| PruneLimits.BeyondWindow | improve.go:219-240 | For every corpus size beyond the 120-row window and up to the 2000 rows a prune reads, one where the prune pass changes the selection |
| PruneLimits.Recorrected | improve.go:252-267 | For every number of corrections of one message from twelve, a corpus where pruning changes the selection |
| PruneLimits.MarkForgotten | improve.go:485-511 | For every number of resolved rows from twelve, a corpus read in full, without repeated messages, whose live row loses its mark, so that pruning changes the selection |
| Replay.RunFanOut | llm/bedrock.go:1713-1734 | Each call writes its own slot, so the outcomes do not depend on completion order |
| Replay.ReplayAgainstExamples | llm/bedrock.go:1676-1808 | The result is the tally of the first answers, or the retry's where the first call failed, whatever the orders of completion |
| Replay.CountsAddUp | llm/bedrock.go:1586-1606 | Scored and errored make up the submitted; passed, held-out and bucket counts split exactly; baseline within total |
| Replay.CountsNest | llm/bedrock.go:1756-1796 | Passed within totals, held-out within all, bucket by bucket |
| Replay.IndicesPartition | llm/bedrock.go:1770-1796 | An index is passed, failed or unscored by the example's final answer, exactly one of the three |
| Replay.IndicesAscend | llm/bedrock.go:1787 | Passed indices ascend |
| Replay.MarginIsFixedLessBroken | improve.go:1237-1247 | Passed minus baseline is newly fixed minus newly broken |
| Replay.UnflaggedGains | improve.go:1237-1247 | With three fifths scored, not being flagged as no gain means fixing strictly more than breaking, and conversely; below that nothing is flagged |
| Replay.BalancedMeans | llm/bedrock.go:1629-1653 | Missing exactly without both buckets, else between 0 and 1, 1 only with nothing failed, one half for a rule that matches everything or nothing |
| Replay.FeedbackGroups | improve.go:984-997 | The failures split by direction, in order, and the held-out ones counted by direction |
| Replay.FeedbackNeverLeaks | improve.go:955-963 | What the next round is shown is every failure on an example it had seen, and never a held-out one |
| Rounds.RoundBetterAsymmetric | improve.go:816-860 | No round beats itself and no two beat each other, on all inputs |
| RunCorpus.OfRunExactly | llm/bedrock.go:1676-1808 | Of given examples, replays give exactly the rounds whose counts fit them: in each half and on each side no more passed than scored and no more scored than there are |
| RunSelection.RunMakeup | improve.go:1067-1092 | How many examples of each side a run shows and holds out, from what the two caps sample of its stored corrections |
| RunSelection.ThirteenExamples | improve.go:1067-1092 | Stored corrections whose run, with caps of 4 and 15, holds out one positive and six negative examples and shows two and four |
| RoundKinds.KindsCircle | improve.go:816-860 | For every two kinds of round that disagree on a score, three rounds that beat each other in a circle, all of them replays of one such set of examples |
| RoundKinds.TransitiveExactly | improve.go:816-860 | In every run on stored corrections, transitive on the rounds of some kinds exactly when no two of the kinds disagree on a score both are to be compared on |
| RoundKinds.KindIsPossible | improve.go:816-860 | Every round of a run is of a kind that `TransitiveExactly` covers |
| Rounds.BetterIsGreater | improve.go:800-860 | On rounds that agree on which scores exist, the ranking is comparison of keys |
| Rounds.StrictWeakOrder | improve.go:800-860 | On such rounds, transitive and with transitive ties |
| Rounds.SameExamplesAgree | improve.go:862-869 | Rounds that scored the same examples agree |
| Rounds.DominanceWins | improve.go:800-860 | On the same examples, at least as good in every bucket and better in one is ranked better |
| Rounds.CoverageFirst | improve.go:816-821 | Enough examples scored beats too few |
| Rounds.HeldOutFirst | improve.go:823-837 | Then better on the held-out examples wins, by balance and then by pass rate, whatever happens on the others |
| Rounds.ThenOverall | improve.go:839-857 | Then balance, pass rate and the shorter candidate decide, in that order |
| Rounds.UncoveredByRate | improve.go:847-857 | With too few scored in both, the pass rate and then the length decide |
| Rounds.BestIsEarliestUnbeaten | improve.go:862-878 | The round picked among agreeing rounds is the earliest that no other beats |
| Rounds.SelectBestRound | improve.go:870-878 | The selection loop, -1 exactly on no rounds |
| ImproveLoop.ImproveAndFinalize | improve.go:1110-1182 | The loop ends within its budget; each round up to the chosen one beats the one before; the chosen one is the last or the one before it; and it ends as the next row says |
| ImproveLoop.LoopEndsExactly | improve.go:890-913 | Another round is run exactly when replay is on, time is left, the last was not a covered perfect score and beat the one before, the budget lasts and the model call works; the note names what was missing |
| ImproveLoop.RestEnds | improve.go:890-913 | It stops after its last round by the stop rule or on a failed call, and after no earlier one |
| TraceLog.TraceWriter.Text | improve_trace.go:118-141 | Buffer, switch of kind, flush by size or time; the new fields and the stored events |
| TraceLog.TraceWriter.Event | improve_trace.go:101-111 | What was buffered, then the event, in one batch |
| TraceLog.TraceSpells | improve_trace.go:78-141 | Over any calls, events written and buffer spell exactly the input: nothing lost, doubled, reordered or moved to another kind |
| TraceLog.EventFlushesAll | improve_trace.go:96-111 | After an event the written trace spells everything so far |
| TraceLog.NumbersRunOn | improve_trace.go:66-90 | Numbers run on without gap from where the trace stood; no streamed event is empty |
| TraceLog.FlushesExactly | improve_trace.go:118-141 | Streamed text is kept back exactly while the interval lasts and fewer than 400 bytes of its kind have come together |
| TraceLog.Store.Append | db/store.go:2899-2908 | A batch lands whole under its numbers, or not at all |
| TraceLog.Store.List | db/store.go:2915-2933 | The events above a number, ascending |
| TraceLog.TraceLastSeq | server.go:2192-2200 | The highest number seen, never below the cursor |
| TraceLog.PollCatchesUp | server.go:2189-2200 | A poll hands over exactly what was stored since the cursor |
| TraceLog.ClientSeesEachOnce | improve_trace.go:66-75 | Over writes, lost writes, attempts made anew, polls and reloads, a client sees each stored event once and in order, and nothing stored is overwritten, if lookups of the latest number fail only while nothing is stored |
| TraceLog.AttemptKeepsSound | improve.go:126-136 | A failed lookup is harmless exactly while nothing is stored |
| TraceLog.FailedLookupOverwrites | improve.go:126-136 | Otherwise the first event goes over the first stored one, and a client past it is never handed the new one |
| HistoryRewrite.PlanRewrite | db/store.go:1885-1930 | Which rows are deleted and which put |
| HistoryRewrite.History.RewriteHistoryForMessages | db/store.go:1863-1935 | The stored rows afterwards: the dropped ones gone, the new ones under fresh keys, all others as they were |
| HistoryRewrite.ReadBack | db/store.go:1776-1790 | A planned message reads back as the kept rules it had and the added ones |
| HistoryRewrite.NewRowSays | db/store.go:1900-1929 | A new row carries the message, subject and sender as planned, and a rule it adds as a manual match, or nothing |
| HistoryRewrite.UnplannedUntouched | db/store.go:1863-1935 | No key of another message changes |
| HistoryRewrite.ShapeAfter | db/store.go:1921-1929 | A planned message ends with matched rows, at least one, or with no-match rows only |
| HistoryRewrite.ExactlyOneNoMatch | db/store.go:1921-1929 | And then with exactly one |
| HistoryRewrite.SingleRecategorizeVerdicts | recategorize.go:90-105 | A verdict exactly for known rules matched before or after; positive if after, missed if changed |
| HistoryRewrite.SingleDiff | recategorize.go:262-279 | Added, removed and kept ids, and the known prompts added |
| HistoryRewrite.SingleCorrection | recategorize.go:262-338 | The message then matches requested ∩ (current ∪ known), and the verdicts say what changed |
| HistoryRewrite.BulkVerdictsAndPlan | recategorize_bulk.go:94-127 | The table of the bulk action and the plan |
| HistoryRewrite.BulkCorrection | recategorize_bulk.go:74-127 | Each message then matches (current \ remove) ∪ ((apply \ remove) ∩ known), and a verdict on a known rule is a miss exactly when that changed |
| HistoryRewrite.ParseBulkSelections | recategorize_bulk.go:58-77 | The well-formed selections, each once |
| HistoryRewrite.HistoryStateForMessages | db/store.go:1806-1848 | The current rules of each requested message that has rows |
| LocalIds.CollideExactly | db/store.go:268-291 | For any clock readings, two ids of a process collide exactly in one millisecond a multiple of 2^20 increments apart |
| LocalIds.DistinctExactly | db/store.go:268-291 | On a clock that never runs back all ids are distinct exactly while no millisecond mints more than 2^20, through every wrap of the counter |
| LocalIds.LaterIsLarger | db/store.go:275-291 | An id of a later millisecond is larger, and none is zero |
| LocalIds.IdSource.LocalId | db/store.go:287-291 | One id from the clock reading and the next count, and the counter moved on by one with wrap-around |
| LocalIds.IdSource.LocalIds | db/store.go:294-300 | A batch is the successive ids, distinct under the condition above |

## Left out

- TraceLog.TraceWriter.Text: the writer's methods assume a found lookup or an empty trace; what
  happens otherwise is shown on the system of `FailedLookupOverwrites`.
- Pruning a verdict of more than 2000 rows takes several runs; that they converge is not stated.
- LocalIds.DistinctExactly: ids of different processes, which may collide, are not covered.
- ClassifyPipeline does not model the fetch goroutines of gmail/client.go:507-550; whatever they
  deliver before closing the channel is the run's number of messages.
- Marker expiry by TTL after seven days: claim properties are about runs shorter than that.
- The write error whose outcome is unknown: a failed conditional write is taken not to have happened.
- DynamoDB, Gmail, Bedrock, SSM and HTTP: tables are maps with atomic conditional writes, queries
  succeed and return what their contract says, batch writes complete or fail as a whole.
- Timestamps in paging are numbers; `RankOrder` in `SortKeys` is why that loses nothing. Subject and
  sender filters are arbitrary predicates on rows.
- Bucket keys fold and trim ASCII only; lengths of candidates count characters, not bytes.
- Scores are exact rationals, so floating-point rounding in rates is not modelled.
- Trace batches are stored in the order they were built; two goroutines whose writes overtake each
  other after leaving the lock are not modelled.
- The bulk handlers' walk over several accounts, and the rules they carry from one to the next.
- Reading rule numbers out of the extracted JSON (llm/bedrock.go:684-735), which adds only easy members.
- The aggregation of observed mismatches per rule version (recategorize.go:124-153), settings
  parsing, improve-queue merging, retention and the account watch watermark.
- HTML text extraction, prompt rendering, price catalogues, charts, templates, security middleware
  and the browser code.
