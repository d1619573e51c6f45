# JMFTS verification

A Dafny model of the algorithms and protocols at the heart of JMFTS, the retrieval appliance,
and proofs of what they promise. Every main result is a statement over all inputs, all runs
or all interleavings.

- **The chunker** (`Splitting`, `Packing`, `Windows`, `Capping`, `Fitting`, `Chunker`,
  `Offsets`, `Stages`, `Boundaries`, `Strategies`, `Ceiling`, `TightCeiling`): text is split
  by a strategy, capped in characters, merged, split again under an arbitrary measured window,
  and located back in its source; where it is cut, and what each stage leaves alone.
- **Rendition alignment and anchors** (`Alignment`, `Furniture`, `Anchors`, `Bisect`): source
  blocks matched to a re-cut stream, with page furniture in it, by a monotone cursor; interval
  lookup; offsets under deletion.
- **The bounded graph walk** (`GraphWalk`, `Coreference`): a breadth-first search whose bounds
  are overshot by one and measured, and the coreference clusters built on it.
- **Effective content** (`Decimal`, `EffectiveContent`): a flattened, key-ordered frontier query
  against a nested recursive definition.
- **The batch protocol** (`Queue`, `QueueRuns`, `BatchProvider`, `BatchProtocol`, `BatchRuns`,
  `BatchPasses`, `BatchSettled`, `BatchGather`): claims, crashes, leases, submission, parking,
  polling and applying, interleaved in any order, what each pass makes of the tasks it claimed,
  and how each parked task is settled.
- **Access control and access-keyed roots** (`Access`, `Roots`, `Entities`, `EntityRuns`,
  `EntityMentions`, `EntityCopies`): one rule in several implementations, roots minted under a
  race, and entity resolution, by transactions that overlap in any way, that never widens
  access and records each mention.
- **Transcripts and options** (`Json`, `JsonCuts`, `Transcript`, `RoundTrip`,
  `RoundTripExactly`, `Exchanges`, `TranscriptNodes`, `TurnParts`, `Options`).

`Text` holds the string operations they share. `dafny verify dfyconfig.toml` checks everything.

Methods follow the source's loops and are proved against specification functions; what the
source promises is then proved of those functions. Regular-expression tests, string
similarity, the embedding window, database row order, providers and rival workers are
parameters or steps with no assumption beyond the one named where it is used.

## What the code does and its documentation does not say

- `chunk_count_ceiling` is documented as sound with or without `fits`. It is sound at all
  caps exactly for `min_chunk_length` at most 88 (`TightCeiling.CeilingSoundExactly`), and so
  it is at each cap from 36861 up (`TightCeiling.CeilingSoundAtExactly`). The default is 20.
- `effective_text` treats an empty string as absent, by truthiness; the query it must agree
  with tests `IS NULL`. They differ on empty strings (`EffectiveContent.EmptyContentDisagrees`),
  and nowhere else within the depth bound (`EffectiveContent.ProjectionAgreesExactly`).
- `messages_to_jsonl` is documented as read back unchanged. `json.dumps` leaves U+0085, U+2028
  and U+2029 as they are and `splitlines` breaks on them; a message holding one is lost, and
  only such messages are (`RoundTripExactly.ReadsBackExactly`).
- Merging option layers and then resolving is documented as agreeing with resolving them as
  inherited layers. It accepts a set the other refuses when a later layer hides an illegal
  value of an earlier one (`Options.MergingHidesIllegal`, `Options.MergeThenResolveExactly`).
  The import-time check covers the names of the defaults and not their values, so that
  resolving twice is the identity depends on the defaults being legal
  (`Options.IllegalDefaultRefused`, `Options.ResolvingTwiceExactly`).
- `_link_rbac_coref` says that creation order does not matter. It does not, but overlap does:
  two workers that both look before either commits leave two copies of a name under one root
  (`EntityCopies.TwoLookersMakeTwins`), and copies that missed each other are never joined
  (`EntityCopies.CopiesFormClique`).
- A gathering that loses a task to the lease and claims it again turns to it twice, and
  records two outcomes for it (`BatchPasses.ReclaimedHasTwoOutcomes`).
- A rendition with a gap of 400 empty blocks before a block's text loses the block
  (`Alignment.GapLosesBlock`).

## Model

| member | source | states |
|---|---|---|
| Splitting.SplitSentences | jmfts_core/chunking.py:54-72 | the loop over the boundary matches cuts the text at every boundary whose left piece does not end in an abbreviation, and strips and drops blanks: the specification whose conservation is `SentencesKeep` |
| Splitting.SentencesKeep | jmfts_core/chunking.py:54-72 | sentences are trimmed, non-blank, hold the text's non-whitespace characters in order, and with one separator each are no longer than the text, whatever ends in an abbreviation |
| Splitting.ParagraphsKeep | jmfts_core/chunking.py:169-172 | the same conservation for paragraphs |
| Boundaries.ParagraphsReturn | jmfts_core/chunking.py:169-172 | trimmed paragraphs without a blank line in them, laid out with any separators of two newlines and whitespace, are returned as they were |
| Boundaries.ParagraphsUnbroken | jmfts_core/chunking.py:169-172 | and for every text no paragraph returned could be cut further |
| Boundaries.SentencesReturn | jmfts_core/chunking.py:37-72 | sentences laid out with any whitespace between them are returned as they were: cut after end punctuation and before an opening character, not after an abbreviation, and nowhere else |
| Packing.SplitSentencesPacked | jmfts_core/chunking.py:75-101 | the loop over `current` and `words` computes the greedy grouping of the sentences under the word budget |
| Packing.PackedToWordsFewest | jmfts_core/chunking.py:75-101 | no division of the sentences into consecutive groups, each within the word budget or a single sentence, uses fewer groups than the packer |
| Packing.SplitParagraphsPacked | jmfts_core/chunking.py:104-129 | packing is per paragraph, never across one |
| Packing.PackedParagraphsKeep | jmfts_core/chunking.py:104-129 | packing inside paragraphs loses, repeats and reorders nothing but whitespace and does not lengthen the text |
| Packing.SplitSentencesToFit | jmfts_core/chunking.py:132-166 | the loop over the candidate computes the greedy grouping under the length cap and the window measured by `fits` |
| Packing.PackedToFitFewest | jmfts_core/chunking.py:132-166 | when `fits` is inherited by contiguous sub-blocks, no other division into fitting or single-sentence groups uses fewer |
| Strategies.GreedyExactly | jmfts_core/chunking.py:75-166 | a packing is the packer's if and only if it divides the items in order, every shorter beginning of a group may take its next item, and no group may take the first item of the group after it |
| Windows.SplitTokenCount | jmfts_core/chunking.py:175-195 | the loop over the start index computes the word windows, at a step of at least one word |
| Windows.WindowsRebuild | jmfts_core/chunking.py:175-195 | for 0 <= overlap < max_words, dropping the first `overlap` words of every later window and concatenating gives back exactly the text's words |
| Windows.WindowsKeep | jmfts_core/chunking.py:175-195 | without overlap the windows are trimmed and carry the text's non-whitespace characters in order |
| Stages.WordWindowsAre | jmfts_core/chunking.py:175-195 | for overlap >= 0 window k holds the `max_words` words from k steps in, or what is left of them and then it is the last; none has more than `max_words`, and each but the last has just that many |
| Capping.EnforceMaxChars | jmfts_core/chunking.py:198-237 | the word loop, slicing words longer than the cap, computes the capped pieces |
| Capping.CappedKeeps | jmfts_core/chunking.py:198-237 | capped pieces are trimmed, each at most `max_chars` long, hold the text's ink in order, and account for no more characters than the text even where a slice follows a slice with no whitespace |
| Capping.SplitShape | jmfts_core/chunking.py:198-237 | a text of at most 2*cap+1 characters is capped into at most four pieces, and how short the pieces of each possible shape must be |
| Stages.CapAllExactly | jmfts_core/chunking.py:384-389 | capping changes nothing if and only if every chunk is within the cap already |
| Stages.CappedWords | jmfts_core/chunking.py:198-237 | the words of the pieces are the words of the text in order, each one over the cap in slices and every other one whole |
| Stages.CappedFewest | jmfts_core/chunking.py:198-237 | for a text over the cap with no word over it, no other division of the words into pieces within the cap uses fewer |
| Fitting.EnforceFit | jmfts_core/chunking.py:240-277 | the recursion that halves the budget for any `fits`; its budget strictly falls, so it terminates |
| Fitting.FitSplitSound | jmfts_core/chunking.py:240-277 | every piece returned is trimmed, at most `max_chars` long, accepted by `fits`, and together they keep the ink; an error names a piece of at most 64 characters that `fits` rejects |
| Fitting.FitSplitRate | jmfts_core/chunking.py:240-277 | how many pieces an arbitrary `fits` can force from a piece of a given length: 72(n+1) <= 5(L+3) for n > 1 pieces, and fewer from a single long word |
| Stages.FitSplitExactly | jmfts_core/chunking.py:240-277 | a trimmed piece within the cap comes back as it is if and only if `fits` accepts it |
| Stages.OnlyRejectedCut | jmfts_core/chunking.py:419-424 | fitting a list gives the parts of each piece in order, and a piece is its own only part if and only if `fits` accepts it |
| Chunker.MergeShort | jmfts_core/chunking.py:403-417 | the merge loop that rewrites `merged[-1]` in place computes the merged chunks |
| Chunker.MergedChunksPrepared | jmfts_core/chunking.py:384-417 | after capping and merging any two neighbouring chunks hold at least min(min_chunk_length, max_chars) characters between them, all are trimmed and capped, and the ink is conserved unless token windows overlap |
| Stages.MergedExactly | jmfts_core/chunking.py:403-417 | the merge joins runs of neighbours, each chunk of a run after its first being shorter than the minimum and fitting the cap, and the chunk after a run not; that determines it |
| Chunker.ChunkText | jmfts_core/chunking.py:318-453 | the whole call: validation, strategy, cap, merge, fit, locate, in the source's order and with its five error exits |
| Chunker.ChunksSound | jmfts_core/chunking.py:318-453 | for every text, strategy and window: chunks are non-empty, trimmed, within the cap, accepted by `fits`, ascending and disjoint with offsets of their own length, and hold the text's ink exactly unless token windows overlap, the only strategy to read the overlap; each error arises only in its own circumstance, the fit error only for a rejected piece of at most 64 characters, and `no chunks` never |
| Stages.WindowChangesNothingExactly | jmfts_core/chunking.py:318-453 | for every strategy but `sentence_window`, a call with `fits` gives what the call without it gives if and only if `fits` accepts every chunk of that |
| Strategies.ParagraphStrategy | jmfts_core/chunking.py:376-383 | the paragraph strategy gives the paragraphs, when nothing is left for the cap, the merge and the window to do |
| Strategies.SentenceStrategy | jmfts_core/chunking.py:376-383 | then the sentence strategy gives the sentences |
| Strategies.PackedStrategy | jmfts_core/chunking.py:376-383 | then the packed-sentence strategy and `sentence_window` give whole sentences, each chunk taking the next while the word budget, or the window, lets it |
| Strategies.ParagraphPackedStrategy | jmfts_core/chunking.py:376-383 | then the packed-paragraph strategy packs the sentences of each paragraph, and no chunk runs into the next paragraph |
| Strategies.TokenStrategy | jmfts_core/chunking.py:376-383 | then the token strategy gives the windows of the words |
| Chunker.LocateAll | jmfts_core/chunking.py:428-453 | the forward search loop, with its fallback when a chunk is not found |
| Chunker.LocateOrdered | jmfts_core/chunking.py:428-453 | located chunks keep their texts, are indexed in order, ascending, disjoint, and each spans its own length |
| Stages.LocatedFirst | jmfts_core/chunking.py:428-453 | each chunk stands at the first place it occurs from where the one before it ended, or there if it does not occur |
| Offsets.LocateRecovers | jmfts_core/chunking.py:428-453 | when each piece is verbatim in the text after whitespace only, the forward search finds each at its true position, not at an earlier lookalike |
| Offsets.OffsetsExact | jmfts_core/chunking.py:376-453 | then the whole call, unless token windows overlap, reports the true positions, and everything after the last chunk is whitespace |
| Offsets.BoundaryStrategyOffsets | jmfts_core/chunking.py:376-453 | the sentence and paragraph strategies always meet that condition when nothing is capped, merged or fitted |
| Ceiling.CountWithinInk | jmfts_core/chunking.py:280-315 | a call returns at most one chunk per non-whitespace character, unless token windows overlap |
| Ceiling.CeilingHolds | jmfts_core/chunking.py:280-315 | the stated ceiling bounds the chunks of any number of calls: at all limits with no `fits`, and for arbitrary `fits` while min(min_chunk_length, max_chars) <= 88 |
| Ceiling.WideCeilingHolds | jmfts_core/chunking.py:280-315 | with 5/72 of the characters in place of 3/64 the ceiling holds for every `fits` and all limits |
| TightCeiling.CeilingExceeded | jmfts_core/chunking.py:280-315 | for every min_chunk_length above 88 a text and a window whose chunks outnumber the stated ceiling |
| TightCeiling.CeilingSoundExactly | jmfts_core/chunking.py:280-315 | the stated ceiling is sound for all texts, strategies, caps and windows at a given min_chunk_length if and only if that is at most 88 |
| TightCeiling.DoubledCount | jmfts_core/chunking.py:240-277 | for every j, at any limits with room for it, a text of 144 * 2^j - 3 characters is cut into 10 * 2^j - 1 chunks, which is the most `FitSplitRate` allows |
| TightCeiling.CeilingExceededBeyond | jmfts_core/chunking.py:280-315 | the stated ceiling is exceeded at every pair of limits from (143, 285), (105, 573), (96, 1149), (93, 2301) or (89, 36861) up |
| TightCeiling.CeilingSoundAtExactly | jmfts_core/chunking.py:280-315 | at any one cap of 36861 or more the stated ceiling is sound for all texts, strategies and windows if and only if min_chunk_length is at most 88 |
| Alignment.AlignRuns | jmfts_core/citation_tasks.py:790-914 | the cursor walk with its probe window and whole-block prefixes reports, for each source block, the blocks of the rendition that contain the ends of the run `Runs` gives it |
| Alignment.AlignmentSound | jmfts_core/citation_tasks.py:790-914 | for every pair of streams the located runs are ascending and disjoint, and each holds its source text exactly or a whole-block prefix of it of at least 16 characters |
| Alignment.RecutExactly | jmfts_core/citation_tasks.py:790-914 | when the rendition is the same concatenation cut at other places, every non-empty source block is located at exactly its own position if and only if each is begun inside a rendered block or finds the next rendered text within the probe window |
| Alignment.RecutComplete | jmfts_core/citation_tasks.py:790-914 | so it is for every rendition without 400 consecutive empty blocks, the width of the window |
| Alignment.GapLosesBlock | jmfts_core/citation_tasks.py:790-914 | a block rendered behind 400 or more empty blocks, whatever its text, is not located |
| Furniture.FoundPastFurniture | jmfts_core/citation_tasks.py:878-912 | past blocks that neither begin the text nor are begun by it, a text that stands at the start of a block in the window is located there, if it has 16 characters, ends a block, or is followed by what comes next |
| Furniture.FragmentFound | jmfts_core/citation_tasks.py:833-876 | past such blocks, a text that agrees with whole blocks of 16 characters or more and then with no further one is located by those |
| Furniture.PageBreakFragment | jmfts_core/citation_tasks.py:833-876 | a paragraph a running foot interrupts is located by its part before the foot |
| Furniture.FurnitureIsPassed | jmfts_core/citation_tasks.py:790-914 | for every re-cut with fewer than 400 foreign blocks inserted before any of its parts and anything after the last, each source block is located at exactly its own shifted place, and an empty one nowhere |
| Furniture.RunningHeadPassed | jmfts_core/citation_tasks.py:878-912 | a text under a running head that shares no beginning with it is located behind the head |
| Furniture.ShortTextPassed | jmfts_core/citation_tasks.py:790-914 | a text of fewer than 16 characters that the block runs on after, other than with what comes next, is not located there |
| Anchors.OverlappingBlocks | jmfts_core/citation_tasks.py:177-198 | from the value of bisect_right the forward walk over sorted disjoint blocks returns exactly what a scan of all of them would |
| Anchors.TouchIsShared | jmfts_core/citation_tasks.py:177-198 | a block overlaps a range if and only if some character lies in both |
| Anchors.SliceCommutes | jmfts_core/citation_tasks.py:464-490 | slicing commutes with deleting a character: the moved slice of the shortened text is the old slice with the character taken out |
| Anchors.ShiftKeeps | jmfts_core/citation_tasks.py:464-490 | after the shift every block's slice is its old slice without the removed character, its page and box are unchanged, and order and disjointness are kept |
| Anchors.RightIsCount | jmfts_core/citation_tasks.py:464-490 | the value of bisect_right over the positions is the number of removed characters at or before an offset |
| Anchors.AnchorCovers | jmfts_core/citation_tasks.py:201-248 | an anchor exists exactly when some block overlaps; its page is that of the first overlapping block, its box is the smallest holding every overlapping block of that page, and the pages listed are exactly the other pages with one |
| GraphWalk.FetchHops | jmfts_core/graph_analysis.py:1006-1107 | the hops fetched for a frontier are exactly the allowed links out of it, in the senses followed |
| GraphWalk.Expand | jmfts_core/graph_analysis.py:1006-1107 | one level of the walk: either the next layer is complete or the node cap was hit |
| GraphWalk.WithinIsPath | jmfts_core/graph_analysis.py:964-1107 | being within n hops is having a path of at most n allowed hops through readable nodes |
| GraphWalk.LinkedIs | jmfts_core/graph_analysis.py:1006-1050 | a hop leads from one document to a readable other if and only if a link of an allowed type joins them, outward unless only incoming links are followed, inward unless only outgoing ones are |
| GraphWalk.WalkNeighbors | jmfts_core/graph_analysis.py:964-1107 | min(limit, R) distinct nodes, R being what is reachable, each at its shortest hop count by an allowed hop from the root or an earlier node one hop nearer; truncated iff R > limit; with measure_depth and no truncation, depth_exhausted iff something lies just past the bound |
| Coreference.ClosedWhenExhausted | jmfts_core/graph_analysis.py:1110-1155 | no allowed hop to a readable node leaves what is within n hops exactly when hop n+1 finds nothing new |
| Coreference.ComputeNeighbors | jmfts_core/graph_analysis.py:1110-1155 | with raise_on_truncation it returns exactly when nothing was cut and no hop leads out of the result, and then the result is everything reachable; it raises for the node cap exactly when more than `limit` are reachable, and for the depth cap exactly when they are not but a hop leads on |
| Coreference.ResolveCoreferentIds | jmfts_core/graph_analysis.py:1185-1245 | a cluster is returned exactly when the bounds hold all of it; it starts with the entity asked about and names every coreferent once |
| Coreference.CorefHop | jmfts_core/graph_analysis.py:1215-1232 | one hop of a cluster is one same_as or rbac_coref link to a readable entity, whichever way it points |
| Coreference.CorefSymmetric | jmfts_core/graph_analysis.py:1185-1245 | of two readable entities each is within n hops of the other or neither is |
| Coreference.ClustersAgree | jmfts_core/graph_analysis.py:1185-1245 | if both calls return, two readable entities of one cluster get the same set whichever is asked about |
| EffectiveContent.KeyOrder | jmfts_core/effective_content.py:70-91 | the padded text key compares exactly as (position nulls last, created_at, id) |
| EffectiveContent.AnswerIsFrontier | jmfts_core/effective_content.py:93-146 | any ordering of the recursive query's rows that the array of per-level keys allows is the document-order frontier |
| EffectiveContent.ProjectionAgreesExactly | jmfts_core/rollup_tasks.py:1013-1037 | the flattened, joined projection equals the nested definition if and only if, wherever the walk stops on an empty string or at the depth bound without text, no node the nested walk would reach below carries a non-blank text |
| EffectiveContent.ProjectionAgrees | jmfts_core/effective_content.py:56-185 | for every tree of height at most 40 with no empty-string text the projection equals the nested definition |
| EffectiveContent.EmptyContentDisagrees | jmfts_core/rollup_tasks.py:1028-1037 | a parent whose content is the empty string: the nested definition descends past it and the query does not |
| EffectiveContent.ProjectEffectiveContent | jmfts_core/effective_content.py:159-185 | folding the rows into a dict gives each root the join of its non-blank texts, and a root with none is absent |
| EffectiveContent.PageAgrees | jmfts_core/effective_content.py:159-185 | for every root of a page the mapping says what the projection says, and what the nested definition says wherever nothing is lost |
| EffectiveContent.FrontierMembers | jmfts_core/effective_content.py:193-224 | each root's frontier ids, and whether any of them is a stored summary |
| Queue.ClaimKeepsExclusive | jmfts_core/repositories/task_queue.py:308-376 | claiming under the write-mode conflict test keeps every two active reservations free of conflict |
| QueueRuns.ConflictIsOverlap | jmfts_core/repositories/task_queue.py:360-377 | two tasks conflict if and only if both reserve the same place of the same node: `self` a node, `children` the place below it, `subtree` both of them for its node and for all below |
| QueueRuns.NoPlaceHeldTwice | jmfts_core/repositories/task_queue.py:360-377 | over every run no place of any node is reserved by two tasks that are claimed, running or parked |
| QueueRuns.ClaimsCounted | jmfts_core/repositories/task_queue.py:297-301 | over every run, a task is claimed no more often than its row allows, and while the row is there it has counted exactly the claims made: parking, polling, failing, crashing and reaping count none |
| QueueRuns.RetriesAreBounded | jmfts_core/repositories/task_queue.py:297-301 | from the start of any run, a task entered with no retries used is claimed at most max_retries + 1 times, and its retries are one fewer than its claims |
| QueueRuns.ReapReopens | jmfts_core/repositories/task_queue.py:403-455 | only a claimed or running task is reaped, never a parked one, and it can be claimed again if and only if it has a retry left |
| QueueRuns.DeadReopens | jmfts_batch/worker.py:303-367 | so can each task of a batch the provider lost |
| Queue.MarkBatched | jmfts_core/repositories/task_queue.py:567-613 | the parking loop, which writes nothing at all when a row is not held by a worker |
| Queue.ParkedIs | jmfts_core/repositories/task_queue.py:567-613 | when it succeeds, exactly the named rows that still exist were held and are now parked under the batch; every other row is as it was |
| Queue.ParksExactly | jmfts_core/repositories/task_queue.py:567-613 | it succeeds if and only if every named row that still exists is held by a worker and is named once |
| Queue.ParkSucceeds | jmfts_core/repositories/task_queue.py:567-613 | so it does when the rows named are distinct and those still there are held |
| BatchProvider.CustomIdRoundTrip | jmfts_batch/provider.py:34-58 | a custom id written for a task is read back as that task, and every id the queue can issue fits the pattern the providers take |
| BatchProvider.CustomIdInjective | jmfts_batch/provider.py:41-43 | different tasks have different custom ids |
| BatchProtocol.PollBatch | jmfts_batch/worker.py:303-367 | one poll under the lock: nothing for a working batch, every parked task failed for a dead one, each matching result applied in order for a ready one; and the number delivered, which for a ready batch is the number of results that name a task parked under it |
| BatchSettled.PollSettlesEach | jmfts_batch/worker.py:303-423 | polling a ready batch with each request answered at most once: a parked task is completed if and only if its summary was written, failed with the provider's own retryable flag when answered with an error, failed for good when its text does not fit, and stays parked when unanswered; every other row is as it was |
| BatchSettled.NoSummaryLost | jmfts_batch/worker.py:303-423 | wherever in a run a poll completes a parked task, its document has its summary from that batch, then and ever after |
| BatchRuns.StepKeepsInv | jmfts_batch/README.md:12-38 | every step of any party - enqueue, delete, claim, finish, reap, gather, submit, refuse, park, crash, poll - keeps the protocol's invariant |
| BatchRuns.EveryRunIsSafe | jmfts_batch/worker.py:158-392 | over every interleaving: a summary reaches a document only from a parked batch that asked for that document's own task, at most once per batch; rows parked under a batch id were requests of the one submission that returned it; no two reservations conflict |
| BatchPasses.StepIsMarked | jmfts_batch/worker.py:178-287 | each transaction of a pass records outcomes exactly for the rows it fails, completes or parks and for those it finds gone, each with the row before and after |
| BatchPasses.EveryPassAccounted | jmfts_batch/worker.py:158-291 | over every interleaving, a pass that ends normally gives each task as many outcomes as it claimed it times, so exactly one if and only if it claimed it once; each outcome - lost, failed, completed, parked - is true of the row before and after, and a transaction of that worker in that run took the row from the one to the other |
| BatchPasses.OneOutcomeEach | jmfts_batch/worker.py:243-259 | in a run where no task fails while the worker that claimed it is still claiming, every claimed task has exactly one outcome |
| BatchPasses.ReclaimedHasTwoOutcomes | jmfts_batch/worker.py:243-259 | a run in which the lease takes a task back while its worker still gathers, the worker claims it again, and the pass has two outcomes for it |
| BatchGather.ClaimBatch | jmfts_batch/worker.py:243-259 | claims up to `size` tasks, one transaction each, stopping early only when the queue hands out none; the tasks claimed are different and held |
| BatchGather.GatherAndSubmit | jmfts_batch/worker.py:158-291 | the loops of an uninterrupted pass are a run of this one worker; it never raises, and from any state a run can reach every task claimed has exactly one outcome, the one its type, its preparation and the provider's reply call for, a failure being retryable as the error is, or when the task was of the wrong type; and the batch id is returned exactly when something was parked |
| BatchRuns.CrashOrphans | jmfts_batch/worker.py:275-287 | a crash between submission and parking leaves an orphaned batch |
| BatchRuns.OrphanNeverApplied | jmfts_batch/README.md:23-38 | whatever runs afterwards, nothing is parked under an orphaned batch and no result of it is applied |
| BatchRuns.AnsweredTwiceAppliedTwice | jmfts_batch/worker.py:343-349 | the assumption on providers is needed: a reply answering one request twice is applied twice |
| Access.CanRead | jmfts_core/access.py:154-163 | the point check is the rule: open when ungoverned, else the highest right over the chain |
| Access.CanWrite | jmfts_core/access.py:166-177 | the write check is the rule at level write |
| Access.FiltersAgree | jmfts_core/access.py:73-129 | the ORM predicate, with its None cases, and the SQL fragment admit exactly the documents the rule lets the caller read |
| Access.FilterReadable | jmfts_core/access.py:248-264 | the list filter returns exactly the readable documents, in order |
| Access.ReadableIdSubset | jmfts_core/access.py:267-283 | of the ids that name documents, exactly the readable ones are returned |
| Access.AccessKey | jmfts_core/access.py:189-217 | the `best` loop, in any row order, computes each principal's highest right over the chain, sorted |
| Access.KeyLocal | jmfts_core/access.py:189-217 | the key does not depend on the order of the rows or on grants off the chain |
| Access.KeyDecides | jmfts_core/access.py:180-217 | the key is empty exactly for ungoverned documents, and alone decides read and write for every principal |
| Access.SameKeySameAccess | jmfts_core/access.py:189-217 | two documents have the same key exactly when every principal has the same right over both |
| Access.KeyTextInjective | jmfts_core/access.py:220-228 | different keys have different texts |
| Access.AdditiveBelow | jmfts_core/access.py:7-16 | going down the tree never takes a right away from a reader of a governed document |
| Access.WideningDescendants | jmfts_core/derived_roots.py:177-236 | the loop returns, in ascending order, exactly the governed descendants whose readers do not contain the document's, or all of them when it is public |
| Access.NothingWidensExactly | jmfts_core/derived_roots.py:177-236 | nothing widens if and only if everyone a root keyed by the document lets in can read every descendant |
| Roots.Session.GetOrCreateRoot | jmfts_core/derived_roots.py:73-154 | get or create with the savepoint and the re-read after losing the unique-key race, for derived trees |
| Roots.RootedIsKeyed | jmfts_core/entity_roots.py:45-105 | however the race goes the root returned is the registered one, carries exactly the document's access, and no loser leaves a document, grant or registration behind |
| Roots.OneRootEach | jmfts_core/entity_roots.py:1-21 | two roots of one tree that let everyone in alike are the same document |
| Roots.DerivedRootOpensNothing | jmfts_core/derived_roots.py:34-39 | with no widening descendant, whoever can read the root minted for a document can read everything below that document |
| Entities.BestMatch | jmfts_core/fact_extraction.py:346-357 | the running-best loop, which skips untitled candidates |
| Entities.BestIs | jmfts_core/fact_extraction.py:346-357 | a match is titled, clears the threshold, and no candidate is more similar; there is none exactly when no titled candidate is similar at all and similar enough |
| Entities.LinkRbacCoref | jmfts_core/fact_extraction.py:360-397 | one edge to the best match under each of the other roots, and how many there are |
| Entities.ResolveEntity | jmfts_core/fact_extraction.py:452-528 | the whole resolution: root, cache, match under that root only, else create and join; the mention recorded on every path |
| EntityMentions.MentionRecorded | jmfts_core/fact_extraction.py:452-528 | whether cached, matched or created, the mention of the entity by the source is among the links afterwards, and every other mention is there exactly if it was |
| EntityMentions.MadeIsNew | jmfts_core/fact_extraction.py:484-528 | the flag says whether the entity is new; a new one has the name and stands under the root, else no document is added; and the cache answers the name with it from then on |
| EntityMentions.MentionsAreResolutions | jmfts_core/fact_extraction.py:452-528 | over every run of overlapping transactions the mentions are those there were and exactly those of the resolutions committed |
| EntityRuns.ResolvedInside | jmfts_core/fact_extraction.py:452-528 | the entity is under the root of the mentioning document's access, whether cached, matched or created, and its access key is the document's |
| EntityRuns.FactsStayInside | jmfts_core/fact_extraction.py:460-473 | over every run of overlapping transactions, with any caches, races and rollbacks: while a document is governed as when the mention was resolved, exactly its readers can read the entity |
| EntityCopies.CreateKeepsClique | jmfts_core/fact_extraction.py:360-397 | creating an entity joins it to every copy of its name under the other roots, once |
| EntityCopies.CopiesFormClique | jmfts_core/fact_extraction.py:374-380 | over every run of overlapping transactions, the copies of each name stand under different roots and every two are joined by exactly one edge, whatever the creation order, if and only if no copy was committed late: created by a worker that did not yet see another copy and committed after it |
| EntityCopies.SerialFormsClique | jmfts_core/fact_extraction.py:374-380 | so it is when no worker resolves while another has an entity it has not committed |
| EntityCopies.TwoLookersMakeTwins | jmfts_core/fact_extraction.py:488-515 | two workers that both look before either commits leave two entities of one name under one root |
| EntityCopies.SomeWait | jmfts_core/entity_roots.py:45-105 | tables in which two workers can do so, for every name: a public entities root with nothing under it, and two public documents |
| Json.BodyRead | jmfts_core/conversation_ingest.py:155-160 | a string escaped as json.dumps does with ensure_ascii=False (section 7 of RFC 8259) is read back exactly, up to its closing quote |
| Json.EscapedCut | jmfts_core/conversation_ingest.py:75-85 | cut anywhere before its closing quote it is not read at all |
| Transcript.ParseJsonl | jmfts_core/conversation_ingest.py:62-121 | the line loop, with both message shapes, skipped lines and the uncaught error on JSON that is not an object |
| Transcript.TurnIndexIsPosition | jmfts_core/conversation_ingest.py:62-121 | for every text each turn's index is its position |
| Exchanges.ExchangesReadBackExactly | jmfts_core/conversation_ingest.py:62-121 | a file of prompts with or without responses and of single messages, in any mixture and with the keys of each line in any order, parses to each prompt under its role or `user`, each response under `assistant`, the shared timestamp, in order and at their positions, if and only if no field holds U+0085, U+2028 or U+2029 |
| Exchanges.UnrecognisedSkipped | jmfts_core/conversation_ingest.py:84-120 | an object with no prompt, and without both a role and a content, gives no turn |
| Exchanges.StopsExactly | jmfts_core/conversation_ingest.py:71-85 | the parse fails if and only if some line is JSON but no object; lines that are no JSON are passed over |
| Exchanges.BareStringStops | jmfts_core/conversation_ingest.py:71-85 | so it does at a bare JSON string, whatever stands before it without an error and after it |
| Transcript.MessagesToJsonl | jmfts_core/conversation_ingest.py:137-161 | the printer, with no turn index and a timestamp only when there is one |
| RoundTrip.LineRead | jmfts_core/conversation_ingest.py:155-160 | a printed line is one JSON object with the message's fields |
| JsonCuts.CutBodyFruitless | jmfts_core/conversation_ingest.py:75-85 | the tail of a printed line begun inside one of its strings never yields a message |
| RoundTripExactly.BrokenYieldsNothing | jmfts_core/conversation_ingest.py:62-121 | a message with a separator in a field comes back as no message at all |
| RoundTripExactly.ReadsBackExactly | jmfts_core/conversation_ingest.py:137-161 | printing then parsing is the identity, each turn at its own position, if and only if no field holds U+0085, U+2028 or U+2029 |
| RoundTripExactly.SeparatorLosesMessage | jmfts_core/conversation_ingest.py:137-161 | one such message that is not read back |
| TranscriptNodes.SplitOversized | jmfts_core/conversation_tasks.py:274-340 | the parts of an over-window turn, in order, and none for a turn that fits |
| TranscriptNodes.StructureConversation | jmfts_core/conversation_tasks.py:134-209 | one node per turn in the transcript's order, each before its own parts |
| TurnParts.StructuredExactly | jmfts_core/conversation_tasks.py:134-340 | it succeeds if and only if the file parses, every turn is text and every turn over the window can be cut; then the turns written are those parsed, in order, each part follows its turn numbered from nought, and the parts under a turn are its chunks when it is over the window and none when it is not |
| TurnParts.PartsHoldTheTurn | jmfts_core/conversation_tasks.py:274-340 | unless token windows overlap, the parts under a turn hold its non-whitespace characters once and in order, in pieces the window accepts |
| TranscriptNodes.NodesWithinCeiling | jmfts_core/conversation_tasks.py:73-111 | for every file, strategy and window the nodes written never exceed line_count plus char_count; the characters alone already suffice |
| Options.Apply | jmfts_core/ingest_options.py:632-674 | the merge of one layer succeeds exactly when every group, option and value in it is declared and legal, and then overlays it option by option |
| Options.ResolveOptions | jmfts_core/ingest_options.py:702-752 | defaults, profile, inherited layers root first, overrides; when it refuses, the error names an undeclared group, an undeclared option or an illegal value that some layer does hold |
| Options.MergeOptionLayers | jmfts_core/ingest_options.py:677-699 | merging partial layers with setdefault and update |
| Options.LaterLayersWin | jmfts_core/ingest_options.py:702-752 | each option is what the last layer to set it said, per option and not per group, and otherwise the task's default |
| Options.MergeThenResolveExactly | jmfts_core/ingest_options.py:685-691 | merging then resolving agrees with resolving the layers as inherited if and only if every layer is valid or the merged set is not |
| Options.MergingHidesIllegal | jmfts_core/ingest_options.py:685-691 | a layer that sets 0 under one that sets 60: merged first they resolve, as inherited layers they are refused |
| Options.ResolvedAgainExactly | jmfts_core/ingest_options.py:726-731 | resolving a resolved set is the identity if and only if every default that no layer replaced passes its check |
| Options.ResolvingTwiceExactly | jmfts_core/ingest_options.py:726-731 | of the tables alone: whatever the layers, resolving twice is the identity, if and only if the defaults the profile leaves in place pass their checks |
| Options.IllegalDefaultRefused | jmfts_core/ingest_options.py:755-787 | a table with an illegal default resolves, and refuses its own result |
| Options.UsetypeIsLayer | jmfts_core/ingest_options.py:592-620 | a named entry point's options are one more layer under the request's own |

## Left out

- Splitting.SplitSentences: the abbreviation pattern is a parameter, any test of the piece to the left of a boundary; the boundary and paragraph patterns themselves are modelled.
- Chunker.ChunkText: `max_words` is at least 1, as option validation (jmfts_core/ingest_options.py:224) and the chunk request (jmfts-client/jmfts_client/contracts/document.py:468-470) demand of every caller; the default of `max_chars` and the strategy names are not modelled.
- Alignment.RecutComplete: one way only, as trailing gaps are harmless; `Alignment.RecutExactly` is the exact condition.
- TightCeiling.CeilingSoundExactly: quantifies over `max_chars`. For a given pair of limits the ceiling holds when the smaller is at most 88 and is exceeded in the ranges of `TightCeiling.CeilingExceededBeyond`; for the other pairs whether it holds depends on both, and that is not settled here.
- Alignment.AlignRuns: `block_at` steps back over empty blocks only where the binary search can land on one, which never happens at the offsets it is given; that loop is not written out.
- BatchProvider.CustomIdRoundTrip: ids that Python's `int` accepts beyond plain digits (signs, spaces, underscores, other scripts) are not read.
- BatchRuns.EveryRunIsSafe: assumes ids of tasks and batches are never reused and that a provider answers each request at most once; heartbeats and lease lengths are not modelled, any held row may be reaped at any time. The transactions of the queue are taken one after another, so an update lost between a row's unlocked read and its write is not modelled; nor is a document moved while its tasks hold reservations, the tree being fixed for a run.
- QueueRuns.ReapReopens: of what makes a row claimable its status, its retries and the conflict test are modelled; badges, dependencies between tasks, a document's own tree, the wait before a retry and the order of the queue are not.
- BatchProtocol.PollBatch: embedding a summary, the attempt log and settling the tree afterwards are not modelled; a summary either fits its window or is refused.
- EntityRuns.FactsStayInside: grants on roots and entities are those minting wrote; regranting, moving, creating or deleting any other document is allowed between resolutions. A root is visible to everyone as soon as it is minted and stays, where the source makes a rival wait for the minting transaction and undoes the root with it.
- EntityMentions.MentionsAreResolutions: the rest of the appliance is taken to leave mention links alone; deleting a document with its links is not modelled.
- EntityCopies.CopiesFormClique: similarity is equality of lower-cased names and the candidate limits are not reached. A resolution reads at one moment, where each statement of the source sees what is committed when it starts.
- Access.WideningDescendants: a governed document deleted between its two queries is not modelled.
- Strategies.TokenStrategy: for an overlap of at least 0, as the chunk request (jmfts-client/jmfts_client/contracts/document.py:476-480) demands and other callers leave it; a negative one would skip words.
- Json.BodyRead: a lone surrogate escape is read as U+FFFD, as no Dafny character is a surrogate; limits on nesting and on the digits of a number are not modelled.
- TranscriptNodes.StructureConversation: a turn whose content is not a string stops the task; what the embedding service raises for it is not part of this model.
- Options.Apply: values are opaque to the model but for their checks, a group that is not a mapping cannot be written, and which of several bad options is reported first is left open.
- `effective_text` with `own_content=False`, and the recursive query's SQL beyond its rows and order.
- `anchor_for_rendition_span`, `_located_blocks`, `normalize_for_match` and the OOXML anchors: text normalisation and office formats.
- Predicate resolution, temporal parsing and the extraction prompts around `resolve_entity`.
- The ingest worker's planning, drain loops and retry backoff; of direct workers only their claims, finishes and lost leases take part in the batch protocol.
- PageRank, betweenness, Leiden and MinHash, the search queries, HTTP, the command line and the web interface.
