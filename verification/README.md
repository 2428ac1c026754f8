# Verified model of the retrieval oracles

The accelerator's pruning rules are stated and audited by a family of Python scripts that score sparse, nonnegative
documents against sparse queries. This project models those scripts in Dafny and proves what they are for: that a
traversal which stops early, a block that is skipped, a posting that is dropped or a term that is left unaccelerated
never costs more than the scripts say it does.

The parts, one module a file:

- `Heapq`, `Sums`, `Tables`, `Totals`, `KeyedSums`, `Results`, `Arithmetic` hold the Python idioms the scripts lean on: tuple-ordered
  queues, sums, insertion-ordered dictionaries, stable sorts, exceptions, shifts.
- `Ranking` says what a top-k answer is and that there is only one; `Stopping` says, about the set of documents seen so
  far, when an unseen document no longer matters; `TopKState` is the bounded-heap class that refines that set;
  `ZeroScores` settles what zero scores do to exactness; `Partitions` is top-k by `argpartition`, ties left open;
  `Completion` completes candidates by their exact scores and says when that is exact.
- `Postings`, `Cursors`, `Frontiers`, `BlockFrontiers` and `Hierarchy` are the seven traversals; `Quantization`,
  `BlockSplit` and `Pipeline` build their inputs from a corpus and a query; `Evaluation` runs one query through any
  variant and carries the main theorem, `Evaluation.Evaluate`.
- `CentroidBall`, `CohesiveBlocks` and `SafeLayouts` are the safe block bounds and the coverage they guarantee;
  `BlockMaxima` is the block-candidate accumulator.
- `CenteredExceptions` and `RetainedPostings` are the two lossy encodings with their certified errors.
- `Selection` and `QueryExpansion` are the selection arithmetic and the field expansion of queries.

How the argument of the traversals goes. A document is discharged when it was seen or is dominated by `k` seen
documents by more than the error ratio forgives; seeing more documents never undoes that. Each traversal keeps an
invariant between its cursors, its running upper bound and the seen set, from which the stop test discharges everything
left under the bound. Once every posted document is discharged, padding and ranking what was seen gives an answer that
leaves out nothing beyond the ratio. At ratio zero it is the very list that the full union of the candidates gives: with
`k` positive scores both are the reference list, and with fewer no stop test can pass, so both saw the same documents.
`Frontiers.Answers` is that promise and `Frontiers.Scored` adds that nothing but seeds and posted documents was scored on
the way. `Evaluation.Works` compares the work: no variant admits more documents or decodes more postings than the union.

Some statements hold only under a condition, which is then stated and proved exactly.

- A traversal pads short answers with the lowest unseen ids, so a seen document that scores zero can displace a lower
  one. `ZeroScores.ExactWithoutGap` is the exact condition for one answer size, `Evaluation.ZeroWeightCounterexample` a
  corpus and query that fail it, and `Evaluation.Evaluate` shows that the script's own check on the baseline raises on
  exactly these. All variants fail or succeed together (`ZeroScores.SameAsUnion`).
- The sweep for a baseline starts from a coverage that counts negative values as within tolerance of the missing
  documents: `CenteredExceptions.NegativeValueCounterexample` fails, and `CenteredExceptions.BestBaseline` states when
  the result is still the best. The encoding built on it centers every document whatever the signs.
- Offsets cut through a tie need not be the reference list: `Partitions.TiedScoresCounterexample` fails, and
  `Partitions.ForcedByClearCut` is the exact condition.
- Without a budget of postings the tails read zero: `RetainedPostings.NoBudgetTails` says exactly when that is right. The
  script's arguments never ask for an empty budget.
- Truncated lists never score a document too high exactly when no negative posting was dropped
  (`RetainedPostings.NeverExceedsExactly`); the script does not check the sign of impacts.
- Completing candidates is a heuristic in all three scripts that do it. `Completion.ClearedIsExact` and
  `BlockMaxima.CertifiedIsExact` say from the reported bounds when it cannot have lost anything.
- Merging equal addresses of an expanded query changes it exactly when an atom repeats
  (`QueryExpansion.MergingMatters`).

Inputs the scripts take from elsewhere are parameters: the shape of the matrices, the query, the square root (any
function whose result squares to at least its argument), the step of `nextafter` (any positive `ulp`), and the choices
`argpartition` leaves open.

## Model

| member | source | states |
|---|---|---|
| Heapq.Push | scripts/benchmark_impact_banded_residual_oracle.py:91 | `heappush` keeps the queue ascending and adds exactly the one item |
| Heapq.Sorted | scripts/benchmark_impact_banded_residual_oracle.py:126 | `lexsort` on a key pair ending in distinct ids: ascending, and holding exactly the given items |
| Heapq.AscendingUnique | scripts/benchmark_impact_banded_residual_oracle.py:126 | the sorted order is determined by the set of items, so any two ways of reaching it agree |
| Ranking.RankOrder | scripts/benchmark_impact_banded_residual_oracle.py:126-127 | sorting ids by score descending and id ascending ranks them and keeps exactly them |
| Ranking.TopKIsBest | scripts/benchmark_impact_banded_residual_oracle.py:256-262 | the reference list is the best `min(k, n)` documents in ranking order, every one left out being outranked by all of it |
| Ranking.PrefixIsBest | scripts/benchmark_impact_banded_residual_oracle.py:256-262 | cutting a complete ranking of a pool at `k` gives the answer over that pool |
| Ranking.BestOfUnique | scripts/benchmark_impact_banded_residual_oracle.py:256-262 | two answers over the same pool are the same list, ties included |
| TopKState.ExactTopK.constructor | scripts/benchmark_impact_banded_residual_oracle.py:79-83 | a fresh state has seen nothing and its heap holds the best of nothing |
| TopKState.ExactTopK.Offer | scripts/benchmark_impact_banded_residual_oracle.py:85-94 | adds exactly the document to the seen set, reports whether it was new, and keeps the heap the best `min(k, seen)` of what was seen |
| TopKState.ExactTopK.OfferMany | scripts/benchmark_impact_banded_residual_oracle.py:96-100 | adds exactly the documents and counts the new ones |
| TopKState.OfferedHoldsBest | scripts/benchmark_impact_banded_residual_oracle.py:85-94 | push below capacity and replace above the head both turn the best of a set into the best of the set with one more document |
| TopKState.ThresholdRises | scripts/benchmark_impact_banded_residual_oracle.py:102-106 | once the heap is full the threshold never falls, whatever is offered |
| TopKState.StopTestStays | scripts/benchmark_impact_banded_residual_oracle.py:108-114 | a bound that passed the stop test passes it at every higher threshold, slack included |
| TopKState.StopTestShrinks | scripts/benchmark_impact_banded_residual_oracle.py:651-654 | a smaller bound passes the stop test wherever a larger one does, the relative slack included; so in descending order all that follows a passing block passes too |
| TopKState.ExactTopK.StopDischarges | scripts/benchmark_impact_banded_residual_oracle.py:108-114 | when the stop test passes, every document under the bound loses to `k` seen documents by more than the ratio forgives |
| TopKState.StopMeansLosing | scripts/benchmark_impact_banded_residual_oracle.py:108-114 | a full heap whose positive head, scaled by the ratio, exceeds the bound holds `k` documents that beat anything under it |
| TopKState.ExactTopK.Finish | scripts/benchmark_impact_banded_residual_oracle.py:116-127 | pads with the lowest unseen ids up to `min(k, n)` and returns the best of what is then seen, in ranking order |
| TopKState.ExactTopK.Pad | scripts/benchmark_impact_banded_residual_oracle.py:117-121 | the padding loop stops as soon as the heap is full and takes no id while a lower one is unseen |
| Stopping.DischargedStays | scripts/benchmark_impact_banded_residual_oracle.py:529-546 | offering more documents never revives a discharged one, so what a batch left unresolved may be forgotten |
| Stopping.CompleteIsRatioBounded | scripts/benchmark_impact_banded_residual_oracle.py:108-127 | for every ratio, a traversal that discharged everything leaves out no document above `1 + e` times the k-th returned score |
| Stopping.CompleteIsExact | scripts/benchmark_impact_banded_residual_oracle.py:116-127 | with no error allowed and at least `k` documents that score above zero, the finished list is the reference list, whatever zeros were seen |
| Stopping.CompleteHasBestScores | scripts/benchmark_impact_banded_residual_oracle.py:116-127 | on nonnegative data alone the returned scores equal the reference scores position by position |
| ZeroScores.PaddedIs | scripts/benchmark_impact_banded_residual_oracle.py:117-121 | what padding adds is determined by what was seen: the ids with too few free ids below them to fill the heap |
| ZeroScores.GapIsVisible | scripts/benchmark_impact_banded_residual_oracle.py:1287-1295 | where a candidate that scores zero is good enough to be returned and a lower one that scores zero is neither a candidate nor reached by the padding, the union returns the first, omits the second and is not the reference |
| ZeroScores.ExactWithoutGap | scripts/benchmark_impact_banded_residual_oracle.py:1287-1295 | for each answer size on nonnegative data, the union of the candidates is the reference list if and only if there is no such gap |
| ZeroScores.SameAsUnion | scripts/benchmark_impact_banded_residual_oracle.py:116-127 | with no error allowed, a traversal that discharged every candidate returns the list of the union on all nonnegative data, however early it stopped |
| Evaluation.ZeroWeightCounterexample | scripts/benchmark_impact_banded_residual_oracle.py:1287-1295 | a corpus of two documents and a query of one selected term of weight zero: the only candidate is the second document, the union returns it, the reference list has the first, and the check on the baseline fails |
| Evaluation.PositiveQueryHasNoGap | scripts/benchmark_impact_banded_residual_oracle.py:1287-1295 | when the query's weights and its own terms' impacts are positive, whatever the rest of the corpus holds, no answer size has a gap |
| Postings.ImpactOrder | scripts/benchmark_impact_banded_residual_oracle.py:283-290 | reorders a posting list by descending impact, keeping exactly its postings |
| Postings.ImpactOfSame | scripts/benchmark_impact_banded_residual_oracle.py:283-290 | what a list contributes to a document does not depend on its order |
| Postings.MassBounds | scripts/benchmark_impact_banded_residual_oracle.py:485-503 | what a cursor has not decoded for a document is at most the cursor's head |
| Postings.TotalMassBounds | scripts/benchmark_impact_banded_residual_oracle.py:485-503 | decoded contributions plus the sum of the heads covers every document's full contribution |
| Postings.BlockBoundCovers | scripts/benchmark_impact_banded_residual_oracle.py:61-65 | the sum of the terms' upper bounds covers every document |
| Cursors.StartCursors | scripts/benchmark_impact_banded_residual_oracle.py:475-481 | the queue starts with every cursor under its head and the bound starts at the sum of the heads |
| Cursors.PopPosting | scripts/benchmark_impact_banded_residual_oracle.py:486-503 | one step decodes the posting with the largest head, requeues the cursor, keeps the bound equal to the sum of the heads and nonnegative, and leaves one posting fewer |
| Cursors.NoCursorsLeft | scripts/benchmark_impact_banded_residual_oracle.py:485-503 | an empty queue means every contribution was decoded and the bound is zero |
| Cursors.MassStep | scripts/benchmark_impact_banded_residual_oracle.py:486-503 | a step raises the decoded contribution of exactly one document by exactly the popped amount |
| Cursors.UndecodedStep | scripts/benchmark_impact_banded_residual_oracle.py:485-503 | the number of undecoded postings falls by one a step, which is why the loops end |
| Frontiers.OfferByImpact | scripts/benchmark_impact_banded_residual_oracle.py:475-503 | the eager loop offers posted documents only, discharges every document its blocks bound, and decodes each posting at most once |
| Frontiers.DecodeByImpact | scripts/benchmark_impact_banded_residual_oracle.py:554-585 | the lazy loop offers nothing; each partial score plus the remaining bound covers its document, the bound covers the rest, and a loop that ran out of postings leaves a bound of zero; it decodes each posting at most once |
| Frontiers.Candidates | scripts/benchmark_impact_banded_residual_oracle.py:534-539 | the candidate queue holds exactly the unseen documents under their optimistic scores, and no document that was seen |
| Frontiers.ResolveBoundedCandidates | scripts/benchmark_impact_banded_residual_oracle.py:529-546 | resolving in descending optimistic order until the stop test passes discharges every candidate, and counts what it offered |
| Frontiers.ResolvePartialCandidates | scripts/benchmark_impact_banded_residual_oracle.py:507-526 | the same for partial scores raised by the remaining bound |
| Frontiers.DischargedBlocksAnswer | scripts/benchmark_impact_banded_residual_oracle.py:116-127 | if every posted document is discharged, the finished list keeps the promise `Answers`, whatever way the traversal went: at ratio zero it is the list of the union, and the reference if and only if there is no gap |
| Frontiers.FullResidualUnion | scripts/benchmark_impact_banded_residual_oracle.py:458-467 | scores exactly the seeds and all posted documents, decodes every posting, counts both, and returns the reference list if and only if no gap of zero scores shows at this answer size |
| Frontiers.GlobalImpactFrontier | scripts/benchmark_impact_banded_residual_oracle.py:470-504 | for every ratio the promise `Answers`, having scored only seeds and posted documents, correctly counted |
| Frontiers.GlobalImpactLazyFrontier | scripts/benchmark_impact_banded_residual_oracle.py:549-592 | the same promise, so at ratio zero it returns the very list of the eager form on all nonnegative data |
| BlockFrontiers.OrderedFacts | scripts/benchmark_impact_banded_residual_oracle.py:720-726 | sorting blocks by bound or by id keeps exactly the blocks, and by bound they descend |
| BlockFrontiers.StopDischargesRest | scripts/benchmark_impact_banded_residual_oracle.py:651-654 | in descending order, the first block to pass the stop test discharges every document of all later blocks |
| BlockFrontiers.BlockOnlyFrontier | scripts/benchmark_impact_banded_residual_oracle.py:640-659 | whole blocks by descending bound: the promise `Answers`, candidates only scored and counted |
| BlockFrontiers.BlockImpactFrontier | scripts/benchmark_impact_banded_residual_oracle.py:662-702 | impact order inside blocks: the same promise |
| BlockFrontiers.BlockIsCovered | scripts/benchmark_impact_banded_residual_oracle.py:765-766 | a pending entry of partial score plus the bound left at the stop is enough for every document of the block |
| BlockFrontiers.DecodeBlock | scripts/benchmark_impact_banded_residual_oracle.py:737-775 | one block keeps the invariant that every visited document is discharged or waits under a sufficient bound, also when the batch is flushed and cleared |
| BlockFrontiers.Flush | scripts/benchmark_impact_banded_residual_oracle.py:768-775 | clearing the pending documents after a resolution loses none that matters |
| BlockFrontiers.VisitBlocks | scripts/benchmark_impact_banded_residual_oracle.py:731-775 | breaking in bound order and skipping in document order both cover every block, for every batch size |
| BlockFrontiers.BlockImpactBatchedFrontier | scripts/benchmark_impact_banded_residual_oracle.py:713-782 | for every batch size, zero included, and both orders: the promise `Answers`, candidates only scored and counted |
| BlockFrontiers.BlockImpactLazyFrontier | scripts/benchmark_impact_banded_residual_oracle.py:705-710 | the same promise for batches of one block |
| Hierarchy.RaiseBounds | scripts/benchmark_impact_banded_residual_oracle.py:804-809 | a superblock's bound for a term becomes the larger of what it was and the term's bounds in the new fine block |
| Hierarchy.BuildDirectory | scripts/benchmark_impact_banded_residual_oracle.py:798-809 | every superblock lists exactly the fine blocks shifted to it and holds, term by term, the maximum of their bounds |
| Hierarchy.SuperBoundCovers | scripts/benchmark_impact_banded_residual_oracle.py:804-824 | when a block lists each term once, termwise larger bounds sum to at least the block's bound |
| Hierarchy.SuperDominatesFine | scripts/benchmark_impact_banded_residual_oracle.py:804-824 | a superblock's bound is at least the bound of every fine block below it |
| Hierarchy.PartitionDocuments | scripts/benchmark_impact_banded_residual_oracle.py:801-816 | the superblocks together hold exactly the documents of the fine blocks |
| Hierarchy.SuperPostings | scripts/benchmark_impact_banded_residual_oracle.py:798-816 | the superblocks, in either order, hold no more postings than the fine blocks |
| Hierarchy.StopDischargesSuper | scripts/benchmark_impact_banded_residual_oracle.py:824-828 | a superblock that passes the stop test holds no document that matters, without being opened |
| Hierarchy.RestCovered | scripts/benchmark_impact_banded_residual_oracle.py:823-828 | in descending order the first superblock to pass covers all that follow |
| Hierarchy.HierarchicalBlockImpactFrontier | scripts/benchmark_impact_banded_residual_oracle.py:785-890 | refuses a super shift not above the fine shift, and otherwise keeps the promise `Answers` for every shift pair, batch size and order, candidates only scored and counted |
| Quantization.QuantizeImpactsUp | scripts/benchmark_impact_banded_residual_oracle.py:293-307 | refuses other bit widths on nonempty lists, returns 32-bit lists unchanged, and never bounds a posting below its impact |
| Quantization.QuantizedUpFacts | scripts/benchmark_impact_banded_residual_oracle.py:293-307 | the 8-bit bounds keep the documents and the impact order, exceed the impacts by at least one `ulp`, so that the final maximum never acts, and by at most one scale step and one `ulp` |
| BlockSplit.BlockTermsMass | scripts/benchmark_impact_banded_residual_oracle.py:595-614 | splitting by block keeps every document's total contribution, in the one block it shifts to |
| BlockSplit.BlockTermsDocuments | scripts/benchmark_impact_banded_residual_oracle.py:595-614 | a block posts exactly the posted documents that shift to it |
| BlockSplit.FileTerm | scripts/benchmark_impact_banded_residual_oracle.py:617-637 | filing a term appends exactly its part to each block it touches and leaves every other block alone |
| BlockSplit.QueryBlocks | scripts/benchmark_impact_banded_residual_oracle.py:617-637 | refuses other bit widths, and otherwise files every bounded term's parts under their blocks and nothing else |
| BlockSplit.BlocksAreSafe | scripts/benchmark_impact_banded_residual_oracle.py:617-637 | blocks of exact or 8-bit bounds still cover the exact scores and together post exactly the original documents |
| BlockSplit.BlocksAddNone | scripts/benchmark_impact_banded_residual_oracle.py:617-637 | the blocks of a query together hold no more postings than its terms, at either precision |
| Pipeline.ResidualQueryTerms | scripts/benchmark_impact_banded_residual_oracle.py:430-455 | keeps, in query order, the terms of positive weight with postings that the scope admits |
| Pipeline.UnseededScore | scripts/benchmark_impact_banded_residual_oracle.py:430-455 | outside the seeds a document's exact score is exactly the contribution of the traversed terms |
| Pipeline.ResidualIsSafe | scripts/benchmark_impact_banded_residual_oracle.py:1279-1289 | the traversed terms cover every unseeded document, and one outside them scores zero |
| Pipeline.ScorePositive | scripts/benchmark_impact_banded_residual_oracle.py:1221-1223 | a document scores above zero if and only if some term of the query contributes to it |
| Evaluation.SeedUnion | scripts/benchmark_impact_banded_residual_oracle.py:397-409 | the ascending distinct ids of everything the selected query terms admit |
| Evaluation.BestSeeds | scripts/benchmark_impact_banded_residual_oracle.py:422-427 | the best `min(union, max(k, ceil(fraction * union)))` seeds by partial score |
| Evaluation.SelectedSeedDocuments | scripts/benchmark_impact_banded_residual_oracle.py:387-427 | the whole union, or its best fraction by the score on the selected terms, which leaves no choice in the seeds |
| Evaluation.Prepare | scripts/benchmark_impact_banded_residual_oracle.py:1269-1289 | the seeds and the residual terms of a query meet everything a run relies on |
| Evaluation.BuildBlocks | scripts/benchmark_impact_banded_residual_oracle.py:1345-1349 | the blocks built for a query meet what the block traversals rely on and post the same documents |
| Evaluation.RunVariant | scripts/benchmark_impact_banded_residual_oracle.py:1306-1466 | any variant is refused exactly on the stated inputs and otherwise keeps `Answers` and `Scored`, admitting and decoding no more than there is |
| Evaluation.Run | scripts/benchmark_impact_banded_residual_oracle.py:1285-1466 | one variant on a fresh accumulator keeps `Answers` over its seeds and residual documents; no variant admits more documents or decodes more postings than the union, which admits and decodes all |
| Evaluation.OverlapIsOne | scripts/benchmark_impact_banded_residual_oracle.py:265-267 | two rankings of one length overlap completely if and only if they are the same nonempty list |
| Evaluation.BaselineOverlap | scripts/benchmark_impact_banded_residual_oracle.py:1291 | the full union passes the check if and only if the corpus is not empty and no gap of zero scores shows |
| Evaluation.BaselineIsExact | scripts/benchmark_impact_banded_residual_oracle.py:1285-1291 | running the union and comparing it decides exactly that condition |
| Evaluation.RunChecked | scripts/benchmark_impact_banded_residual_oracle.py:1285-1466 | raises exactly when the variant is refused or the baseline is not exact, and otherwise answers, at ratio zero with the reference list, and with no more work than the baseline |
| Evaluation.Evaluate | scripts/benchmark_impact_banded_residual_oracle.py:1084-1466 | main theorem: for every nonnegative corpus and query, seed rule, variant, shift, batch size, order, bit width and ratio, the script raises exactly on arguments out of range, on refused variants and on a baseline with a visible gap; otherwise the answer ranks `min(k, n)` documents, leaves out none above `1 + e` times the last, at ratio zero is the reference list, and costs no more admitted documents and no more decoded postings than the baseline |
| CentroidBall.CauchySchwarz | scripts/benchmark_cohesive_block_oracle.py:557-565 | the square of a dot product is at most the product of the squared norms |
| CentroidBall.CentroidBallCovers | scripts/benchmark_cohesive_block_oracle.py:551-565 | kept centroid part plus residual product plus norm times radius is at least the exact score of any document in the ball, for any centre, any kept coordinates and any signs |
| CohesiveBlocks.KeyDecodes | scripts/benchmark_cohesive_block_oracle.py:275-288 | `column + block * dimension` decodes to its block and column |
| CohesiveBlocks.ReduceRuns | scripts/benchmark_cohesive_block_oracle.py:279-285 | sort and segment reduction give, under strictly ascending keys, the maximum of every key and nothing else |
| CohesiveBlocks.SparseGroupMaxima | scripts/benchmark_cohesive_block_oracle.py:258-296 | the result is the naive maximum for every block and column that occurs, each once, whatever the signs |
| CohesiveBlocks.CoordinateMaxCovers | scripts/benchmark_cohesive_block_oracle.py:539-543 | a nonnegative query scores a block's maxima at least as high as any document of the block |
| CohesiveBlocks.BallCoversBlock | scripts/benchmark_cohesive_block_oracle.py:351-380 | the radius taken from the largest distance puts every document of the block in the ball, so the bound covers it |
| CohesiveBlocks.KeptDocuments | scripts/benchmark_cohesive_block_oracle.py:566-581 | the candidates of a term are exactly the documents at a position whose block's bound passes the test |
| CohesiveBlocks.CandidateDocuments | scripts/benchmark_cohesive_block_oracle.py:536-587 | the candidates are exactly the documents some term keeps |
| CohesiveBlocks.CoverageOf | scripts/benchmark_cohesive_block_oracle.py:588-604 | the loops compute the share of active top documents that are candidates, one when none is active |
| CohesiveBlocks.CoveredWhenKept | scripts/benchmark_cohesive_block_oracle.py:588-604 | that share is one if and only if no active top document is missed |
| CohesiveBlocks.ActiveTopKCoverage | scripts/benchmark_cohesive_block_oracle.py:506-612 | the candidates are exactly the documents some layout keeps against the last top score, the coverage is their share, and with safe bounds it is one and every active top document is kept, whichever tied documents `argpartition` chose |
| SafeLayouts.ChunkOf | scripts/benchmark_cohesive_block_oracle.py:263-267 | the document at a position lies in the block that the position divided by the block size names |
| SafeLayouts.SelectedRow | scripts/benchmark_cohesive_block_oracle.py:268-279 | row `i` of the selected documents scores as the `i`-th document of the term does |
| SafeLayouts.CoordinateLayout | scripts/benchmark_cohesive_block_oracle.py:436-441 | each block's bound is the query on its coordinate maxima, and no document exceeds its block's bound |
| SafeLayouts.CentroidBalls | scripts/benchmark_cohesive_block_oracle.py:299-398 | one ball a block, around the mean document with the largest distance as radius, holding all documents of the block |
| SafeLayouts.BallLayout | scripts/benchmark_cohesive_block_oracle.py:551-565 | each block's bound is that of the ball around its mean document, and no document exceeds its block's bound |
| SafeLayouts.EvaluateCoordinateMax | scripts/benchmark_cohesive_block_oracle.py:984-999 | the candidates are what bounds from each block's coordinate maxima keep, and their coverage is one for every corpus, nonnegative query, term set, block size and choice among ties, so the script never raises |
| SafeLayouts.EvaluateCentroidBall | scripts/benchmark_cohesive_block_oracle.py:984-999 | the same with the bounds of centroid balls, whatever coordinates are stored and whatever the signs |
| BlockMaxima.BlockRange | scripts/benchmark_document_block_candidate_oracle.py:251-255 | a document shifts to a block if and only if it lies between the block's left-shifted ends |
| BlockMaxima.RunsHoldMaxima | scripts/benchmark_document_block_candidate_oracle.py:210-219 | ascending rows give strictly ascending run heads, each with the maximum of its block |
| BlockMaxima.FancyAddAt | scripts/benchmark_document_block_candidate_oracle.py:221 | with distinct block ids the indexed addition adds each block's maximum once and loses nothing |
| BlockMaxima.AccumulateBlockMaxima | scripts/benchmark_document_block_candidate_oracle.py:189-223 | each block's score is the sum over terms of positive weight times the term's largest value in the block |
| BlockMaxima.BlockScoreCovers | scripts/benchmark_document_block_candidate_oracle.py:189-223 | a block's score is at least the exact score of every document in it, for any real weights |
| BlockMaxima.BlockCountCovers | scripts/benchmark_document_block_candidate_oracle.py:293 | the block count leaves room for the block of every document |
| Partitions.OffsetsHaveBestScores | scripts/benchmark_document_block_candidate_oracle.py:43-50 | however `argpartition` breaks ties, the offsets carry the reference scores position by position |
| Partitions.ForcedByClearCut | scripts/benchmark_document_block_candidate_oracle.py:43-50 | every choice `argpartition` may make gives the reference list if and only if each reference document scores strictly more than each document left out of it |
| Partitions.TiedScoresCounterexample | scripts/benchmark_document_block_candidate_oracle.py:43-50 | of two equal scores `argpartition` may choose the second, and then the offsets are not the reference list |
| Completion.CutHasBestScores | scripts/benchmark_retained_impact_oracle.py:375-376 | any descending list of `min(k, n)` documents that no other document beats has the reference scores position by position |
| Completion.CompleteCandidates | scripts/benchmark_retained_impact_oracle.py:377-379 | scoring the candidates exactly and cutting at `k` gives the best of them by descending score |
| Completion.CompletionIsCut | scripts/benchmark_retained_impact_oracle.py:377-379 | when no document outside the candidates beats one of the completed list, that list has the reference scores |
| Completion.FarAheadIsKept | scripts/benchmark_retained_impact_oracle.py:375-376 | a document ahead of the m-th best exact score by more than a gap the approximate scores keep is among their first `m` |
| Completion.TopIsKept | scripts/benchmark_retained_impact_oracle.py:374-386 | where the depth clears the gap every exact top document is a candidate, whichever of tied ones was taken |
| Completion.ClearedIsExact | scripts/benchmark_retained_impact_oracle.py:358-386 | where the depth clears the gap the candidates cover the whole top list and the completed list has the reference scores |
| Completion.EvaluateQuery | scripts/benchmark_retained_impact_oracle.py:370-386 | one query: the exact top list, the candidates at `min(k * multiplier, n)`, how many of the first are among the second, and the completed list |
| BlockMaxima.BlockCandidates | scripts/benchmark_document_block_candidate_oracle.py:226-259 | the selected blocks are distinct, positive and the best of the wanted number; the candidates are each once exactly their documents in range; a target of zero gives none |
| BlockMaxima.ExcludedIsOutscored | scripts/benchmark_document_block_candidate_oracle.py:226-259 | no excluded document's exact score exceeds the bound of a selected block, and it is at most zero when fewer blocks than wanted were positive |
| BlockMaxima.CertifiedIsExact | scripts/benchmark_document_block_candidate_oracle.py:343-354 | if there are `min(k, n)` completed documents and each scores at least some selected block, or at least zero when fewer blocks were positive than wanted, the completed list has the reference scores |
| BlockMaxima.EvaluateBlocks | scripts/benchmark_document_block_candidate_oracle.py:293-354 | one query from block scores to completed list: the candidates are the documents of the best positive blocks, no other document scores above a selected block, and a certified completion has the reference scores |
| CenteredExceptions.WindowsBoundCount | scripts/benchmark_centered_exception_oracle.py:63-72 | no baseline covers more values than the widest window the sweep saw |
| CenteredExceptions.BestWindow | scripts/benchmark_centered_exception_oracle.py:57-73 | the sweep with two indices stays at its start or takes a widest window, of those the one with the least middle, and attains what it reports |
| CenteredExceptions.BestBaseline | scripts/benchmark_centered_exception_oracle.py:48-73 | refuses bad inputs; for values of any sign the reported coverage is attained by the baseline and is the most any real baseline covers, missing documents counting as zero, if and only if no value is negative or some window beats the start |
| CenteredExceptions.NegativeValueCounterexample | scripts/benchmark_centered_exception_oracle.py:57-73 | on the value -1 among two documents with tolerance 0.5 every run of the sweep returns baseline 0.5 and coverage 2, although that baseline covers one document |
| CenteredExceptions.SweptReachesZero | scripts/benchmark_centered_exception_oracle.py:57-73 | a baseline that cannot stand for a missing document is only chosen when no document is missing |
| CenteredExceptions.ExceptionCorrects | scripts/benchmark_centered_exception_oracle.py:102-117 | baseline plus exception reproduces every document outside the tolerance exactly, missing documents included, and the rest have no exception |
| CenteredExceptions.ExceptionCount | scripts/benchmark_centered_exception_oracle.py:102-120 | a term has exactly as many exceptions as documents not covered by its baseline |
| CenteredExceptions.EncodingIsWorth | scripts/benchmark_centered_exception_oracle.py:88-120 | for values of any sign an encoded column stands for every document within its tolerance and its exceptions number the documents its baseline does not cover; they number the documents less the reported coverage, and no baseline needs fewer, if and only if the sweep is sound |
| CenteredExceptions.BuildCenteredExceptions | scripts/benchmark_centered_exception_oracle.py:76-138 | refuses an empty document set; every column gets the ratio times its largest magnitude as tolerance, the sweep's baseline, the exceptions at that baseline, and all that such an encoding is worth |
| CenteredExceptions.CenteredErrorBound | scripts/benchmark_centered_exception_oracle.py:209-224 | one constant for the query brings every document's approximate score within the reported bound of its exact score |
| CenteredExceptions.FarApartKeepOrder | scripts/benchmark_centered_exception_oracle.py:209-224 | documents whose exact scores differ by more than twice the bound are never swapped |
| CenteredExceptions.CenteredKeepsGaps | scripts/benchmark_centered_exception_oracle.py:209-224 | the approximate scores of a query keep every gap between exact scores that exceeds twice the bound |
| CenteredExceptions.EvaluateCentered | scripts/benchmark_centered_exception_oracle.py:209-257 | one query through the encoding, values and weights of any sign: where the k-th best score is ahead of the one at the depth of the candidates by more than twice the reported bound, every top document is a candidate and the completed list has the reference scores |
| RetainedPostings.BuildRetained | scripts/benchmark_retained_impact_oracle.py:144-193 | each list keeps its best postings up to the count and reports the largest impact it dropped, or zero, for impacts of any sign |
| RetainedPostings.SelectThreshold | scripts/benchmark_retained_impact_oracle.py:232-235 | the threshold is a value with fewer than `target` values above it and at least `target` values at or above it |
| RetainedPostings.TrimExcess | scripts/benchmark_retained_impact_oracle.py:251-265 | trimming removes exactly the excess and only postings tied with the threshold |
| RetainedPostings.BuildGlobalThreshold | scripts/benchmark_retained_impact_oracle.py:196-301 | for impacts of any sign, the kept total is the target, or all that the list cap leaves when that is less; only ties are trimmed; each tail is the largest dropped impact, or zero |
| RetainedPostings.StrictLossIsCap | scripts/benchmark_retained_impact_oracle.py:245-265 | a posting strictly above the threshold is lost only to a full list of postings at least as good |
| RetainedPostings.NoBudgetTails | scripts/benchmark_retained_impact_oracle.py:211-221 | with no budget the zero tails are right if and only if no posting is positive; with a positive count per term, the only one the script's arguments admit, there were no postings at all |
| RetainedPostings.RaisesNone | scripts/benchmark_retained_impact_oracle.py:144-193 | truncation raises no document above its exact impact if and only if no dropped posting is negative |
| RetainedPostings.OmittedScoreBound | scripts/benchmark_retained_impact_oracle.py:483-484 | for impacts of any sign an approximate score falls short of the exact one by at most the weighted sum of the tails, unless a negative weight meets a list that lost something; it never exceeds the exact one where nothing negative was dropped |
| RetainedPostings.NeverExceedsExactly | scripts/benchmark_retained_impact_oracle.py:480-484 | no query of nonnegative weights scores a document above its exact score if and only if no list dropped a negative posting |
| RetainedPostings.TruncationKeepsGaps | scripts/benchmark_retained_impact_oracle.py:480-484 | the approximate scores keep every gap between exact scores that exceeds the tail bound |
| RetainedPostings.EvaluateRetained | scripts/benchmark_retained_impact_oracle.py:456-515 | one query over the lists of either strategy: where nothing negative was dropped and the k-th best score is ahead of the one at the depth of the candidates by more than the reported bound, every top document is a candidate and the completed list has the reference scores |
| Selection.Exchange | scripts/benchmark_seismic_npz_oracle.py:442-454 | the exchange argument: against any selection, a prefix gains, counting every term as its excess over the frequency at the cut |
| Selection.SelectPrefix | scripts/benchmark_cohesive_block_oracle.py:152-175 | at least one term, by descending frequency and ascending id; for a positive mass no selection of fewer terms reaches the target, and none of as many holds more; a mass above one raises |
| Selection.SelectAcceleratedTerms | scripts/benchmark_seismic_npz_oracle.py:427-456 | the same after refusing a mass outside `(0, 1]`; without postings nothing is selected and the mass is one |
| Selection.SelectHighDfTerms | scripts/benchmark_retained_impact_oracle.py:111-129 | the same without the check; without postings the caller's default mass is reported |
| Selection.KeptMassMonotone | scripts/benchmark_seismic_npz_oracle.py:396-402 | a larger cap keeps at least the mass, which is what bisection needs |
| Selection.RetainedPostingMass | scripts/benchmark_seismic_npz_oracle.py:409-424 | refuses a cap below one; the mass lies in `[0, 1]` and is one if and only if no list is longer than the cap |
| Selection.PostingCapForMass | scripts/benchmark_seismic_npz_oracle.py:372-406 | the least cap not below the minimum whose mass reaches the target, also when the minimum exceeds every list, with the mass that `retained_posting_mass` reports for it |
| QueryExpansion.AddressDecodes | scripts/benchmark_forward_bound_projection.py:139-149 | an atom and a field give an address in range that determines both |
| QueryExpansion.AddressIsOnto | scripts/benchmark_forward_bound_projection.py:139-149 | every address in range belongs to an atom and a field |
| QueryExpansion.ExpandAtoms | scripts/benchmark_forward_bound_projection.py:128-149 | refuses unequal lengths and atoms outside the contract, and otherwise repeats every atom in every field |
| QueryExpansion.WeightSorted | scripts/benchmark_forward_bound_projection.py:151 | sorting moves no weight between addresses |
| QueryExpansion.MergeRuns | scripts/benchmark_forward_bound_projection.py:152-157 | merging adds up equal addresses, keeps the weight of every address range, and leaves a strictly ascending list alone |
| QueryExpansion.ExpandQuery | scripts/benchmark_forward_bound_projection.py:118-161 | strictly ascending addresses, exactly those of the query's atoms, each with its atom's summed weight, all of them the field count times the query's weight |
| QueryExpansion.SortIsStable | scripts/benchmark_page_native_block_cost.py:94 | sorting keeps the entries of every address in their order |
| QueryExpansion.ExpandQueryUnmerged | scripts/benchmark_page_native_block_cost.py:60-98 | the same refusals; ascending addresses in range, at each of them one entry for each occurrence of its atom with that occurrence's weight, in query order |
| QueryExpansion.UnmergedUnique | scripts/benchmark_page_native_block_cost.py:60-98 | that description leaves one list only |
| QueryExpansion.ExpandedDistinct | scripts/benchmark_page_native_block_cost.py:77-93 | addresses repeat if and only if an atom does |
| QueryExpansion.MergingMatters | scripts/benchmark_forward_bound_projection.py:118-161 | the two variants agree if and only if no atom repeats or there are no fields |

## Left out

- Rounding: scores, impacts, norms and weights are exact reals; `nextafter` is modelled in its conservative direction only, as adding a positive step, and the snap of tiny negative running bounds to zero never applies.
- CentroidBall.CentroidBallCovers: vectors are dense where the script stores them sparsely; the sums are the same.
- Square roots: any nonnegative number whose square is at least the argument stands for one.
- Heap layout: the binary heaps are sequences in ascending order; which item is at the head is the same, their inner layout is not modelled.
- Candidate and dictionary order: the order in which entries of an unordered dictionary enter the candidate queue is arbitrary here, because the queue orders them.
- Evaluation.Evaluate: the corpus and the query are taken as having passed the check on signs made when they are loaded, the selected terms are a parameter, batch sizes are natural numbers, and all refusals are one outcome.
- Counters: admitted documents and decoded postings are bounded by the baseline's; metadata counts are computed but not specified.
- RetainedPostings.BuildRetained: ties at the cut go by document id, where `argpartition` may take any of the tied postings; the tail maxima and the error bound do not depend on it.
- RetainedPostings.OmittedScoreBound: bounds the shortfall for negative weights only where nothing but zeros was dropped, because there a positive tail bounds from the wrong side; it states the bound for the selected terms; the residual part is the same in both scores.
- SafeLayouts.CentroidBalls: which centroid coordinates are stored is a parameter rather than the largest ones, since the bound holds for every choice.
- Signature hashing: the document order inside a term is arbitrary, since no claim depends on it.
- The bounded-candidate execution of the cohesive script, `retain_row_topk`, `residual_documents` and `evaluate_bounded_layout`: heuristic, with no promise of exactness to prove.
- Nearest-rounding and fixed 8-bit authorities: deliberately lossy baselines whose error the scripts only measure.
- Selection.SelectPrefix: `cumsum` followed by `searchsorted` is one loop over the descending order.
- QueryExpansion.ExpandQuery: parsing the encoder's reply and the conversions to `int` and `float` are not modelled.
- The C engine, its storage, logging and visibility rules, the PostgreSQL drivers and the Seismic library: their sources are not part of this model.
- Ranking metrics, latency, memory estimates, reports and argument parsing: they carry no claim about the retrieval logic.
