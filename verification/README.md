# Verified model of the Mittens dispatch core

This Dafny project models the optimisation and record-keeping core of the carrier dispatch engine and proves what the
engine relies on: that the exact matcher commits what passes the profit filter of a largest, then best selection, with
prices that certify it, and exactly when its total is the best of all; that the numerical kernels compute the objects
they are named after; that the greedy selections have their approximation ratios; that learned value functions stay
concave; and that the journals, the stream buffer and the fleet state keep their books over every run.

`dafny verify dfyconfig.toml` checks everything. Floating-point numbers are modelled as exact reals; `math.Sqrt`, the
hash function, number formats, clocks and node naming are parameters.

## How the files fit together

| files | what they model |
|---|---|
| `Assignments`, `LapPhase`, `LapSolver`, `Lap`, `PartialAssignments` | the rectangular assignment solver on its arrays, its duals, pruning, and what a sentinel buys |
| `Dispatch`, `PayoutMatrix`, `ExactChoice`, `MatchingTotals`, `ExactMatcher` | the exact matcher: payout matrix, what is chosen, when its total is the best, and the call of the solver with the way back |
| `GreedySelection`, `SlotSets`, `GreedyMatcher`, `Relay` | greedy matching and relay selection as one greedy principle |
| `LinearAlgebra`, `GramMatrices`, `RowMajor`, `DenseMatrix`, `CholeskyFactor`, `Cholesky` | dense matrices in one flat array, Cholesky factorisation and solves |
| `GaussianBelief`, `Folds`, `Ckg` | rank-one Gaussian updates and the knowledge-gradient object |
| `Simplex`, `Beliefs`, `TransitionMatrices`, `HiddenPaths`, `BeliefFilters`, `StateNames` | simplex kernels, named distributions, the Bayes filter as a sum over hidden paths, and what it makes of foreign state names |
| `Rng`, `ChildSeeds`, `Shuffle`, `Generator` | SplitMix64, child seeds, Fisher-Yates |
| `ValueSlopes`, `VfaTables`, `VfaLearner` | concave slopes, their clearing update, and learning from duals |
| `JournalProtocol`, `MemoryJournal` | the lock-free journal, as a step system and as an object |
| `JournalRecords`, `JournalStore` | sealed records, hash chains, and the copy-on-write store |
| `StreamBuffers`, `Synchronizer` | ingestion buffer and merge into a new fleet state |
| `Fleet`, `Resources`, `Transitions`, `Actions` | fleet state, its transition, and feasibility |
| `Wrappers`, `RealSums`, `RealProducts`, `Pigeonhole`, `Sorting`, `Keyed` | shared foundations: sums, counting, sorting, and lists with their tables and position maps; sorting is specified as the library's sort is: a permutation with no element before a smaller one |

## Where the code and its description part

Each is stated by lemmas: an input on which the description fails, and the exact condition under which it holds.

- The exact matcher is documented as a global optimum. Whatever the scores, it collects the best total of all one-to-one
  selections exactly when the solver's complete assignment is also optimal with losses counted as nothing and, where
  losses are allowed, none of them is committed (`BestTotalIff`; before the call, `AlwaysBestTotalIff` and
  `BestTotalForeseen`); so whenever every driver-load pair is a candidate and no score is negative
  (`AllPairsGiveBestTotal`). In general it goes for the number of pairs first and for their total second, and then drops
  what does not pass the profit filter (`ChosenIsPassingPart`): one arc worth 10 that blocks two worth 1 each leaves a
  total of 2 (`LargestNeedNotBeBest`); of a gain and a loss that do not compete, with losses barred, the gain alone is
  committed, which is the best total and not the most pairs (`LossIsDropped`, `ChosenIsLargestIff`).
- The totals of a matching read as those of its flagged evaluations. Flags that arrive set are copied, so they are
  exactly when what arrived flagged and was not selected totals zero (`MarkedTotals`).
- Pruning negative pairs after solving does not give the best partial matching on mixed-sign matrices
  (`PrunedIsNotBestInGeneral`). It does exactly when the solution is also optimal for the matrix with its losses replaced
  by zero (`PrunedIsBestIff`), so whenever there are none (`PrunedIsBestWithoutLosses`).
- Candidates for relays are ordered by net value, load and drivers, but not by hub: between two hubs that tie, the
  arrival order of the concurrent evaluations decides (`HubTieIsArrivalDependent`). The selection is reproducible exactly
  when no two candidates share a key that a pass over the sort keys alone picks (`ReproducibleIffKeysSettle`), so
  whenever different candidates have different keys (`DistinctKeysAreReproducible`).
- `Cholesky` is documented to reject non-symmetric input; it never reads above the diagonal and factors the mirrored
  lower triangle. The factor reproduces the input exactly when the input is symmetric (`FactorOfSymmetric`,
  `AsymmetricIsAccepted`).
- Updates are documented as conditioning; two observations that are telling, each alone and after the other, commute
  (`UpdatesCommute`). At or below the variance cut-off an update does nothing, so without noise the order can matter
  (`NoiselessOrderMatters`); `UpdatesCommuteIff` says of any two observations when it does.
- `UpdateBayesian` cuts off on the total variance, `ValueOfInformation` on its square root, both at 1e-15: in between,
  a change is promised that no update makes (`RevisionExplainsExactly`, `RevisionWithoutUpdate`).
- `Intn` is documented as uniform. An index is drawn from one stretch of the 2^32 upper halves (`DrawnFromStretch`,
  `DrawCount`), and the stretches are equally long exactly when the bound divides 2^32 (`EvenIffDivides`); with a bound
  of 3 they are not (`ThreeIsUneven`).
- Child generators are documented as independent per branch; the branch factor is even, so two branches share a child
  exactly when they agree on their lower 63 bits (`BranchesCollide`), as 0 and 2^63 do (`TopBranchCollides`).
- A region first updated with a negative dual, or padded after a negative last slope, starts from rising slopes
  (`StartIsConcave`). The update still ends concave, but need not end at the closest concave sequence
  (`UpdateIsNotAlwaysClosest`). It does exactly when no rise among the other starting slopes crosses the smoothed value
  (`UpdateIsClosestIff`); a first negative dual is safe at levels 0 and 1, and at a higher level exactly when the value
  learned is no lower than the starting slope before it (`FreshNegativeIsClosestIff`).
- The record payload joins its fields with `|` without escaping. A record has a twin with the same payload and other
  fields exactly when one of its own text fields contains the separator (`SeparatorsCollide`); otherwise every change is
  noticed, whatever it is changed into (`TamperEvidentIff`, `PayloadDeterminesFields`). The last hash determines the
  whole chain exactly when no such field contains it, save a run's name that reads only one way (`ChainIsDeterminedIff`).
- Batches are documented as buffered atomically; an invalid item stops the batch and leaves the items before it buffered
  (`FirstPingStays`, `FirstTenderStays`). A refused batch leaves every buffer as it was exactly when its first item is the
  invalid one (`PingBatchIsAtomicIff`, `TenderBatchIsAtomicIff`).
- The lock is taken for each item, so a drain may also come in between two items of an accepted batch. It then sees
  nothing of the batch or all of it exactly when it comes first or the rest of the batch changes nothing
  (`DrainSeesWholePingBatchIff`, `DrainSeesWholeTenderBatchIff`); two drivers' pings are split (`DrainSplitsPings`).
- The out-of-order test for pings sees only the buffer: a late ping is ignored before a drain and applied after it
  (`LatePingAfterDrain`). Over a run with any number of drains a driver ends where the newest ping puts it exactly when no
  earlier drain handed over a newer ping than the one merged last (`DrainsDoNotMatterIff`, `LastMergedDecides`).
- Refreshing a driver leaves alone what the ping does not mention, but always resets its hours-of-service rules
  (`RunRefreshes`), so a driver with rules of its own loses them with its first ping (`RulesAreLost`).
- A transition matrix may hold entries down to -1e-15, and the filter cuts off what they predict (`JitterIsCut`). The
  forward weights sum over all hidden paths exactly when no negative mass that met a positive likelihood was cut off
  (`ForwardSumsPathsIff`).
- The filter matches a prior's masses to states by position and does not consult the prior's own state names
  (`MassesGoByPosition`). All filters over given states read a prior as its names say exactly when every state with mass
  has the same place in both lists (`NamesAreHonouredIff`).

## Model

| member | source | states |
|---|---|---|
| Lap.SolveLAP | pkg/math/lap.go:47-265 | Fails exactly on an empty or ragged matrix. Otherwise the assignment before pruning matches the whole shorter side and no complete one weighs more, or less when minimising, wide or tall; the returned duals certify it and sum to its weight; the returned rows are its rows, but for those of negative pairs where a maximisation bars losses, which are idle; the two tables are mutually inverse, with their own total and count. The column loops are passed at most n(n+1)/2 times, n the shorter side. |
| LapSolver.AugmentRow | pkg/math/lap.go:112-164 | One phase: from rows 1..i-1 matched with feasible prices, tight on the matching, zero on free columns and not positive on any, to the same for rows 1..i, in at most i passes over the columns. |
| LapPhase.FreeColumnExists | pkg/math/lap.go:120-153 | The search always has a free column left to reach, because the rows being served cannot fill all columns. |
| LapPhase.TreeGrows | pkg/math/lap.go:126-151 | A pass of scan and price shift keeps the search tree: all reduced costs non-negative once the first shift happened, tree arcs tight, links leading back to the root, signs of the column prices, and the reached column tight. |
| LapPhase.LaterShiftsAreNonNegative | pkg/math/lap.go:123-147 | Every shift of a phase but the first is non-negative. |
| LapSolver.Flip | pkg/math/lap.go:156-163 | Walking the predecessor links back to column 0 terminates and yields a matching that serves one more row. |
| Lap.Extract | pkg/math/lap.go:167-198 | The 0-indexed tables are the solver's choices, read in the right direction when the problem was transposed. |
| Lap.Prune | pkg/math/lap.go:201-220 | Drops exactly the negative pairs when losses are barred, keeps the two tables inverse, and totals what is left. |
| Assignments.CertifiedIsOptimal | pkg/math/lap.go:28-31 | Weak duality: prices that cover every entry, are tight on a complete assignment and vanish where the longer side is idle prove it optimal and sum to its weight. |
| PartialAssignments.CompleteIsLargest | pkg/math/lap.go:70-77 | A complete assignment has as many pairs as the shorter side, and no one-to-one assignment has more. |
| PartialAssignments.PrunedIsBestIff | pkg/math/lap.go:200-220 | Pruning a complete assignment leaves the best of all one-to-one assignments, complete or partial, exactly when it was optimal for the matrix with losses replaced by zero. |
| PartialAssignments.PrunedIsBestWithoutLosses | pkg/math/lap.go:200-220 | So without negative entries the pruned optimum is the best of all. |
| PartialAssignments.PrunedIsNotBestInGeneral | pkg/math/lap.go:200-220 | On a concrete mixed-sign matrix every pruned optimum is worse than some partial assignment. |
| PartialAssignments.LexicographicOptimum | internal/domain/policy/matcher.go:212-219 | With scores of either sign in a range whose full set of widths stays below the sentinel, a best complete assignment stripped of sentinel pairs matches as many candidate pairs as possible and among those has the best total. |
| PayoutMatrix.BuildPayout | internal/domain/policy/matcher.go:212-231 | Every cell holds the best score among the candidates for that driver and load, or the sentinel, and the index map finds that candidate. |
| PayoutMatrix.EntryIsHighestScore | internal/domain/policy/matcher.go:212-231 | Cell (i, j) is the highest score of driver i and load j, and position i * columns + j leads to the first candidate that has it; or it is -1e9 and no candidate scores above that. |
| ExactMatcher.SolveExact | internal/domain/policy/matcher.go:173-319 | The chosen candidates are a one-to-one selection that passes the profit filter. There are as many matches as chosen ones; each chosen one has its match, with its driver, its load, the call's epoch and its net value, and the matches are in strict driver order. The evaluations come back unchanged but for the flags of the chosen ones; the objective is the sum of their scores and the net total the sum of the matches' contributions; the duals support the selection. Whatever the scores, its total is the best of all one-to-one selections exactly when the solver's complete assignment is also optimal with losses counted as nothing and, where losses are allowed, commits none. With scores of either sign whose range, times the size of a full matching, stays below the sentinel, it is the part that passes the filter of a selection that is largest and, among those, of greatest total; a score at the sentinel or below is no candidate. |
| ExactChoice.ChosenRowByRow | internal/domain/policy/matcher.go:271-304 | Row by row: what is chosen stands where the unpruned assignment put the row and scores above -999999999, and above 0 where losses are barred; and every row whose cell does is chosen. |
| Dispatch.SortedMatches | internal/domain/policy/matcher.go:162-167 | Putting the matches in order changes neither what they name nor what they add up to. |
| Sorting.IdLessIff | internal/domain/policy/matcher.go:126-136 | The order of identifiers is the lexicographic one: at the first difference the smaller character, or the end, comes first. |
| ExactChoice.ChosenIsPassingPart | internal/domain/policy/matcher.go:271-304 | On such scores the selection read back is what passes the profit filter of a selection that is at least as large as any one-to-one selection of candidates and, at equal size, scores at least as much; whether losses are barred or not. |
| ExactChoice.ChosenIsLargestIff | internal/domain/policy/matcher.go:271-304 | It is such a selection itself exactly when every arc of that selection passes. |
| MatchingTotals.BestTotalIff | internal/domain/policy/matcher.go:234-304 | For all scores and both modes: what is committed has the best total of all one-to-one selections, of whatever size, exactly when the complete assignment is optimal for the payout matrix with losses replaced by zero and, where losses are allowed, commits none. |
| MatchingTotals.AlwaysBestTotalIff | internal/domain/policy/matcher.go:234-304 | Before the solver is called: every answer it may give has the best total exactly when every best complete assignment of the payout matrix meets that condition. |
| ExactMatcher.BestTotalForeseen | internal/domain/policy/matcher.go:180-304 | Then the matcher, whose evaluations have only one payout matrix, commits the best total. |
| MatchingTotals.AllPairsGiveBestTotal | internal/domain/policy/matcher.go:17-19 | So always when every driver-load pair is a candidate and no score is negative. |
| MatchingTotals.LargestNeedNotBeBest | internal/domain/policy/matcher.go:17-19 | On three concrete arcs the matcher always collects 2, where a single arc scores 10. |
| MatchingTotals.BlockingScoresFit | internal/domain/policy/matcher.go:212-219 | Those three scores are well within what the sentinel allows. |
| MatchingTotals.LossIsDropped | internal/domain/policy/matcher.go:281-283 | Of a gain of 10 and a loss of 5 that do not compete, with losses barred, exactly the gain is committed: the best total, not a largest selection, and no selection is both. |
| MatchingTotals.OneLossFits | internal/domain/policy/matcher.go:212-219 | Those two scores are within what the sentinel allows. |
| ExactMatcher.DualsSupport | internal/domain/policy/matcher.go:257-269 | The exported driver and load prices cover every candidate's score and are tight on the selected ones. |
| Dispatch.MarkedTotals | internal/domain/policy/matcher.go:249-303 | The objective and net totals equal the sums over the evaluations flagged as assigned exactly when the scores, and nets, that arrived flagged and were not selected sum to zero; so whenever none arrives flagged. |
| GreedySelection.GreedyRatio | internal/domain/policy/relay_synthesizer.go:195-204 | Taking candidates in descending weight whenever their resources are free collects at least 1/r of any compatible set, when each needs at most r resources. |
| GreedySelection.GreedyIsMaximal | internal/domain/policy/matcher.go:144-167 | Every candidate is blocked by a selected one that weighs at least as much. |
| GreedyMatcher.SolveGreedy | internal/domain/policy/matcher.go:117-170 | Goes through the evaluations by score descending, then driver, then load, and chooses exactly those that pass the profit filter and share no driver and no load with an earlier chosen one. Match x names the driver and load of the x-th chosen one, the call's epoch and its net value; the evaluations come back in that order, unchanged but for the flags of the chosen ones; the objective is the sum of their scores and the net total the sum of the matches' contributions. |
| GreedyMatcher.GreedyIsOneToOne | internal/domain/policy/matcher.go:141-156 | No driver and no load is matched twice. |
| GreedyMatcher.GreedyIsHalfOptimal | internal/domain/policy/matcher.go:117-170 | With losses barred, any one-to-one selection scores at most twice the greedy total. |
| GreedyMatcher.MatchingIsHalfOptimal | internal/domain/policy/matcher.go:117-170 | The same of what the matcher returns: no one-to-one selection scores more than twice its objective. |
| GreedyMatcher.GreedyIsStable | internal/domain/policy/matcher.go:144-156 | Every profitable candidate competes with a match that scores at least as much. |
| GreedyMatcher.MatchingIgnoresInputOrder | internal/domain/policy/matcher.go:126-167 | Matched drivers, loads and scores do not depend on the order the evaluations came in. |
| Relay.SelectRelays | internal/domain/policy/relay_synthesizer.go:176-204 | Goes through the candidates by net value descending, then load, first driver and second driver, and selects exactly those that share neither driver nor load with an earlier selected one, whatever order they arrived in. |
| Relay.RelaysAreThirdOptimal | internal/domain/policy/relay_synthesizer.go:190-204 | No driver or load is reused, and the selection's net values sum to at least a third of those of any non-conflicting selection. |
| Relay.SelectionIgnoresArrivalOrder | internal/domain/policy/relay_synthesizer.go:176-188 | Loads, drivers and net values of the selection do not depend on the arrival order. |
| Relay.ReproducibleIffKeysSettle | internal/domain/policy/relay_synthesizer.go:176-204 | The whole selection is independent of the arrival order exactly when no two candidates share a key that the greedy pass over the sort keys alone picks. |
| Relay.DistinctKeysAreReproducible | internal/domain/policy/relay_synthesizer.go:176-204 | When different candidates have different keys, there is only one selection whatever order they arrived in. |
| Relay.HubTieIsArrivalDependent | internal/domain/policy/relay_synthesizer.go:176-188 | Two hubs that tie on everything compared: the selection depends on arrival. |
| DenseMatrix.Matrix.Set | pkg/math/matrix.go:93-98 | Writing one cell of the flat array changes exactly that entry of the matrix. |
| DenseMatrix.Matrix.EntryAt | pkg/math/matrix.go:84-98 | Entry (r, c) sits at position r*cols + c of an array of rows*cols numbers. |
| RowMajor.KeyIsRowMajor | pkg/math/matrix.go:84-98 | Counting row by row, cell (i, j) comes after i*cols + j others. |
| RowMajor.KeysDiffer | pkg/math/matrix.go:84-98 | Different cells have different positions in the flat array. |
| LinearAlgebra.DotIsSum | pkg/math/matrix.go:189-207 | The inner products that the matrix rows below speak of are the sums of the products of equal coordinates. |
| Cholesky.Cholesky | pkg/math/matrix.go:182-214 | Succeeds, on any square matrix, exactly when the mirrored lower triangle exceeds 1e-15 on every vector whose last non-zero coordinate is 1. The result is lower triangular, the products of two of its rows sum to the input's entry on and below the diagonal, and its diagonal is positive with squares above 1e-15; a failure names the column and the rejected pivot, at most 1e-15. |
| CholeskyFactor.FactorReproduces | pkg/math/matrix.go:178-214 | A factor is lower triangular with positive diagonal, its product with its transpose is the mirrored lower triangle, and that matrix is positive definite. |
| CholeskyFactor.FactorIsUnique | pkg/math/matrix.go:189-211 | There is only one factor. |
| CholeskyFactor.StoppedIsNotCurved | pkg/math/matrix.go:196-199 | A rejected pivot is the matrix's quadratic form on a concrete vector. |
| Cholesky.FactorOfSymmetric | pkg/math/matrix.go:178-214 | The factor reproduces the input exactly when the input is symmetric, and a symmetric input is then positive definite. |
| Cholesky.AsymmetricIsAccepted | pkg/math/matrix.go:181-181 | A concrete asymmetric matrix is factored, against the documentation. |
| Cholesky.Transpose | pkg/math/matrix.go:217-225 | Entry (c, r) of the result is entry (r, c). |
| Cholesky.SolveLower | pkg/math/matrix.go:231-254 | Succeeds exactly when sizes fit and no diagonal entry is within 1e-15 of zero, and then solves the lower triangle's system; a failure names the first such entry. |
| Cholesky.SolveUpper | pkg/math/matrix.go:260-283 | The same for the upper triangle, naming the last such entry. |
| Cholesky.SolveCholesky | pkg/math/matrix.go:293-312 | Succeeds exactly when sizes fit and no diagonal entry is within 1e-15 of zero, and then solves the system of the lower triangle times its transpose; a failure names the first such entry. |
| Cholesky.FactorIsSolvable | pkg/math/matrix.go:285-312 | On a factor the solve cannot fail, and for a symmetric input it solves that input's own system. |
| GramMatrices.GramQuad | pkg/math/matrix.go:178-180 | The quadratic form of a factor times its transpose is a sum of squares. |
| Ckg.CorrelatedKnowledgeGradient.New | pkg/math/ckg.go:106-126 | Rejects exactly non-square covariances and mismatched means; otherwise the model has its own copy of the prior. |
| Ckg.CorrelatedKnowledgeGradient.UpdateBayesian | pkg/math/ckg.go:174-228 | Rejects exactly bad indices and negative variances; the old model is untouched. With v the variance of region k and s the noise, nothing changes if v + s is at most 1e-15; otherwise mean i times v + s grows by cov[i][k] times the distance of the sample from the mean of k, and entry (i, j) times v + s drops by cov[i][k] times cov[j][k], no variance below zero. |
| Ckg.UpdateLearns | pkg/math/ckg.go:191-221 | The conditioned belief that the laws of updating speak of is the one those equations give. |
| GaussianBelief.SampledCoordinate | pkg/math/ckg.go:191-221 | In the region sampled, the new mean times v + s is s times the old mean plus v times the sample, and the new variance times v + s is v times s; at or below the cut-off nothing changes. |
| GaussianBelief.UpdateKeepsProper | pkg/math/ckg.go:191-221 | A symmetric positive semidefinite covariance stays one, no marginal variance rises, and the update is the one without the clamp. |
| GaussianBelief.SemidefiniteNeedsNoClamp | pkg/math/ckg.go:215-218 | On a proper covariance the diagonal after the reduction is already non-negative. |
| GaussianBelief.RunKeepsProper | pkg/math/ckg.go:174-228 | Over every sequence of updates the covariance stays one and no marginal variance ever exceeds the prior's. |
| GaussianBelief.RunNeedsNoClamp | pkg/math/ckg.go:215-218 | Every sequence of updates ends where it would without clamping. |
| GaussianBelief.TwoUpdatesAreJoint | pkg/math/ckg.go:161-171 | Two updates in a row, each telling where it is made, are conditioning on both observations at once, by the two-by-two formula. |
| GaussianBelief.UpdatesCommute | pkg/math/ckg.go:174-228 | Two observations that are telling, alone and after each other, give the same mean and covariance in either order. |
| GaussianBelief.UpdatesCommuteIff | pkg/math/ckg.go:174-228 | Two observations of any noise commute exactly when one tells nothing to begin with, or both still do after the other, or the first one made settles what the other is about; where neither tells anything after the other, when their shares of every prior mean and covariance agree, entry by entry. |
| Ckg.NoiselessOrderMatters | pkg/math/ckg.go:191-196 | Of two different noiseless samples of one region only the first one counts, in either order. |
| GaussianBelief.RunIgnoresOrder | pkg/math/ckg.go:174-228 | Any permutation of a sequence of observations with noise above the cut-off gives the same belief. |
| Ckg.CorrelatedKnowledgeGradient.ValueOfInformation | pkg/math/ckg.go:236-252 | With v the variance of region k and s the noise: each entry of the revision times the root of v + s is the entry of column k, or zero where that root is at most 1e-15; no number at all exactly when v + s is negative. |
| Ckg.RevisionPromises | pkg/math/ckg.go:236-252 | The revision that the next laws speak of is the one those equations give. |
| Ckg.RevisionExplainsReduction | pkg/math/ckg.go:230-252 | For an informative observation, prior minus posterior covariance is the revision vector's outer product. |
| Ckg.RevisionExplainsExactly | pkg/math/ckg.go:192-196 | That holds exactly when the two cut-offs decide alike or the coordinate is uncorrelated with everything. |
| Ckg.RevisionWithoutUpdate | pkg/math/ckg.go:241-244 | A one-region belief between the cut-offs: no update, yet a positive revision. |
| Simplex.CompensatedSum | pkg/math/simplex.go:29-47 | Over exact reals the compensated sum is the sum. |
| Simplex.ValidateSimplex | pkg/math/simplex.go:55-80 | Accepts exactly non-empty vectors with entries of at least -1e-15 and a sum within the tolerance of 1, 1e-9 where a negative one is given; names the first offender. |
| Simplex.NormalizeSimplex | pkg/math/simplex.go:97-121 | Succeeds exactly on non-negative vectors with some mass; the result is proportional and on the simplex. |
| Simplex.ProjectToSimplex | pkg/math/simplex.go:130-173 | Every non-empty vector goes to the simplex point nearest to it: any other point is farther by at least its squared distance from the result. |
| Simplex.ProjectionIsUnique | pkg/math/simplex.go:121-129 | There is only one nearest point. |
| Simplex.ProjectionFixesSimplex | pkg/math/simplex.go:121-129 | On the simplex the projection is the identity. |
| Beliefs.NewBelief | internal/domain/model/belief.go:91-137 | Accepts exactly distinct keys with a valid distribution of the same length; stores the same key-mass pairs in key order with an exact index. |
| Beliefs.MassesAreKept | internal/domain/model/belief.go:140-146 | Looking a state up returns the mass it was given. |
| Beliefs.RepresentationIsCanonical | internal/domain/model/belief.go:107-136 | Beliefs with the same pairs are equal, index included. |
| TransitionMatrices.NewTransitionMatrix | internal/domain/model/transition_matrix.go:36-92 | Accepts exactly square data with distinct keys and rows on the simplex; a refused row is named with its cause, the first in the order of names; the stored matrix answers every pair of names with the caller's entry. |
| TransitionMatrices.RepresentationIsCanonical | internal/domain/model/transition_matrix.go:36-92 | Matrices that answer alike are equal, index included, whatever order the states were listed in. |
| TransitionMatrices.Predict | internal/domain/model/transition_matrix.go:130-146 | The mass arriving in each state is the sum, over the states, of the prior mass times the entry in its column. |
| TransitionMatrices.PredictionKeepsSimplex | internal/domain/model/transition_matrix.go:122-146 | With exactly stochastic rows, distributions go to distributions. |
| TransitionMatrices.PredictionStaysNear | internal/domain/model/transition_matrix.go:36-146 | With rows stochastic up to a tolerance, the total of any vector changes by at most that share of its absolute mass, and no entry predicted from non-negative masses falls below -1e-15 times their sum. |
| TransitionMatrices.PredictionIsAccepted | internal/domain/model/transition_matrix.go:36-146 | So an accepted matrix sends every distribution to one that is accepted with the same tolerance. |
| BeliefFilters.BeliefFilter.NewCompetitive | internal/domain/model/belief_filter.go:40-64 | Succeeds exactly when both models are there and every state has a profile. |
| BeliefFilters.BeliefFilter.Monopolist | internal/domain/model/belief_filter.go:31-37 | A monopolistic filter needs no models, and has none. |
| BeliefFilters.BeliefFilter.Filter | internal/domain/model/belief_filter.go:70-138 | The error order of the code; the monopolistic collapse; otherwise Bayes' rule: each state's posterior is in proportion to the mass that arrives there, where positive, times the likelihood of the observation there, and an error arises only when that product vanishes everywhere or a needed profile is missing. |
| BeliefFilters.BeliefFilter.FilterIsForward | internal/domain/model/belief_filter.go:92-137 | From any prior of the right length, filtering a whole sequence, normalising each time, equals normalising the forward algorithm once; the run fails exactly when no mass is left. |
| BeliefFilters.BeliefFilter.ForwardSumsPathsIff | internal/domain/model/belief_filter.go:16-25 | After every number of observations the forward weight of every state is the sum, over every sequence of hidden states ending in it and each once, of the prior mass times the transition probabilities and likelihoods along it, exactly when no negative predicted mass that met a positive likelihood was cut off. |
| BeliefFilters.JitterIsCut | internal/domain/model/belief_filter.go:105-109 | An accepted matrix with an entry of -1e-15 predicts a negative mass, which is cut off. |
| BeliefFilters.BeliefFilter.ForwardSumsPaths | internal/domain/model/belief_filter.go:16-25 | So always from non-negative priors and transition probabilities. |
| HiddenPaths.AllPathsListed | internal/domain/model/belief_filter.go:16-25 | The list summed over holds every sequence of states of the right length that ends in the state, without repetition. |
| StateNames.NamesAreHonouredIff | internal/domain/model/belief_filter.go:92-98 | All filters over given states give a prior the posterior of its masses read by name exactly when every state with mass has the same position in both lists. |
| StateNames.ReadingsAgreeIff | internal/domain/model/belief_filter.go:95-98 | The masses by position are the masses by name exactly then. |
| StateNames.MassesGoByPosition | internal/domain/model/belief_filter.go:95-98 | A prior sure of one state is taken for one that is sure of another. |
| Rng.MixIsInvertible | pkg/math/rng.go:33-35 | The output mix has a left inverse on 64-bit words. |
| Rng.MixIsOnto | pkg/math/rng.go:33-35 | The same inverse is a right inverse: the mix is a bijection. |
| Rng.StatesDiffer | pkg/math/rng.go:31-31 | The state walk has full period. |
| Rng.OutputsDiffer | pkg/math/rng.go:30-36 | Any 2^64 consecutive outputs are pairwise different. |
| Rng.KnownOutputs | pkg/math/rng.go:30-36 | From seed 0 the first three outputs are 0xe220a8397b1dcdaf, 0x6e789e6aa1b965f4 and 0x06c45d188009454f. |
| Generator.RNG.NextUint64 | pkg/math/rng.go:30-36 | Advances the state by the constant and returns its mix. |
| Generator.RNG.Intn | pkg/math/rng.go:51-57 | A draw below the bound for every positive bound, one state step each. |
| Generator.KnownDraw | pkg/math/rng.go:51-57 | From seed 0 the first draw below 10 is 8. |
| Generator.ReducedInRange | pkg/math/rng.go:56-56 | The multiply-shift reduction stays below the bound even where the product wraps. |
| Generator.ReducedIsOnto | pkg/math/rng.go:56-56 | For bounds up to 2^32 every index is drawn from some upper half. |
| Generator.DrawnFromStretch | pkg/math/rng.go:45-57 | Index v is drawn from exactly the upper halves from v*2^32/n up to below (v+1)*2^32/n, both rounded up. |
| Generator.DrawCount | pkg/math/rng.go:45-57 | So there are as many of them as that stretch is long. |
| Generator.EvenIffDivides | pkg/math/rng.go:45-57 | All indices have equally many upper halves exactly when the bound divides 2^32. |
| Generator.ThreeIsUneven | pkg/math/rng.go:45-57 | With a bound of 3, index 0 has one more than the others. |
| Generator.RNG.Perm | pkg/math/rng.go:86-99 | A permutation of 0..n-1, the one its draws stand for. |
| Generator.KnownShuffle | pkg/math/rng.go:86-99 | From seed 0 the first permutation of 0..3 is 2, 0, 1, 3. |
| Shuffle.ShuffleIsBijective | pkg/math/rng.go:94-97 | The permutations correspond one to one to the draw sequences. |
| Shuffle.DrawsAreDetermined | pkg/math/rng.go:94-97 | Different draws give different arrangements. |
| Generator.RNG.Split | pkg/math/rng.go:110-117 | The child's seed is a function of one parent output and the coordinates. |
| ChildSeeds.KnownChild | pkg/math/rng.go:110-117 | From the first output of seed 0, the child of epoch 1, branch 2 and routine 3 has the seed 0x8233801eb0a71b8f. |
| ChildSeeds.ChildrenDiffer | pkg/math/rng.go:110-117 | Children that differ only in the epoch, or only in the routine, have different seeds. |
| ChildSeeds.BranchesCollide | pkg/math/rng.go:112-112 | Two branches share a child exactly when they agree on their lower 63 bits. |
| ChildSeeds.TopBranchCollides | pkg/math/rng.go:112-112 | Branches 0 and 2^63 share a child, whatever the other coordinates. |
| ValueSlopes.NewRegionSlopes | internal/domain/policy/vfa_piecewise.go:41-60 | Accepts exactly slopes that rise by no more than 1e-9 from level to level. |
| ValueSlopes.RegionSlopes.TotalValue | internal/domain/policy/vfa_piecewise.go:80-89 | The loop computes the sum of marginal values. |
| ValueSlopes.RegionSlopes.ValueAddsSlopes | internal/domain/policy/vfa_piecewise.go:62-89 | A count's value is the sum of that many slopes, the last one repeated beyond the end, and zero without slopes. |
| ValueSlopes.RegionSlopes.ConcaveIffNonIncreasing | internal/domain/policy/vfa_piecewise.go:62-89 | The value is concave in the number of drivers exactly when the slopes do not increase. |
| ValueSlopes.Clear | internal/domain/policy/vfa_piecewise.go:207-219 | The two sweeps in place leave running minima to the right and running maxima to the left of the level. |
| ValueSlopes.ClearedNonIncreasing | internal/domain/policy/vfa_piecewise.go:207-219 | From any slopes at all the result does not increase and keeps the level's value. |
| ValueSlopes.ClearedIsExtremal | internal/domain/policy/vfa_piecewise.go:207-219 | To the right it is the highest concave continuation below the slopes, to the left the lowest above them. |
| ValueSlopes.ClearedIsClosestIff | internal/domain/policy/vfa_piecewise.go:207-219 | From any slopes with one level moved, the result is at every level at least as close as any concave sequence through the new value, exactly when no rise among the other slopes crosses that value. |
| ValueSlopes.ClearedIsClosest | internal/domain/policy/vfa_piecewise.go:207-219 | So always when the slopes were concave before the level was moved. |
| VfaTables.VfaTable.UpdateCAVE | internal/domain/policy/vfa_piecewise.go:150-229 | A step of 0.1 for a non-positive one and 1 for one above 1, 10 levels for a non-positive number, the level brought into range. Starts at the stored slopes, continued up to the number of levels by 0.9 of the slope before, the first one being the dual where nothing is stored; the slope at the level becomes (1 - step) times itself plus step times the dual; away from it each slope is its own or its neighbour's, whichever keeps the slopes from rising. Other regions and the old table stay as they were. |
| VfaTables.VfaTable.StartReads | internal/domain/policy/vfa_piecewise.go:180-202 | Those starting slopes, one by one. |
| VfaTables.VfaTable.UpdateLearns | internal/domain/policy/vfa_piecewise.go:180-219 | The updated table that the laws below speak of is the one this describes. |
| VfaTables.VfaTable.UpdateRestoresConcavity | internal/domain/policy/vfa_piecewise.go:142-149 | The updated region has a concave value whatever was there before; no other region changes. |
| VfaTables.VfaTable.UpdateIsClosestIff | internal/domain/policy/vfa_piecewise.go:150-219 | An update ends at the closest concave sequence through the smoothed value exactly when no rise among the other starting slopes crosses it. |
| VfaTables.VfaTable.UpdateIsClosest | internal/domain/policy/vfa_piecewise.go:204-219 | So always from concave starting slopes. |
| VfaTables.VfaTable.FreshNegativeIsClosestIff | internal/domain/policy/vfa_piecewise.go:180-219 | A region first seen with a negative dual: always at levels 0 and 1, at a higher level exactly when the value learned is no lower than the starting slope before it. |
| VfaTables.VfaTable.UpdateIsNotAlwaysClosest | internal/domain/policy/vfa_piecewise.go:180-219 | A first dual of -1 at level 2, taken over in full, does not end at the closest concave sequence. |
| VfaTables.VfaTable.StartIsConcave | internal/domain/policy/vfa_piecewise.go:182-202 | The starting slopes are concave exactly when the stored ones are and no negative last slope is padded, or a fresh region's dual is not negative. |
| VfaTables.SmoothedBetween | internal/domain/policy/vfa_piecewise.go:205-205 | Smoothing never overshoots the slope or the dual. |
| VfaLearner.PiecewiseVFALearner.StepSize | internal/service/vfa_learner.go:109-115 | The configured step outside harmonic mode; in harmonic mode at most 1 and inverse-linear in the epochs. |
| VfaLearner.PiecewiseVFALearner.UpdateFromMatching | internal/service/vfa_learner.go:121-188 | The table after the matches one by one, levels counting earlier arrivals; the spatial belief after the samples of the known regions; an error exactly when a sample is refused, naming the region of the first one refused and the cause. |
| VfaLearner.MatchTeachesRegion | internal/service/vfa_learner.go:143-166 | A match with a dual teaches the region of its load's destination that dual, at the level that counts the matches before it that deliver there, at most the last level, by the update above; other regions learn nothing. |
| VfaLearner.UnknownTeachesNothing | internal/service/vfa_learner.go:143-166 | A match without a dual or without a known load changes nothing. |
| VfaLearner.SampleReads | internal/service/vfa_learner.go:168-178 | It is a sample of that dual, with the configured noise, for that region's index, if the region has one. |
| VfaLearner.EpochRestoresConcavity | internal/service/vfa_learner.go:143-178 | A region becomes concave the first time it is taught and stays so; others are untouched. |
| VfaLearner.RunRestoresConcavity | internal/service/vfa_learner.go:121-188 | Over any run of epochs, every region ever taught has a concave value. |
| VfaLearner.BeliefIgnoresMatchOrder | internal/service/vfa_learner.go:168-178 | With observation noise above the cut-off, the spatial belief after an epoch does not depend on the order of its matches. |
| VfaLearner.TableDependsOnMatchOrder | internal/service/vfa_learner.go:143-166 | The slope table does depend on it: two matches into one region leave a slope of 1 in one order and 0 in the other. |
| VfaLearner.TableIgnoresInterleaving | internal/service/vfa_learner.go:143-166 | Two epochs that bring every region the same duals in the same order leave the same table, however the regions' matches are interleaved. |
| VfaLearner.DifferentRegionsCommute | internal/service/vfa_learner.go:143-166 | So neighbouring matches into different regions can be exchanged. |
| MemoryJournal.MemoryJournal.Record | internal/service/journal.go:51-63 | However often it is overtaken, the call appends its entry exactly once, after everything that overtook it. |
| MemoryJournal.MemoryJournal.GetEntry | internal/service/journal.go:78-89 | The earliest entry carrying the identifier, or none exactly when none does. |
| JournalProtocol.OnlyGrowsAtTheEnd | internal/service/journal.go:51-63 | Over any stretch of any interleaving the journal only grows at its end. |
| JournalProtocol.EveryCallOnce | internal/service/journal.go:51-63 | Under every interleaving the entries handed in are exactly those published, once each, and those in flight. |
| JournalProtocol.FailureMeansProgress | internal/service/journal.go:60-62 | A failed swap implies another call succeeded since that caller's load. |
| JournalProtocol.FailuresAreBounded | internal/service/journal.go:52-62 | Failed swaps never outnumber successes times the other callers. |
| JournalRecords.JournalRecord.Seal | pkg/journal/record.go:83-91 | An empty previous hash becomes 64 zeros and an empty version the current one; the hash is bound to the resulting fields, and nothing else changes. |
| JournalRecords.PayloadReads | pkg/journal/record.go:59-80 | The payload is the previous hash, run, epoch, batch number, decision, version, policy, parameter hash, state hash, action hash, next state hash and the amount, joined by bars; the amount is written as zero when it is within 1e-9 of it and as it is otherwise. A record is intact exactly when its hash is non-empty and the digest of that. |
| JournalRecords.SealedVerifies | pkg/journal/record.go:83-96 | A sealed record passes its integrity check. |
| JournalRecords.PayloadDeterminesFields | pkg/journal/record.go:59-80 | A record without separators in its text fields shares its payload exactly with the records that have the same fields, among all records. |
| JournalRecords.SeparatorsCollide | pkg/journal/record.go:64-79 | A record has a twin with other fields but the same payload, hash and integrity verdict exactly when some text field of it contains the separator. |
| JournalRecords.TamperingIsNoticed | pkg/journal/record.go:94-96 | An intact separator-free record changed into anything else in some hashed field no longer verifies, and only then. |
| JournalRecords.MovedAmountIsNoticed | pkg/journal/record.go:59-96 | With a format that writes numbers 1e-6 apart differently, an intact separator-free record whose amount is moved by 1.001e-6 or more no longer verifies, whatever else is changed. |
| JournalRecords.TinyAmountsAreOne | pkg/journal/record.go:60-63 | Any two amounts within 1e-9 of zero give one payload. |
| JournalRecords.TamperEvidentIff | pkg/journal/record.go:59-96 | Every change of an intact record's hashed fields is noticed exactly when none of its text fields contains the separator. |
| JournalRecords.FinalHashDeterminesPayloads | pkg/journal/store.go:152-167 | Two verified chains with the same last hash have the same length and the same payload at every position. |
| JournalRecords.FinalHashDeterminesChain | pkg/journal/store.go:152-167 | If the records of one of them are readable - no separator in a text field, except for a run's name that reads only one way - they agree on every hashed field at every position. |
| JournalRecords.FinalHashDeterminesAmounts | pkg/journal/store.go:152-167 | With such a format they agree on every amount to within 1.001e-6. |
| JournalRecords.ChainIsDeterminedIff | pkg/journal/store.go:152-167 | The last hash determines the chain, against all verified chains, exactly when all its records are readable. |
| JournalRecords.PlainIsReadable | pkg/journal/record.go:59-80 | A record without separators in its text fields is readable. |
| JournalStore.MemoryStore.Append | pkg/journal/store.go:54-102 | Commits exactly intact, new records that extend their run; both maps then hold the same records and every run verifies; what a reader sees between the two replacements is returned as a ghost: the record is found by decision and not yet listed, and every listed record is found. |
| JournalStore.ReadersBetweenStores | pkg/journal/store.go:99-100 | A reader between the two pointer stores finds by decision every record it can list by run. |
| JournalStore.SameRecords | pkg/journal/store.go:44-102 | In a consistent store a record is found by decision exactly when its run lists it. |
| JournalStore.MemoryStore.Get | pkg/journal/store.go:105-112 | Finds exactly the stored decisions, each with its name and in its run. |
| JournalStore.MemoryStore.LastRecord | pkg/journal/store.go:127-134 | The record whose hash the next one must link to. |
| JournalStore.MemoryStore.VerifyRunChain | pkg/journal/store.go:137-168 | True exactly on a chain, with its last hash; false with the first broken record's name; always true in a store built by appends, and on unknown names. |
| JournalStore.SameEndSameHistory | pkg/journal/store.go:137-168 | A run of readable records is the same run, with the same history, as any run of any store that ends in the same hash. |
| StreamBuffers.ValidateDriverPing | internal/adapter/stream/buffer.go:165-178 | Accepts exactly a non-blank driver, a latitude within 90 and a longitude within 180 degrees, and non-negative hours; the error names the first check that fails, in this order. |
| StreamBuffers.ValidateLoadTender | internal/adapter/stream/buffer.go:181-198 | Accepts exactly a non-blank load, two such places, non-negative revenue, and no pickup that starts after a positive last delivery epoch; the error names the first check that fails, in this order. |
| StreamBuffers.BlankIsTrimmedAway | internal/adapter/stream/buffer.go:165-182 | An identifier is blank exactly when nothing is left of it after trimming white space at both ends. |
| StreamBuffers.StreamBuffer.IngestDriverPing | internal/adapter/stream/buffer.go:36-54 | Replaces the buffered ping unless that one is strictly newer; counts either way. |
| StreamBuffers.StreamBuffer.IngestDriverBatch | internal/adapter/stream/buffer.go:57-64 | Buffers and counts exactly the pings before the first invalid one, reports that one's error, and touches nothing else. |
| StreamBuffers.PingBatchIsAtomicIff | internal/adapter/stream/buffer.go:56-64 | A refused batch leaves every buffer's pings as they were exactly when its first ping is invalid. |
| StreamBuffers.FirstPingStays | internal/adapter/stream/buffer.go:56-64 | With a valid first and an invalid second ping, the first stays buffered. |
| StreamBuffers.DrainSeesWholePingBatchIff | internal/adapter/stream/buffer.go:57-64 | A drain after the first k pings of a batch sees nothing of it or all of it, whatever was buffered before, exactly when k is 0 or the rest of the batch changes nothing. |
| StreamBuffers.DrainSplitsPings | internal/adapter/stream/buffer.go:57-64 | Pings of two drivers are split by a drain in the middle. |
| StreamBuffers.StreamBuffer.IngestLoadTender | internal/adapter/stream/buffer.go:67-81 | A valid tender replaces any tender and withdraws any cancellation of its load, and only of it; an invalid one changes nothing. |
| StreamBuffers.StreamBuffer.IngestTenderBatch | internal/adapter/stream/buffer.go:84-91 | Buffers and counts exactly the tenders before the first invalid one, reports that one's error, and touches nothing else. |
| StreamBuffers.TenderBatchIsAtomicIff | internal/adapter/stream/buffer.go:83-91 | A refused batch leaves all pending load changes as they were exactly when its first tender is invalid. |
| StreamBuffers.FirstTenderStays | internal/adapter/stream/buffer.go:83-91 | With a valid first and an invalid second tender, the first stays buffered. |
| StreamBuffers.DrainSeesWholeTenderBatchIff | internal/adapter/stream/buffer.go:84-91 | The same of a drain after the first k tenders. |
| StreamBuffers.StreamBuffer.CancelTender | internal/adapter/stream/buffer.go:94-106 | A cancellation is kept and withdraws any tender of its load, and only of it; pings, counters and the time of the last drain stay. |
| StreamBuffers.StreamBuffer.Drain | internal/adapter/stream/buffer.go:125-139 | Hands over everything and leaves the buffer empty, counters kept. |
| StreamBuffers.BufferHoldsLatest | internal/adapter/stream/buffer.go:47-52 | What is buffered for a driver is the last arrival among those with the greatest timestamp. |
| Synchronizer.StateSynchronizer.Synchronize | internal/adapter/stream/synchronizer.go:40-221 | The new state is in order and indexed. Looking a load up: a tendered one has the tender's two places, with the nodes named there or else the service's, its four epochs, its revenue, no transit time, the equipment class of the name and the endorsements one by one; any other one not cancelled is the base's. Looking a driver up: with a ping, place and hours are the ping's and so is what else it mentions, and a driver unknown before starts from it; without, the base's. The counters are the sizes of the sets they are named after; the buffer is empty. |
| Synchronizer.MergedReads | internal/adapter/stream/synchronizer.go:56-221 | The merged maps that the laws of runs speak of are the ones those lookups read. |
| Synchronizer.DrainsDoNotMatter | internal/adapter/stream/synchronizer.go:142-197 | Wherever the drains fall, the merged inventory equals applying tenders and cancellations one by one, and no load is buffered both ways. |
| Synchronizer.HeldMapsAreTheBase | internal/adapter/stream/synchronizer.go:142-221 | The maps a synchronization merged are the base of the next one. |
| Synchronizer.DrainsDoNotMatterIff | internal/adapter/stream/buffer.go:47-52 | Over any run, with any number of drains, the ping merged last for a driver is the one an undrained buffer would hold exactly when no earlier drain handed over a newer one. |
| Synchronizer.OneDrainIff | internal/adapter/stream/buffer.go:47-52 | With one drain: exactly when the newest ping after it is at least as new as the newest before it. |
| Synchronizer.LastMergedDecides | internal/adapter/stream/synchronizer.go:56-93 | After any run a driver has the place and hours of the ping merged last for it. |
| Synchronizer.LatePingAfterDrain | internal/adapter/stream/synchronizer.go:56-93 | A late ping is ignored while the newer one is buffered and applied after a drain. |
| Synchronizer.RunRefreshes | internal/adapter/stream/synchronizer.go:57-93 | Over any run a known driver keeps name, home and clocks; availability moves back only by a plan; what no ping mentions stays; the rules are reset as soon as one ping is merged. |
| Synchronizer.RulesAreLost | internal/adapter/stream/synchronizer.go:57-93 | A known driver with rules other than the unspecified ones loses them with its first ping. |
| Resources.NewResourceState | internal/domain/model/resource.go:142-175 | The same entities in identifier order, with maps to their last positions. |
| Resources.IndexIsInverse | internal/domain/model/resource.go:214-229 | With unique identifiers, lists and lookups are inverse to each other. |
| Resources.StateIsCanonical | internal/domain/model/resource.go:136-175 | With unique identifiers the state does not depend on the order its parts arrived in. |
| Transitions.CheckMatches | internal/domain/model/resource.go:249-276 | Passes exactly distinct, existing, idle drivers with distinct, existing loads; the error is the first offending match's, judged in the order of the checks. |
| Transitions.MatchesOkReads | internal/domain/model/resource.go:249-276 | Matches can be carried out exactly when no two share a driver or a load, and all drivers are known and have no load, and all loads are known. |
| Transitions.Transition | internal/domain/model/resource.go:248-338 | Succeeds exactly on such matches, and fails with that error; every matched driver has delivered its load, the matched loads are gone and the new ones are in. |
| Transitions.DriversDeliver | internal/domain/model/resource.go:284-320 | Every matched driver is where its load went, without a load, available at the dispatch epoch plus the transit epochs, with its hours less the transit epochs but not below zero, its clocks as advanced, and otherwise as before; every other driver is as it was. |
| Transitions.DriversKept | internal/domain/model/resource.go:279-320 | Same drivers by identifier; hours neither rise nor turn negative exactly when every matched trip takes no negative time, but for drivers already out of hours. |
| Transitions.LoadsConserved | internal/domain/model/resource.go:322-329 | Loads there were and arrivals are exactly the loads outstanding and delivered. |
| Transitions.RunKeepsEverything | internal/domain/model/resource.go:231-338 | The same over every run with unique identifiers and fresh arrivals, which stay unique; hours never rise when no load takes a negative time. |
| Transitions.DeliveredOnce | internal/domain/model/resource.go:322-329 | Over such a run no load is delivered twice and nothing delivered is still outstanding. |
| Actions.NewAction | internal/domain/model/action.go:36-56 | The same matches, by driver and then load, and the same bids, by load. |
| Actions.ValidateFeasibility | internal/domain/model/action.go:101-163 | No error exactly when the matches can be carried out and the bids are distinct, positive and for known loads; matches are judged first, and the error is the first offending match's or bid's, judged in the order of the checks. |
| Actions.FeasibilityIgnoresOrder | internal/domain/model/action.go:36-56 | Whether matches can be carried out does not depend on their order. |
| Actions.FeasibleActionsTransition | internal/domain/model/action.go:93-163 | An action that passes can never make the transition fail, and without bids the check is no stricter than the transition. |

## Left out

- Floating-point rounding, NaN (but for the root of a negative variance) and infinities, and the error analysis of compensated summation: numbers are exact reals, and infinite path lengths in the solver are a flag.
- The front of the matchers: the empty candidate list and the choice between the exact and the greedy algorithm.
- The width of 64-bit counters, epochs and indices: they are unbounded integers, except in the generator, whose words are 64 bits wide.
- Transitions.RunKeepsEverything: assumes unique identifiers, which the constructors do not enforce.
- Hours-of-service simulation: the clocks' advance over a trip is a parameter, as are the clocks of a driver first seen in telemetry.
- Observation likelihoods: non-negative weights per observation and state; the log-space evaluation, binomial, Gaussian and Poisson terms and log-factorials are not modelled.
- Great-circle distances, relay feasibility and cost evaluation: the relay selection starts from evaluated candidates.
- The spatial covariance kernel: the prior covariance is an input.
- SHA-256 and number formatting: an abstract digest and abstract formats, with collision freedom as an explicit assumption where it is used.
- `sort.Slice`, `sort.Strings` and `math.Sqrt`: specified, not implemented; the model's own sort meets the specification.
- File-backed journal store, JSON encoding, databases, HTTP and gRPC handlers, telemetry, logging, command lines, SDK and user interface.
- Lookahead rollouts, tour synthesis, repositioning, cost function approximation, CEL rules, reports and explanations.
- Matrix products, norms, identity matrices and the remaining accessors, `Float64`, `Bernoulli` and `Rademacher`, snapshots and status of the stream buffer, listing and counting of the in-memory journal: they would only add easy members.
- Nil receivers and nil arguments that panic, other than those named in the rows above.
