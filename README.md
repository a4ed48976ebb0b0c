# Diffractive combinatorics — a Dafny model of the analysis core

The analysis measures diffractive cross sections of proton-proton
collisions. Every event is reduced to a binary signal vector over six
detector sides, giving 2^6 = 64 combinations. Data are counted per
combination. Monte Carlo builds a 64 x 5 density matrix, one column per
process: single diffraction left (SDL), single diffraction right (SDR),
double diffraction (DD), central diffraction (CD) and non-diffractive (ND).
An expectation-maximisation (EM) fit, run over bootstrap replicas of the
beam-gas corrected data, extracts the process fractions and the cross
sections.

The model covers five parts of this code:

- **Bits** (`bits.dfy`): vector/index conversion, the left-right mirror
  permutation, binary-reflected Gray code, the binary matrix and subspace
  counting of `VecOper.cc`.
- **VecOper** (`vec_oper.dfy`): floored sums, normalisation, beam-gas
  subtraction, bootstrap sampling, column access, sorting, the chi-square
  and Kolmogorov-Smirnov metrics, and the factorial.
- **CutFlow** (`cut_flow.dfy`): a class holding the cut matrix, the cut
  names and the on/off status. Its methods update them in place. It also
  computes the serial cut flow and the list of passing events.
- **Selection** (`selection.dfy`): the per-event decisions of
  `Combinatorics.cc`. These are the diffractive mass cut-off, the noisy SPD
  chip list, the re-emulated online trigger, and the beam-gas and timing
  vetoes.
- **Combinatorics** (`combinatorics.dfy`): a class with the count vectors,
  density matrices, unfolding counters and bootstrap matrix of one sample.
  Its methods model:
  - `EmptyData`, `GenerateModel`, `CalculateF`;
  - the unfolding response, `SetXCorrected` and `SetBeamGasX`;
  - `GenerateBootStrap` and `GetTotalProcessCount`;
  - the classification loop of `ReadTree`.
- **CombinatoricsSuper** (`combinatorics_super.dfy`): the extraction.
  - `EstimateEM`: index checks and the bootstrap matrices of the three
    extraction levels.
  - `EMsub`: efficiencies and normalised densities, then per replica a
    random prior and 50 EM passes. After that come the bootstrap mean,
    spread and luminosity error of every process cross section.
  - The argmin over the fit grid.
  - One pass of the final-round efficiency scan.

Double-precision numbers are modelled as reals. Random numbers enter as
oracle parameters:

- the bin and acceptance draws of the multinomial bootstrap;
- the Poisson counts of the fast bootstrap;
- the uniform draws of the EM prior.

The Kullback-Leibler divergence, the log-likelihood, the square root and
the Monte Carlo mass re-weighting enter as function parameters.

## Model

| member | source | states |
|---|---|---|
| Bits.Vec2Ind | src/VecOper.cc:684-698 | the index of a d-bit vector is below 2^d |
| Bits.Vec2IndZero | src/VecOper.cc:684-698 | the index is 0 exactly when no bit of the vector is set |
| Bits.Ind2Vec | src/VecOper.cc:705-726 | for an index below 2^d, the d-bit vector has length d and maps back to the index |
| Bits.Ind2VecOfVec2Ind | src/VecOper.cc:684-726 | converting a vector to its index and back gives the same vector (round trip in the other direction) |
| Bits.Ind2VecBit | src/VecOper.cc:705-726 | bit j of the d-bit vector is binary digit d-1-j of the index (most significant first) |
| Bits.Reverse | src/VecOper.cc:665-666 | the reversed vector has the same length and entry i is entry n-1-i |
| Bits.LRSequence | src/VecOper.cc:655-679 | the mirror sequence has 2^dim entries |
| Bits.LRSequenceAt | src/VecOper.cc:655-679 | each entry is an index below 2^dim, and applying the sequence twice returns i |
| Bits.LRSequenceInvolution | src/VecOper.cc:655-679 | the mirror sequence is an involution and a permutation of 0..2^dim-1 (distinct entries) |
| Bits.XorComm | src/VecOper.cc:606-609 | exclusive or is commutative |
| Bits.XorAssoc | src/VecOper.cc:606-609 | exclusive or is associative |
| Bits.XorSelf | src/VecOper.cc:606-609 | a number xor itself is 0 |
| Bits.XorZero | src/VecOper.cc:606-609 | 0 is the unit of exclusive or |
| Bits.XorZeroEq | src/VecOper.cc:606-609 | xor is 0 only for equal numbers |
| Bits.XorBound | src/VecOper.cc:606-609 | xor of two k-bit numbers is a k-bit number |
| Bits.Binary2Gray | src/VecOper.cc:606-609 | the Gray code of a 32-bit number is a 32-bit number |
| Bits.GrayXor | src/VecOper.cc:606-609 | the Gray code is linear over exclusive or |
| Bits.GrayInjective | src/VecOper.cc:606-609 | different 32-bit numbers have different Gray codes |
| Bits.GraySplit | src/VecOper.cc:606-609 | the Gray code of n is twice the Gray code of n/2, plus one when the two low bits of n differ |
| Bits.GrayAdjacent | src/VecOper.cc:603-609 | the codes of n and n+1 differ in exactly one bit (their xor is a power of two), the Hamiltonian path property |
| Bits.GrayAdjacentEven | src/VecOper.cc:606-609 | for even n the codes of n and n+1 differ in bit 0 |
| Bits.GrayAdjacentOdd | src/VecOper.cc:606-609 | for odd n the codes of n and n+1 differ in the bit above the one where the codes of n/2 and n/2+1 differ |
| Bits.OddStepLowBit | src/VecOper.cc:606-609 | for odd n the codes of n and n+1 agree in bit 0 |
| Bits.Gray2Binary | src/VecOper.cc:614-620 | the result is the unique 32-bit number whose Gray code is the input (inverse of Binary2Gray) |
| Bits.ConstructB | src/VecOper.cc:624-650 | a 2^d x d matrix whose row i holds the binary digits of i, most significant first |
| Bits.SumNatIncrement | src/VecOper.cc:762-765 | incrementing one count raises the total by one |
| Bits.SumNatSplit | src/VecOper.cc:762-765 | the total of a count vector is the total of its prefix plus the total of its suffix |
| Bits.Project | src/VecOper.cc:773-790 | the projection of a full-space combination onto the chosen dimensions is a subspace index |
| Bits.MatchesProject | src/VecOper.cc:773-790 | a full combination agrees with subspace combination i on every chosen dimension exactly when its projection is i |
| Bits.HitsOnce | src/VecOper.cc:771-792 | each full-space bin is counted in exactly one subspace bin, its projection |
| Bits.SumCountsStep | src/VecOper.cc:771-792 | adding a full-space bin adds its count to the subspace total |
| Bits.SumCountsEmpty | src/VecOper.cc:771-792 | no full-space bins give no subspace counts |
| Bits.SubspacePartition | src/VecOper.cc:771-792 | the subspace counts partition the full-space counts: together they add up to the total |
| Bits.Agreements | src/VecOper.cc:785-790 | the number of agreeing dimensions is at most their count, and equals it exactly when all chosen dimensions agree |
| Bits.SubspaceCount | src/VecOper.cc:775-792 | the count of subspace bin i is the sum of the full-space counts whose combination agrees with i |
| Bits.Subspace | src/VecOper.cc:759-814 | N_events is the total count, each subspace count is its matching sum, and the visible count is the total minus the empty-combination count |
| VecOper.SumNonNeg | src/VecOper.cc:441-449 | a sum of non-negative entries is non-negative |
| VecOper.SumUpdate | src/VecOper.cc:441-449 | changing one entry by d changes the sum by d |
| VecOper.VSumPositive | src/VecOper.cc:441-449 | the floored sum (plus 1e-12) of non-negative entries is at least 1e-12 |
| VecOper.NVec | src/VecOper.cc:416-426 | the normalised vector has the input's length, and each entry times the floored sum is the input entry |
| VecOper.ScaleVec | src/VecOper.cc:429-437 | the scaled vector has the input's length |
| VecOper.ScaleVecSum | src/VecOper.cc:429-437 | scaling multiplies the sum by the scale |
| VecOper.NVecIsScale | src/VecOper.cc:416-437 | normalising is scaling by the inverse floored sum |
| VecOper.NVecSum | src/VecOper.cc:416-426 | a normalised non-negative vector sums to the input sum over the floored sum, which lies in [0, 1), and every entry lies in [0, 1) |
| VecOper.NVecScaleBack | src/VecOper.cc:416-426 | the normalised sum times the floored sum gives the original sum back |
| VecOper.NVecEntries | src/VecOper.cc:416-426 | every normalised entry of a non-negative vector lies in [0, 1) |
| VecOper.NVecTotal | src/VecOper.cc:416-426 | the normalised sum is the sum times the inverse floored sum |
| VecOper.NVecEntry | src/VecOper.cc:416-426 | a single normalised entry lies in [0, 1) |
| VecOper.SumBoundsEntry | src/VecOper.cc:441-449 | a non-negative entry is at most the sum |
| VecOper.RoundCount | src/VecOper.cc:125 | rounding a whole non-negative count leaves it unchanged |
| VecOper.BGSubstract | src/VecOper.cc:107-132 | each corrected bin is a whole count: zero exactly when B - aA - cC + 2eE is below 0.5, otherwise within half a count of it |
| VecOper.BGSubstractNoBackground | src/VecOper.cc:107-132 | with empty beam-gas inputs the correction returns whole beam-beam counts unchanged |
| VecOper.RowFoldNonNeg | src/VecOper.cc:144-150 | non-negative densities, fractions and scale give a non-negative synthetic bin |
| VecOper.GenerateXHat | src/VecOper.cc:138-153 | bin i is the sum over processes of F[i][j]*P[j]*scale, and it is non-negative for non-negative inputs |
| VecOper.XHatNonNeg | src/VecOper.cc:138-153 | the synthesized measurement is non-negative for non-negative F, P and scale |
| VecOper.Tally | src/VecOper.cc:301-319 | the tally of accepted draws has one bin per probability |
| VecOper.TallyShape | src/VecOper.cc:301-319 | the tallied bins are whole counts summing to the number of accepted draws, and bins of probability <= 0 stay empty |
| VecOper.BootStrap | src/VecOper.cc:301-319 | the replica is the tally of the draws consumed; when done it holds N_events events, otherwise the draws ran out short of it; bins of probability <= 0 stay empty |
| VecOper.BootStrapFast | src/VecOper.cc:323-336 | bin i is a Poisson draw with mean prob[i]*N_events, a whole count |
| VecOper.CreateBootStrapSample | src/VecOper.cc:262-298 | a bins x samples matrix; in multinomial mode column j is the tally of a prefix of replica j's own draws, whole counts, empty where prob <= 0, and nEvents in total when the draws sufficed; in fast mode bin i of column j is that replica's Poisson draw with mean prob[i]*nEvents |
| VecOper.FillColumn | src/VecOper.cc:287-290 | column j receives the vector and every other column is unchanged |
| VecOper.GetColVec | src/VecOper.cc:340-352 | entry i of the column vector is matrix[i][j] |
| VecOper.SetColVec | src/VecOper.cc:368-374 | column j receives the vector on its rows, every other cell is unchanged, and reading the column back gives the vector |
| VecOper.VSort | src/VecOper.cc:378-389 | entry i of the result is v[sort_ind[i]] |
| VecOper.VSortInd | src/VecOper.cc:394-412 | the result is a permutation of the indices ordered by descending value, ties by descending index |
| VecOper.Chi2NonNeg | src/VecOper.cc:517-528 | chi-square against a non-negative expectation is non-negative |
| VecOper.Chi2Self | src/VecOper.cc:517-528 | chi-square of a vector against itself is zero |
| VecOper.CalcChi2 | src/VecOper.cc:517-528 | the loop computes the chi-square sum, skipping near-zero expectations; it is non-negative for a non-negative expectation |
| VecOper.KSFoldIsMax | src/VecOper.cc:576-583 | the statistic bounds every cumulative difference and equals one of them |
| VecOper.KSProperties | src/VecOper.cc:553-586 | the statistic is non-negative and symmetric, and the last cumulative difference is zero (both end at one) |
| VecOper.KSSymmetric | src/VecOper.cc:576-583 | swapping the two distributions leaves the statistic unchanged |
| VecOper.CalcKS | src/VecOper.cc:553-586 | the result is the largest absolute difference of the cumulative distributions, non-negative |
| VecOper.FactDivisible | src/VecOper.cc:828-835 | every k in 1..n divides n! |
| VecOper.Factorial | src/VecOper.cc:828-835 | the loop computes n!, 1 for n <= 0, and it fits a signed 32-bit int |
| VecOper.FactBound | src/VecOper.cc:828-835 | n! for n <= 12 is at most 12! = 479001600 |
| VecOper.IsInRange | src/VecOper.cc:748-756 | true only for a non-empty window, and the endpoints of a non-empty window are inside |
| CutFlow.FirstFail | src/CutFlow.cc:283-298 | the first switched-on cut at or after c whose cell for the event is 0; no earlier cut in that range is such a cut |
| CutFlow.SerialCounts | src/CutFlow.cc:280-298 | one count per cut plus one for events that pass all |
| CutFlow.SerialCountsTotal | src/CutFlow.cc:280-298 | every event is charged to exactly one cut or to the output |
| CutFlow.DisabledCutsUncharged | src/CutFlow.cc:286-296 | a switched-off cut is charged no events |
| CutFlow.PassImpliesSerialPass | src/CutFlow.cc:229-261 | an event listed by getPass passes the serial flow |
| CutFlow.UnevaluatedCutDiffers | src/CutFlow.cc:229-319 | an event with an unevaluated (-1) cell in a switched-on cut and no 0 in any switched-on cut is dropped by getPass but charged to no cut by the serial flow |
| CutFlow.RunningRemainder | src/CutFlow.cc:300-311 | after cut c, the remainder is N_events minus the events charged to cuts 0..c |
| CutFlow.TotalCharged | src/CutFlow.cc:313-316 | totsumm is the total charged to the cuts |
| CutFlow.CutFlow.constructor | src/CutFlow.cc:55-71 | all cells unevaluated (-1), every cut off and unnamed, the input name stored |
| CutFlow.CutFlow.Cut | src/CutFlow.cc:80-95 | stores 1 or 0 for the event and returns whether the event survives (cut off, or the result true); nothing else changes |
| CutFlow.CutFlow.NameCut | src/CutFlow.cc:99-109 | sets the name and status of cut c only, and getName then returns the name |
| CutFlow.CutFlow.GetName | src/CutFlow.cc:104-107 | the stored name of cut c, which NameCut's contract reads back |
| CutFlow.CutFlow.GetPass | src/CutFlow.cc:229-261 | ascending list of exactly the events with a 1 in every switched-on cut |
| CutFlow.CutFlow.SerialFlow | src/CutFlow.cc:280-298 | the per-cut serial counts |
| CutFlow.CutFlow.FlowCounts | src/CutFlow.cc:266-323 | serial counts, the running remainders, and the output count, which lies in [0, N_events] and is at most every remainder |
| CutFlow.CutFlow.OutputIsPassCount | src/CutFlow.cc:313-319 | N_events minus totsumm is the number of events that no switched-on cut rejects |
| Selection.MassCutOff | src/Combinatorics.cc:2645-2688 | EPOS and proc > 2 pass; otherwise, iff: SD passes exactly when both masses are within xi_max*s and the diffractive side reaches the proton-plus-pi0 threshold; DD mode 0 exactly when M2_L*M2_R is within xi_max*s*MP^2 and both sides reach the threshold; DD mode 1 exactly when both masses are within xi_max*s and reach the threshold; any other DD mode exactly when both reach the threshold |
| Selection.MassCutOffMonotone | src/Combinatorics.cc:2645-2688 | raising xi_max keeps every event that passed |
| Selection.IsNoisySPD | src/Combinatorics.cc:2234-2242 | true exactly when the chip is on the noisy list |
| Selection.BCShift | src/Combinatorics.cc:1918-1922 | the shift is at most 3, and it is 0 exactly for masks other than A, C and E |
| Selection.OnlineTrigger | src/Combinatorics.cc:1914-1973 | on data, true exactly when one of the run's trigger-class bits is set; on Monte Carlo, true exactly when a fast-OR chip fired or some AD/V0 online decision is beam-beam |
| Selection.TriggerBitsDisjoint | src/Combinatorics.cc:1931-1954 | different bunch-crossing masks read different 64-bit class bits |
| Selection.BitOfPower | src/Combinatorics.cc:1933-1953 | the mask 2^k has bit k set |
| Selection.OnlineTriggerFiresOnItsBit | src/Combinatorics.cc:1931-1954 | for a known run, a data event with only its trigger bit set fires |
| Selection.BGVeto | src/Combinatorics.cc:1977-1989 | passes exactly when no AD/V0 offline decision is beam-gas |
| Selection.EarlyInteractionVeto | src/Combinatorics.cc:1993-2006 | fails exactly when some signal time lies within 500 ns before its window start |
| Selection.LateInteractionVeto | src/Combinatorics.cc:2010-2023 | fails exactly when some signal time lies within 500 ns after its window end |
| Selection.TimingWindowsPass | src/Combinatorics.cc:1993-2023 | signals strictly inside the fixed windows pass both vetoes, and a signal exactly on a window start fails the early veto |
| Combinatorics.NcombIsPow2 | include/Combinatorics.h:50 | 64 combinations are 2^6 |
| Combinatorics.Nint | src/Combinatorics.cc:1235 | nearest integer, halves to the even neighbour, non-negative for non-negative input |
| Combinatorics.AddAtColSum | src/Combinatorics.cc:2578-2581 | adding w to a cell adds w to its column sum only |
| Combinatorics.FillDataTotals | src/Combinatorics.cc:2590-2595 | on data, x and hxDet grow by the number of visible events, bin 0 of x is untouched, and the Monte Carlo counts and densities are unchanged |
| Combinatorics.FillDataX | src/Combinatorics.cc:2591-2592 | on data the total of x grows by the visible events |
| Combinatorics.FillDataDet | src/Combinatorics.cc:2591-2593 | on data the detector histogram grows by the visible events |
| Combinatorics.FillDataKeeps | src/Combinatorics.cc:2590-2595 | on data, bin 0, the process counts and both densities are untouched |
| Combinatorics.FillMCTotals | src/Combinatorics.cc:2565-2587 | on Monte Carlo the process counts grow by the kept events, hxDet is untouched, and each process column gains the same weight at detector and generator level |
| Combinatorics.FillMCCounts | src/Combinatorics.cc:2568-2575 | the process counts grow by one per event passing the mass cut-off |
| Combinatorics.FillMCColumn | src/Combinatorics.cc:2578-2581 | detector and generator level column sums grow by the same weight |
| Combinatorics.FillMCKeepsDet | src/Combinatorics.cc:2565-2587 | on Monte Carlo hxDet is not filled |
| Combinatorics.FillEventsNonNeg | src/Combinatorics.cc:2572-2581 | non-negative weights keep both density matrices non-negative |
| Combinatorics.FillEventsCountsNonNeg | src/Combinatorics.cc:2575 | the process counts stay non-negative |
| Combinatorics.NormalizeColumns | src/Combinatorics.cc:1219-1227 | every column becomes its normalised vector (divided by its floored sum) |
| Combinatorics.ColumnVSum | src/Combinatorics.cc:1220-1223 | the loop computes the floored column sum |
| Combinatorics.DivideColumn | src/Combinatorics.cc:1224-1226 | column j is normalised and the other columns are unchanged |
| Combinatorics.Synthesize | src/Combinatorics.cc:1229-1236 | bin i is Nint of the process counts weighted by row i, a whole count for non-negative inputs |
| Combinatorics.UnfoldHistograms | src/Combinatorics.cc:437-463 | every event fills hxGen, and exactly the visible events fill hxDet |
| Combinatorics.UnfoldGen | src/Combinatorics.cc:451-457 | hxGen grows by one per event |
| Combinatorics.UnfoldDet | src/Combinatorics.cc:448-450 | hxDet grows by one per visible event |
| Combinatorics.UnfoldMisses | src/Combinatorics.cc:448-458 | the misses grow by the invisible events and response row 0 is never filled |
| Combinatorics.VisibleBound | src/Combinatorics.cc:2591 | the visible events are at most all events |
| Combinatorics.Cleared | src/Combinatorics.cc:2611-2641 | x, x_gen and hxDet zero; on Monte Carlo the process counts and both densities zero, on data left alone |
| Combinatorics.ColumnsPositive | src/Combinatorics.cc:1220-1223 | a non-negative column has a floored sum of at least 1e-12 |
| Combinatorics.NormalizedColumn | src/Combinatorics.cc:1243-1251 | a normalised column sums to less than one (its sum times the floored sum is the original sum), and its cells lie in [0, 1) |
| Combinatorics.CalculatedDensities | src/Combinatorics.cc:1197-1266 | after CalculateF every density column sums below one and scales back to the accumulated column, with every cell in [0, 1) |
| Combinatorics.RoundedCount | include/Combinatorics.h:406-410 | the number of fills is round(v): at most v + 0.5, and exactly v for a whole count |
| Combinatorics.BootCount | src/Combinatorics.cc:765 | the replica size is within half an event of the floored sum |
| Combinatorics.AddEvent | src/Combinatorics.cc:2562-2595 | one loop iteration equals one FillEvent step |
| Combinatorics.FillAll | src/Combinatorics.cc:2558-2596 | the event loop equals the fold of FillEvent over all events |
| Combinatorics.UnfoldAll | src/Combinatorics.cc:441-459 | the loop equals the fold of the unfolding step over all events |
| Combinatorics.CalculateDensities | src/Combinatorics.cc:1214-1260 | both density matrices normalised and x, x_gen re-synthesised; hxDet unchanged |
| Combinatorics.ZeroVectors | src/Combinatorics.cc:2614-2619 | x, x_cor and x_gen become zero |
| Combinatorics.ZeroProcessCounts | src/Combinatorics.cc:2629-2631 | the process counts become zero |
| Combinatorics.ZeroDensities | src/Combinatorics.cc:2634-2639 | both density matrices become zero |
| Combinatorics.TriggerName | src/Combinatorics.cc:2286-2297 | a trigger class name exists exactly for the five known runs, and it is longer than the bunch-crossing mask it embeds |
| Combinatorics.CutResults | src/Combinatorics.cc:2436-2462 | five results; the offline one holds exactly when the detector index is not 0 |
| Combinatorics.Classify | src/Combinatorics.cc:2398-2483 | the nano event's detector, generator and process indices are in range for the count vectors and densities |
| Combinatorics.ClassifyVisible | src/Combinatorics.cc:2434-2483 | outside generator-level mode the event is visible exactly when trigger, beam-gas veto and early veto pass and some detector fired; then its index is that of the signal vector |
| Combinatorics.Recorded | src/Combinatorics.cc:2382-2499 | at most one nano event per tree entry, each in range |
| Combinatorics.RecordedCount | src/Combinatorics.cc:2382-2499 | every entry except the skipped central-diffractive ones is recorded |
| Combinatorics.RecordedNoCD | src/Combinatorics.cc:2411-2413 | with SKIP_CD no recorded Monte Carlo event is central-diffractive |
| Combinatorics.ClassifyOne | src/Combinatorics.cc:2398-2488 | records the five cut cells of entry e only and returns the classified event |
| Combinatorics.NameCuts | src/Combinatorics.cc:2367-2371 | the five cut names and the status on, on, on, off, on |
| Combinatorics.ClassifyEvents | src/Combinatorics.cc:2366-2499 | a fresh cut flow holding each entry's cut cells, and the recorded events |
| Combinatorics.Combinatorics.constructor | src/Combinatorics.cc:104-419 | every vector, matrix and counter zero and no events |
| Combinatorics.Combinatorics.EmptyData | src/Combinatorics.cc:2611-2641 | the model becomes Cleared; x_cor, hxGen and the empty histogram are zero |
| Combinatorics.Combinatorics.ClearCounts | src/Combinatorics.cc:2614-2624 | the count vectors and histograms become zero |
| Combinatorics.Combinatorics.ClearProcesses | src/Combinatorics.cc:2626-2640 | the process counts and densities become zero |
| Combinatorics.Combinatorics.FillModel | src/Combinatorics.cc:2558-2596 | the model becomes the fold of FillEvent over the recorded events |
| Combinatorics.Combinatorics.SetModel | src/Combinatorics.cc:2558-2596 | the member vectors hold the given model |
| Combinatorics.Combinatorics.CalculateF | src/Combinatorics.cc:1197-1266 | on non-EPOS Monte Carlo the densities are normalised and x, x_gen re-synthesised; otherwise nothing changes |
| Combinatorics.Combinatorics.ConstructUnfolding | src/Combinatorics.cc:437-463 | the counters become the fold of the unfolding step over the recorded events |
| Combinatorics.Combinatorics.SetUnfold | src/Combinatorics.cc:437-463 | the histograms and response hold the given counters |
| Combinatorics.Combinatorics.GenerateModel | src/Combinatorics.cc:2544-2608 | the state is Generated: cleared then filled; on Monte Carlo CalculateF, x_cor = x and the unfolding rebuilt; on data x_cor zero |
| Combinatorics.Combinatorics.FinishMonteCarlo | src/Combinatorics.cc:2602-2607 | CalculateF (none for EPOS), x_cor = x, and the unfolding counters filled |
| Combinatorics.Combinatorics.NewUnfoldResponse | src/Combinatorics.cc:422-433 | a fresh response with zero counters and cleared histograms |
| Combinatorics.Combinatorics.ReadTree | src/Combinatorics.cc:2259-2540 | an unknown run stops after the response reset; otherwise the cut flow of every entry, the recorded events appended, and the default model generated |
| Combinatorics.Combinatorics.AddEvents | src/Combinatorics.cc:2488 | the events are appended after the earlier ones |
| Combinatorics.Combinatorics.GetTotalProcessCount | src/Combinatorics.cc:3150-3170 | the process counts, or their shares of the floored total |
| Combinatorics.Combinatorics.SetXCorrected | include/Combinatorics.h:398-414 | x_cor holds the input and hxDet bin c is round(x_cor[c]) |
| Combinatorics.Combinatorics.SetBeamGasX | include/Combinatorics.h:187-203 | stores the beam-gas inputs and scales; x_cor is the beam-gas subtracted x, and hxDet holds those counts |
| Combinatorics.Combinatorics.GenerateBootStrap | src/Combinatorics.cc:756-807 | replica j of the beam-beam counts is drawn from nvec(x) with round(vsum(x)) events and oracle oB; on Monte Carlo it is the result; on data the A, C and E replicas are drawn the same way from their own counts and oracles, and column j is the beam-gas subtraction of replica j of each mask, whole counts |
| CombinatoricsSuper.PSumIsSum | src/CombinatoricsSuper.cc:1553-1557 | the partial sum is the sum of the prefix |
| CombinatoricsSuper.PSumNonNeg | src/CombinatoricsSuper.cc:1553-1557 | a partial sum of non-negative entries is non-negative |
| CombinatoricsSuper.RowTotalLastColumn | src/CombinatoricsSuper.cc:1553-1557 | a row-major total splits off its last column |
| CombinatoricsSuper.TotalSwap | src/CombinatoricsSuper.cc:1553-1557 | summing a matrix row by row or column by column gives the same total |
| CombinatoricsSuper.RowTotalZero | src/CombinatoricsSuper.cc:1553-1557 | a matrix with no columns has total zero |
| CombinatoricsSuper.CSumIsColumnSum | src/CombinatoricsSuper.cc:1553-1557 | the column sum is the partial sum of the column vector |
| CombinatoricsSuper.ZeroBinRemoved | src/CombinatoricsSuper.cc:1176-1184 | rows other than 0 unchanged; row 0 zeroed for extraction levels 1 and 2, kept for level 3 |
| CombinatoricsSuper.ZeroBinRemovedShape | src/CombinatoricsSuper.cc:1182-1184 | removing the zero bin keeps the shape and non-negativity |
| CombinatoricsSuper.DensityColumn | src/CombinatoricsSuper.cc:1182-1190 | a non-negative column of 64 entries with a positive floored sum |
| CombinatoricsSuper.NormalizedDensity | src/CombinatoricsSuper.cc:1176-1198 | the normalised density is a non-negative 64 x 5 matrix |
| CombinatoricsSuper.DensityEntries | src/CombinatoricsSuper.cc:1187-1193 | every normalised density cell lies in [0, 1) |
| CombinatoricsSuper.NormalizedDensityIs | src/CombinatoricsSuper.cc:1176-1198 | a matrix whose columns are the normalised zero-bin-removed columns is the normalised density |
| CombinatoricsSuper.ZeroBinRemovedWidth | src/CombinatoricsSuper.cc:1182-1184 | removing the zero bin keeps the 64 x 5 shape |
| CombinatoricsSuper.ExtractEfficiencies | src/CombinatoricsSuper.cc:1176-1198 | the normalised density and one efficiency per process: 1 - F[0][j], or 0 for a null process |
| CombinatoricsSuper.ExtractColumn | src/CombinatoricsSuper.cc:1177-1197 | column j normalised and its efficiency computed, other columns unchanged |
| CombinatoricsSuper.ZeroedColumn | src/CombinatoricsSuper.cc:1182-1184 | a column with bin 0 handled per level is the density column |
| CombinatoricsSuper.EfficiencyBounds | src/CombinatoricsSuper.cc:1178-1197 | for a column summing to at most one the efficiency lies in [0, 1] |
| CombinatoricsSuper.NormalizedDensities | src/CombinatoricsSuper.cc:1187-1193 | normalised cells lie in [0, 1), the column sums below one, and bin 0 is zero at levels 1 and 2 |
| CombinatoricsSuper.Diag | src/CombinatoricsSuper.cc:1322-1342 | the diagonal prior matrix is C x C |
| CombinatoricsSuper.DotDiag | src/CombinatoricsSuper.cc:1347 | multiplying a row by a diagonal matrix picks row[j]*p[j] |
| CombinatoricsSuper.Likelihood | src/CombinatoricsSuper.cc:1347 | the likelihood matrix is 64 x 5 |
| CombinatoricsSuper.LikelihoodIsProduct | src/CombinatoricsSuper.cc:1347 | each cell equals the matrix product of F with the diagonal prior |
| CombinatoricsSuper.LikelihoodNonNeg | src/CombinatoricsSuper.cc:1347 | non-negative densities and prior give a non-negative likelihood |
| CombinatoricsSuper.Transpose | src/CombinatoricsSuper.cc:1350-1354 | t[j][i] is m[i][j] |
| CombinatoricsSuper.TransposeColumn | src/CombinatoricsSuper.cc:1350-1354 | column i of the transpose is row i |
| CombinatoricsSuper.Fractions | src/CombinatoricsSuper.cc:1357-1365 | the fractions have one entry per process |
| CombinatoricsSuper.Posteriors | src/CombinatoricsSuper.cc:1350-1365 | the posterior matrix is 5 x 64 |
| CombinatoricsSuper.PosteriorBounds | src/CombinatoricsSuper.cc:1357-1365 | each posterior lies in [0, 1) and they sum below one per bin |
| CombinatoricsSuper.Contrib | src/CombinatoricsSuper.cc:1368 | the per-bin contributions form a 5 x 64 matrix |
| CombinatoricsSuper.NewCounts | src/CombinatoricsSuper.cc:1368 | one new count per process |
| CombinatoricsSuper.ContribColumn | src/CombinatoricsSuper.cc:1368 | the contributions of bin i add up to x[i] times its posterior total |
| CombinatoricsSuper.NewCountsTotal | src/CombinatoricsSuper.cc:1368 | the new counts add up to the total of all contributions |
| CombinatoricsSuper.ColTotalBound | src/CombinatoricsSuper.cc:1368 | with posterior totals at most one, the contributions of the first n bins are at most their counts |
| CombinatoricsSuper.NewCountsNonNeg | src/CombinatoricsSuper.cc:1368 | the new counts are non-negative |
| CombinatoricsSuper.NewCountsBound | src/CombinatoricsSuper.cc:1368 | the new counts are non-negative and add up to at most the data total |
| CombinatoricsSuper.EMPass | src/CombinatoricsSuper.cc:1347-1373 | one EM pass gives non-negative counts adding up to at most the data total |
| CombinatoricsSuper.PosteriorsNonNeg | src/CombinatoricsSuper.cc:1357-1365 | posteriors are non-negative with per-bin totals in [0, 1] |
| CombinatoricsSuper.EMIterate | src/CombinatoricsSuper.cc:1345-1404 | n EM passes give non-negative process counts |
| CombinatoricsSuper.EMIterateBound | src/CombinatoricsSuper.cc:1345-1404 | after at least one pass the counts add up to at most the data total |
| CombinatoricsSuper.EMStep | src/CombinatoricsSuper.cc:1347-1373 | the loops compute the posterior matrix and the EM pass |
| CombinatoricsSuper.PosteriorsAre | src/CombinatoricsSuper.cc:1350-1365 | normalising every column of the transposed likelihood gives the posteriors |
| CombinatoricsSuper.RunEM | src/CombinatoricsSuper.cc:1345-1404 | the loop computes N_EM_ITER passes |
| CombinatoricsSuper.DrawsPositive | src/CombinatoricsSuper.cc:1322-1332 | the uniform draws have a positive sum |
| CombinatoricsSuper.Prior | src/CombinatoricsSuper.cc:1322-1342 | one prior entry per process |
| CombinatoricsSuper.PriorProperties | src/CombinatoricsSuper.cc:1322-1342 | each prior entry is positive, and the prior sums to one over the floored data total |
| CombinatoricsSuper.InitialPrior | src/CombinatoricsSuper.cc:1322-1342 | the loops compute the prior |
| CombinatoricsSuper.ReplicaFractions | src/CombinatoricsSuper.cc:1404-1412 | one fraction per process |
| CombinatoricsSuper.ReplicaFractionBounds | src/CombinatoricsSuper.cc:1404-1412 | the fractions lie in [0, 1) and sum below one |
| CombinatoricsSuper.FitReplica | src/CombinatoricsSuper.cc:1300-1490 | the fractions are those after 50 EM passes from the random prior, and the metrics are ReplicaMetrics of the replica |
| CombinatoricsSuper.ReplicaMetrics | src/CombinatoricsSuper.cc:1382-1397 | log-likelihood of the fractions, KL and KS of nvec(x) against nvec(x_hat) with x_hat = F p vsum(x), chi-square of x against x_hat; the KS and chi-square values are non-negative |
| CombinatoricsSuper.SqDevNonNeg | src/CombinatoricsSuper.cc:1563-1567 | the summed squared deviations are non-negative |
| CombinatoricsSuper.Values | src/CombinatoricsSuper.cc:1661-1677 | one value per cross section |
| CombinatoricsSuper.Aggregate | src/CombinatoricsSuper.cc:1519-1677 | per process: bootstrap mean times normalisation, the root-mean-square spread (non-negative), the luminosity error, the efficiency and the mean metrics |
| CombinatoricsSuper.ProcessValue | src/CombinatoricsSuper.cc:1553-1561 | the loop computes the bootstrap mean times the normalisation |
| CombinatoricsSuper.ProcessVariance | src/CombinatoricsSuper.cc:1563-1567 | the loop computes the mean squared deviation |
| CombinatoricsSuper.ValueBounds | src/CombinatoricsSuper.cc:1553-1561 | for fraction rows, every process value lies in [0, norm] and they add up to at most norm |
| CombinatoricsSuper.ValuesTotal | src/CombinatoricsSuper.cc:1553-1561 | the values add up to the total of the fraction matrix over N_BOOTSTRAP times the normalisation |
| CombinatoricsSuper.ColumnBound | src/CombinatoricsSuper.cc:1553-1557 | a fraction column over n replicas adds up to between 0 and n |
| CombinatoricsSuper.RowTotalBound | src/CombinatoricsSuper.cc:1553-1557 | n fraction rows add up to at most n |
| CombinatoricsSuper.ColTotalNonNeg | src/CombinatoricsSuper.cc:1553-1557 | fraction totals are non-negative |
| CombinatoricsSuper.ScanRow | src/CombinatoricsSuper.cc:974-980 | scanning one grid row keeps the running strict minimum |
| CombinatoricsSuper.FirstMinimum | src/CombinatoricsSuper.cc:969-981 | the strict-less scan returns the first minimum in row-major order, or the start value and (0, 0) when nothing is below it |
| CombinatoricsSuper.BestGridPoint | src/CombinatoricsSuper.cc:969-981 | the mean-KL argmin: no grid point is smaller, and earlier points are strictly larger |
| CombinatoricsSuper.EffDDBounds | src/CombinatoricsSuper.cc:1731 | the DD efficiency of two efficiencies in [0, 1] lies between their maximum and 1 |
| CombinatoricsSuper.LagrangianNonNeg | src/CombinatoricsSuper.cc:1734-1742 | the Lagrangian cost is non-negative |
| CombinatoricsSuper.GridPairValid | src/CombinatoricsSuper.cc:1726-1731 | grid efficiencies give a positive DD efficiency |
| CombinatoricsSuper.BestEfficiencies | src/CombinatoricsSuper.cc:1712-1751 | the CD and ND efficiencies from MC; the minimal cost over the grid with its first minimiser in scan order |
| CombinatoricsSuper.Replica | src/CombinatoricsSuper.cc:1306-1314 | a bootstrap column: 64 non-negative counts |
| CombinatoricsSuper.ReplicaMatrix | src/CombinatoricsSuper.cc:1293-1492 | one fraction row per replica |
| CombinatoricsSuper.IndexCheck | src/CombinatoricsSuper.cc:850-857 | an index is accepted exactly when it lies in [0, size) |
| CombinatoricsSuper.ZeroBinRow | src/CombinatoricsSuper.cc:877-879 | row 0 of the level-2 bootstrap matrix becomes zero, the rest is unchanged |
| CombinatoricsSuper.CombinatoricsSuper.constructor | src/CombinatoricsSuper.cc:364-376 | the sources stored and no bootstrap matrices or results |
| CombinatoricsSuper.CombinatoricsSuper.EstimateEM | src/CombinatoricsSuper.cc:845-883 | succeeds exactly for valid indices; on failure nothing changes; on success the results are cleared and the three level matrices are the corrected and unfolded bootstraps, with bin 0 zeroed at level 2 |
| CombinatoricsSuper.CombinatoricsSuper.EMsub | src/CombinatoricsSuper.cc:1145-1677 | each process gets: the replica-mean fraction times the level's normalisation, the MC efficiency, the population standard deviation (divided by N_BOOTSTRAP) of the scaled fractions, the luminosity error and the replica-mean metrics; klv[k] is the KL divergence of replica k; for a non-negative normalisation the values lie in [0, norm] and add up to at most norm |
| CombinatoricsSuper.LevelReplicas | src/CombinatoricsSuper.cc:1160-1492 | one fraction row per replica, from the level's density |
| CombinatoricsSuper.FitLevel | src/CombinatoricsSuper.cc:1145-1677 | the same as EMsub, on values |
| CombinatoricsSuper.FitReplicas | src/CombinatoricsSuper.cc:1293-1492 | the replica fraction matrix, the per-replica metrics ReplicaMetrics of each replica, and the KL vector taken from them |
| CombinatoricsSuper.SummaryFits | src/CombinatoricsSuper.cc:1661-1677 | cross sections summarising the replica fractions with the level's normalisation, MC efficiencies and metrics are what the level fit promises |
| CombinatoricsSuper.SummaryBounds | src/CombinatoricsSuper.cc:1553-1561 | the values lie in [0, norm] and add up to at most norm |
| CombinatoricsSuper.ReplicaRows | src/CombinatoricsSuper.cc:1404-1412 | every replica row is a fraction row |

## Left out

**External systems and randomness**

- ROOT/AliROOT I/O: file and tree reading, histogram drawing, canvases, the
  CSV, ASCII and gap-flow outputs, and all `printf` output. These are I/O.
  Tree entries enter ReadTree as already-decoded `RawEvent` values.
- RooUnfold: the response object is modelled only as fill/miss counters and
  histogram bin counts. Its internals are foreign code.
- TRandom3: `Integer`, `Rndm` and `Poisson` are oracle parameters, the
  same for every call. A fixed default seed is therefore not modelled.
- `calcKL`, `logLmultimix`, `std::sqrt`, `CalculateMCReWeight` and the
  `pow`/`exp` grid axes are function parameters. They are transcendental.
- IEEE infinities and NaN are not modelled. Divisions by the normalisation
  or the grid total carry nonzero preconditions, e.g. EMsub requires a
  nonzero visible cross section.

**Not modelled**

- The PileUp correction (`CorrectPileup`), `VdmScale`, the plotting
  members, `PrintData` and `PrintCombinatorics`: they only scale numbers or
  draw them.
- SPD bit splitting and detector vectors: `SPDBitsSplit`,
  `ConstructVectorDet` and `ConstructVectorGen`. Their thresholds act on
  raw detector payloads. The detector and generator signal vectors are
  inputs of ReadTree.
- `printCorrelation` of the cut flow and `TriggerMaskStatistics`. They
  only print.
- `linspace`, `Binomial`, `calcH`, `GetBinomError` and the other helpers
  of `VecOper.cc` that the modelled core does not call.
- The MINUIT refinement after EM. The model returns the EM fractions,
  i.e. MINUIT_ON is false.
- The first Pmat initialisation before the bootstrap loop. It is
  overwritten by the per-replica initialisation.

**Modelled differently from the source**

- Distribution metrics: the source recomputes KL, KS and chi-square after
  every EM pass and keeps the last ones. The model computes them once,
  after the final pass, with the same fractions.
- `EstimateEM`: the scan over (delta, xi_max) is not modelled, because
  each point regenerates the Monte Carlo model and calls EMsub. So are the
  XSlevel filling and the grid files. The index checks and the bootstrap
  matrices are modelled. The argmin is BestGridPoint and one extraction
  is EMsub.
- The final-round sweep over sigma_inel: one pass is BestEfficiencies. The
  vectors it collects are only plotted.
- The efficiency grid: the 0.005 steps of floating-point grid stepping are
  given as a grid sequence rather than generated.
- CombinatoricsSuper.BestEfficiencies: the division by pow(tot, 2) is
  modelled as dividing twice by tot. This is the same over the reals.
- VecOper.Factorial: requires n <= 12. Above that the 32-bit int product
  overflows, which is undefined behaviour in the source.
- VecOper.CalcKS: requires two vectors of equal, non-zero length. An
  empty x or a shorter y makes the source's `.at()` throw
  `std::out_of_range`. A longer y has a defined result in the source:
  yF at index |x|-1 stays 0, so KS is at least 1. That case is not modelled.
- Combinatorics.Combinatorics.GenerateBootStrap: the replica matrices of
  the four masks and their completion flags are ghost results, returned for
  the contract only; the source keeps them as locals.
- Bits.Subspace: counts with unbounded naturals. The source's `uint`
  counters N_events, N_this and N_visible wrap modulo 2^32. The model's
  counts equal the source's only while the total stays below 2^32.
- VecOper.GenerateXHat: requires every row of F to be at least as long as
  P. Otherwise the source's `.at()` throws `std::out_of_range`.
- VecOper.CalcChi2: requires exp to be at least as long as obs. Otherwise
  the source's `.at()` throws `std::out_of_range`.
- VecOper.GetColVec: requires every row to hold the column. Otherwise the
  source's `.at()` throws `std::out_of_range`.
- VecOper.SetColVec: requires at least |vec| rows, each holding the
  column. Otherwise the source's `.at()` throws `std::out_of_range`.
- VecOper.VSort: requires at least |v| sort indices, each below |v|.
  Otherwise the source's `.at()` throws `std::out_of_range`.
- CombinatoricsSuper.BestEfficiencies: the process counts pv are a
  parameter. In the source they are the Pvec left by the last EM pass of
  the last bootstrap replica.
- CombinatoricsSuper.CombinatoricsSuper.EMsub: states the summary of the
  cross sections, not the efficiency-corrected printouts. The extrapolated
  values in the printouts are never stored.
- VecOper.BGSubstract: requires the A, C and E vectors to be at least as
  long as B. Otherwise the source's `.at()` throws `std::out_of_range`;
  the exception is not modelled.
- CombinatoricsSuper.CombinatoricsSuper.EstimateEM: requires a non-empty
  unfolded bootstrap matrix for a valid data index. With an empty one the
  source throws `std::out_of_range` at `BSmatrix2_.at(0)`
  (src/CombinatoricsSuper.cc:877), after clearing the results; the
  exception is not modelled.
- CutFlow.CutFlow.GetPass: requires at least two cuts. The source reads
  the event count from `CMat_.at(1)`, which throws with fewer. The same
  holds for the counting half of printFlow (FlowCounts).
- CutFlow.CutFlow.GetName: requires a valid cut index. `.at()` throws
  otherwise.
- Combinatorics.Combinatorics.GenerateModel: requires the Monte Carlo
  re-weighting function to be non-negative. CalculateMCReWeight is a
  parameter; the source's `pow(M2 + EPS, -delta)` weights are positive for
  the events that pass the mass cut-off.
- Combinatorics.Combinatorics.ReadTree: requires the re-weighting function
  to be non-negative at delta = 0, the default model it generates. The
  source's weight there is `pow(M2 + EPS, 0)`, which is 1.
