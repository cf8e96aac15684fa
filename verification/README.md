# Verified model of the video analytics sample

The repository is a video analytics sample for an Intel GPU: it decodes several channels, sends frames through
pipes to a detector, tracks objects with a kernelised correlation filter, and adds CPU layers to an inference
engine. This project models its self-contained algorithms in Dafny and proves what they are for. Arrays that the
C++ code fills in place are arrays here, with the same loops, branches and constants. Pure expressions are functions.
Threads are state machines over single steps. `float` is `real`, and the exponential is any positive, strictly
increasing function.

`dafny verify dfyconfig.toml` checks the whole project. Some bodies name functions after `hide`; this only keeps
definitions out of a proof that does not need them.

## What is modelled

* **Planning of the DFT in the tracker.** `DftFactorize` splits a length into its largest power of two and odd
  primes. `MixedRadix` defines the reversal of mixed-radix digits and shows that it is a bijection. `DigitCounter` is
  the incremental counter with its carry loop, `BitReversal` the byte table and the 32-bit macro. `DftIndexTable` and
  `DftInit` build the forward table or the inverse table, and `Twiddles` the table of roots of unity.
  `ComplexDivision` has the quotients of spectra.
* **Non-maximum suppression.** `Greedy` gives one specification with exactly one solution. `Proposal` (eager marking,
  eight at a time), `SimplerNms` (lazy, early stop) and `DetectionNms` (lazy, in place) are proved against it and
  compared with each other; `Ranking` says when a sort has one result, and `UnitCells` counts out what an overlap is.
  `DetectionOutput` is the whole detection output layer over all images: suppression per class, the cut of `KeepTopK`,
  and the rows of `DetectionWriter`, on the flat buffers of `ClassLists`.
* **Frame pipeline.** `DualPipe` interleaves the single instructions of all threads of one pipe, with the mutex, the
  condition variable, spurious wake-ups and time-outs. `VaDualPipe` is the object with its two lists, which carries a
  run of that protocol along, so that what holds of every run holds of the object. `FramePipeline` puts producers, the
  counting semaphore, the scheduler of both builds and the inference threads together, and `FrameProgress` shows that
  they finish their work.
* **Double-buffered detector.** `DetectorModel` is the state machine over two requests and the record queue,
  `DetectorObject` (Detector.dfy) the object with its two swapped references.
* **Resamplers.** `Canvas` says which pixels of a plane are painted, and counts how often. The fast paths
  (`ResampleNearest`, `ResampleFast`) are proved against the reference kernels (`ResampleNearest`, `ResampleKernel`),
  and `ResampleMean` says what the interpolation kernel is without its window.
* **Gradient histograms.** `HogGradient` has the weights, the strongest channel and the direction; `HogMap` the
  accumulation, with `Sums` for exchanging the order of finite sums; `HogFeatures` the pass over the image and all of
  it together.
* **Layers.** `SoftmaxColumn`, `SoftmaxLayer` and `RegionYolo`; `Tensor` and `ReorgYolo`; `CtcPath` and `CtcGreedy`.

## Where the code does not do what one might expect

* The build of the scheduler without workload balancing (main.cpp:1015-1108) waits on every pipe in turn, so one
  frame in one pipe leaves it waiting on the next, and frames can stay behind (`FramePipeline.BlockingStrands`).
* `SetMode` (detector.cpp:249-256) names its argument as the synchronous flag and stores it as the asynchronous one.
  Switching to asynchronous operation after a request has run, and only that, returns old results
  (`DetectorModel.StaleBatch`, `DetectorModel.SwitchPairsIff`).
* The eight-wide suppression masks the ratio after computing it, so for a negative threshold and more than eight boxes
  it keeps other boxes than the scalar build for some input (`Proposal.WideAgreesIff`). The two suppression layers
  differ on boxes that do not meet but are less than a pixel apart (`SimplerNms.TestsDiffer`,
  `SimplerNms.LayersAgreeIff`).
* Both reference kernels add half of the scale of the other axis to a coordinate (ext_resample.cpp:114-115,
  163-164). With very different scales the nearest kernel leaves its row (`ResampleNearest.KernelStaysInRow`).
* The table-driven resampler needs two rows and two columns, and three columns when built eight-wide. With fewer
  columns a border test picks the wrong branch; where a subtraction of the unsigned loop bounds wraps, the loops leave
  the plane (`ResampleFast.FastPathIff`, `ResampleFast.StaysInsideIff`).
* With antialiasing, the interpolation kernel leaves pixels at zero where one axis is shrunk and the other enlarged
  more than twice, because no input pixel is within reach (`ResampleMean.AntialiasGap`,
  `ResampleMean.WeightPositiveIff`).
* The reorganising layer loses values when stride * stride does not divide the channels, unless there is a single
  batch of single rows with fewer channels than twice stride * stride, and one column or channels that stride divides
  (`ReorgYolo.LosslessIff`).
* With fewer than two coordinates the region layer applies the logistic twice to one entry
  (`RegionYolo.PartitionIff`).
* The factoriser's 32-bit arithmetic overflows for 2^30 and for the primes above 2147302920, and for no other length
  (`DftFactorize.SplitFitsIff`). The indices into the twiddle buffer overflow for every length above 2^30
  (`Twiddles.IndicesFitIff`).
* The imaginary part of `complexDivision` has a plus sign, so division undoes multiplication only for a real divisor or
  an imaginary product (`ComplexDivision.DivisionUndoesIff`).

## Model

| member | source | states |
|---|---|---|
| `DftFactorize.XorWithPredecessor` | video_analytics_Intel_GPU/video_analytics_example/kcftracker.cpp:1298 | (n - 1) xor n is twice the largest power of two dividing n, less one, so the shifted trick value is that power |
| `DftFactorize.TwoPartDivides` | video_analytics_Intel_GPU/video_analytics_example/kcftracker.cpp:1298-1303 | that power divides n, leaves an odd quotient, and is even exactly for even n |
| `DftFactorize.NoSmallDivisorPrime` | video_analytics_Intel_GPU/video_analytics_example/kcftracker.cpp:1315-1317 | trial division may stop at the square root: no divisor from 2 up to f, and f * f > n, make n prime |
| `DftFactorize.TrialDivide` | video_analytics_Intel_GPU/video_analytics_example/kcftracker.cpp:1305-1322 | the trial-division loop ends, stays inside the factor buffer, and stores odd primes in non-decreasing order whose product is the odd rest |
| `DftFactorize.ReverseFrom` | video_analytics_Intel_GPU/video_analytics_example/kcftracker.cpp:1324-1326 | the swap loop reverses exactly the factors behind the power of two and moves nothing else |
| `DftFactorize.DFTFactorize` | video_analytics_Intel_GPU/video_analytics_example/kcftracker.cpp:1288-1329 | for every n above 5: factors with product n, the largest power of two first for even n, all others odd primes in non-increasing order; up to 5: n itself; entries past the count untouched |
| `DftFactorize.SplitFitsIff` | video_analytics_Intel_GPU/video_analytics_example/kcftracker.cpp:1298-1317 | splitting a length computes nothing outside 32 bits if and only if the length is neither 2^30 nor a prime above 2147302920 |
| `MixedRadix.ReversalInverse` | video_analytics_Intel_GPU/video_analytics_example/kcftracker.cpp:1366-1448 | reversing the digits over a radix list and again over the reversed list gives the number back |
| `MixedRadix.ReversalBijective` | video_analytics_Intel_GPU/video_analytics_example/kcftracker.cpp:1366-1448 | the mixed-radix digit reversal is one-to-one and onto [0, product of the radices) |
| `DigitCounter.NoCarry` | video_analytics_Intel_GPU/video_analytics_example/kcftracker.cpp:1441-1442 | counting up without overflow changes one digit, and raises the reversal by the weight of that digit |
| `DigitCounter.Overflow` | video_analytics_Intel_GPU/video_analytics_example/kcftracker.cpp:1442-1446 | an overflowing digit hands the count on: adding one weight and taking away the next gives the reversal of the higher digits |
| `DigitCounter.Carry` | video_analytics_Intel_GPU/video_analytics_example/kcftracker.cpp:1442-1446 | the carry loop counts the digits up by exactly one, keeps the running index the digit reversal, and never looks past radix[nf] |
| `BitReversal.TableReverses` | video_analytics_Intel_GPU/video_analytics_example/kcftracker.cpp:1224-1242 | each of the 256 literal entries of bitrevTab is its index with eight bits reversed |
| `BitReversal.ThirtyTwoBits` | video_analytics_Intel_GPU/video_analytics_example/kcftracker.cpp:1280-1284 | four table look-ups with the bytes swapped reverse a 32-bit word |
| `BitReversal.BitRevReverses` | video_analytics_Intel_GPU/video_analytics_example/kcftracker.cpp:1280-1284 | the macro, shifted right by 32 - b, reverses b bits |
| `BitReversal.ByteReverses` | video_analytics_Intel_GPU/video_analytics_example/kcftracker.cpp:1391-1394 | one table look-up, shifted right by 8 - b, reverses b bits |
| `DftIndexTable.FourEntries` | video_analytics_Intel_GPU/video_analytics_example/kcftracker.cpp:1394-1398 | four neighbouring indices have one reversal and three fixed offsets from it |
| `DftIndexTable.FillByBytes` | video_analytics_Intel_GPU/video_analytics_example/kcftracker.cpp:1389-1400 | the 256-entry branch stores the scaled bit reversal of every index of the power-of-two digit |
| `DftIndexTable.FillByWords` | video_analytics_Intel_GPU/video_analytics_example/kcftracker.cpp:1401-1413 | so does the 32-bit branch |
| `DftIndexTable.FillBits` | video_analytics_Intel_GPU/video_analytics_example/kcftracker.cpp:1381-1413 | whatever the branch, the power-of-two digit is filled with scaled bit reversals and nothing behind it changes |
| `DftIndexTable.FillBlocks` | video_analytics_Intel_GPU/video_analytics_example/kcftracker.cpp:1415-1432 | the block loop extends the first block to the digit reversals of all n0 indices |
| `DftIndexTable.FillByCounting` | video_analytics_Intel_GPU/video_analytics_example/kcftracker.cpp:1434-1448 | for odd lengths the counter fills every index with its digit reversal |
| `DftIndexTable.TableIsPermutation` | video_analytics_Intel_GPU/video_analytics_example/kcftracker.cpp:1340-1448 | the forward table is a permutation of [0, n0), with an explicit inverse in both directions |
| `DftIndexTable.EqualEndsInvolution` | video_analytics_Intel_GPU/video_analytics_example/kcftracker.cpp:1376-1377 | equal first and last factor make the table its own inverse, because the factor order then leaves equal radices or a single power of two |
| `DftIndexTable.Invert` | video_analytics_Intel_GPU/video_analytics_example/kcftracker.cpp:1450-1460 | the two-at-a-time loop stores the inverse of any digit-reversal table |
| `DftInit.FillWeights` | video_analytics_Intel_GPU/video_analytics_example/kcftracker.cpp:1366-1374 | radix[] holds the suffix products of the factors, digits[] the count zero |
| `DftInit.FillForward` | video_analytics_Intel_GPU/video_analytics_example/kcftracker.cpp:1364-1448 | for every length above 5 the table built is the digit reversal of each index |
| `DftInit.ForwardIsInverse` | video_analytics_Intel_GPU/video_analytics_example/kcftracker.cpp:1376-1377 | where the end factors agree, the forward table left in place is the inverse that was asked for |
| `DftInit.DFTInit` | video_analytics_Intel_GPU/video_analytics_example/kcftracker.cpp:1331-1498 | for every factor list made for n0 the table left in the caller's array is the forward table, or with inv_itab its inverse; the twiddle buffer then holds the mirrored recurrence, and the factors are unchanged |
| `DftInit.SetUp` | video_analytics_Intel_GPU/video_analytics_example/kcftracker.cpp:2055-2056 | factorising and then initialising meets every precondition; the twiddle table is exact if and only if the first twiddle is a root of unity with half-way value -1 |
| `Twiddles.FillWave` | video_analytics_Intel_GPU/video_analytics_example/kcftracker.cpp:1474-1497 | the recurrence fills powers below the middle, their conjugates above it and -1 in the middle, for every length from 3 on |
| `Twiddles.MirroredExact` | video_analytics_Intel_GPU/video_analytics_example/kcftracker.cpp:1463-1497 | on the unit circle every entry i of that table is the i-th power of the first twiddle if and only if w^n0 = 1 for odd n0, or w^(n0/2) = -1 for even n0 |
| `Twiddles.IndicesFitIff` | video_analytics_Intel_GPU/video_analytics_example/kcftracker.cpp:1487-1492 | the indices into the twiddle buffer fit in 32 bits if and only if the length is at most 2^30 |
| `ComplexDivision.DivisionUndoesIff` | video_analytics_Intel_GPU/video_analytics_example/ffttools.hpp:168-184 | dividing a product by one of its factors gives the other back if and only if the divisor is real or the product imaginary; the real part is right in any case |
| `ComplexDivision.DivisionFails` | video_analytics_Intel_GPU/video_analytics_example/ffttools.hpp:177-180 | one, multiplied by 1 + i and divided by it again, is not one |
| `Greedy.KeptSolves` | video_analytics_Intel_GPU/extension/ext_simplernms.cpp:151-168 | the lazy pass keeps a rank exactly when it is eligible and no lower kept rank suppresses it |
| `Greedy.SolutionUnique` | video_analytics_Intel_GPU/extension/ext_proposal.cpp:180-276 | only one set of ranks has that property, so every correct suppression gives the same result |
| `Greedy.StopEarly` | video_analytics_Intel_GPU/extension/ext_proposal.cpp:184-186 | stopping once max ranks are kept gives the first max ranks of the full pass |
| `Proposal.LaneAgreesWithScalar` | video_analytics_Intel_GPU/extension/ext_proposal.cpp:222-234 | the masked lane test and the scalar test agree for a pair of boxes if and only if the boxes meet or the threshold is not negative |
| `Proposal.DeadByCount` | video_analytics_Intel_GPU/extension/ext_proposal.cpp:222-270 | for boxes of whole pixels and a threshold that is not negative both tests ask whether the shared pixels are more than the threshold's part of all pixels of the two boxes |
| `Proposal.WideAgreesWithScalar` | video_analytics_Intel_GPU/extension/ext_proposal.cpp:200-275 | for a threshold that is not negative the eight-wide build and the scalar build keep the same boxes |
| `Proposal.WideAgreesIff` | video_analytics_Intel_GPU/extension/ext_proposal.cpp:200-275 | the two builds keep the same boxes of every input if and only if the threshold is not negative or there are at most eight boxes |
| `Proposal.UnpackBoxes` | video_analytics_Intel_GPU/extension/ext_proposal.cpp:147-155 | every proposal becomes the box of the same index in the four planes, and nothing behind the planes is written |
| `Proposal.MarkDead` | video_analytics_Intel_GPU/extension/ext_proposal.cpp:188-275 | blocks of eight and tail together mark exactly the later boxes that the kept box suppresses |
| `Proposal.NmsCpu` | video_analytics_Intel_GPU/extension/ext_proposal.cpp:158-279 | the eager pass writes exactly the first max_num_out picks of the lazy pass, offset by base_index, and stays inside an index buffer of max_num_out entries |
| `SimplerNms.PerformNms` | video_analytics_Intel_GPU/extension/ext_simplernms.cpp:145-171 | returns the boxes of the first top_n ranks of the lazy pass over positive scores; a bound of zero is no bound |
| `SimplerNms.TestsCompared` | video_analytics_Intel_GPU/extension/ext_simplernms.cpp:157-161 | on proper boxes the two layers differ exactly on pairs that do not meet: the eager test is the lazy test for boxes that meet |
| `SimplerNms.TestsDiffer` | video_analytics_Intel_GPU/extension/ext_simplernms.cpp:157-161 | two boxes half a pixel apart on which the layers do differ |
| `SimplerNms.OverlapsByCount` | video_analytics_Intel_GPU/extension/ext_simplernms.cpp:157-161 | for boxes of whole pixels the lazy test asks the same |
| `SimplerNms.LayersAgree` | video_analytics_Intel_GPU/extension/ext_simplernms.cpp:145-171 | with no such pair among the ranked boxes, both layers keep the same ranks |
| `SimplerNms.LayersAgreeIff` | video_analytics_Intel_GPU/extension/ext_simplernms.cpp:145-171 | the two layers keep the same ranks of every list drawn from a collection of proper boxes if and only if the threshold is negative or no box of it reaches another with its rim only |
| `SimplerNms.SortAndKeepAtMostTopN` | video_analytics_Intel_GPU/extension/ext_simplernms.cpp:173-187 | at most top_n proposals are left; their confidences do not increase, ordinals decrease among equals, and no proposal left out has a higher confidence, nor the same and a higher ordinal |
| `SimplerNms.TopUnique` | video_analytics_Intel_GPU/extension/ext_simplernms.cpp:176-179 | with distinct ordinals, which break ties of confidence, there is only one such list |
| `SimplerNms.SortedNms` | video_analytics_Intel_GPU/extension/ext_simplernms.cpp:145-187 | sort and pass together return what the proposals determine: the lazy selection over the foremost of them; the scores behind the boxes are positive and do not increase |
| `Ranking.SortUnique` | video_analytics_Intel_GPU/extension/ext_detectionoutput.cpp:338-348 | under a total comparator there is only one sorted permutation |
| `Ranking.ForemostUnique` | video_analytics_Intel_GPU/extension/ext_detectionoutput.cpp:498-500 | under a total comparator a partial sort has one result |
| `DetectionNms.ByConfidenceTotal` | video_analytics_Intel_GPU/extension/ext_detectionoutput.cpp:338-348 | ConfidenceComparator is a strict weak order and total, so std::partial_sort_copy has one result |
| `DetectionNms.ForemostRanked` | video_analytics_Intel_GPU/extension/ext_detectionoutput.cpp:496-500 | whatever std::partial_sort_copy returns is the one ranked list that the other statements are about |
| `DetectionNms.RankedBest` | video_analytics_Intel_GPU/extension/ext_detectionoutput.cpp:488-500 | the buffer holds distinct candidates above the threshold in strictly descending order, and every candidate left out ranks below all of it |
| `DetectionNms.RankedDescending` | video_analytics_Intel_GPU/extension/ext_detectionoutput.cpp:338-348 | in numbers: confidences in the buffer do not increase, the lower index comes first among equals, and no candidate left out has a higher confidence, nor the same and a lower index |
| `DetectionNms.ExceedsByCount` | video_analytics_Intel_GPU/extension/ext_detectionoutput.cpp:351-385 | for whole-number boxes and a threshold that is not negative one box excludes another exactly when the unit cells that they share are more than the threshold's part of all their cells |
| `DetectionNms.Collect` | video_analytics_Intel_GPU/extension/ext_detectionoutput.cpp:488-494 | the index list holds exactly the candidates, in index order |
| `DetectionNms.Select` | video_analytics_Intel_GPU/extension/ext_detectionoutput.cpp:502-518 | although the list is overwritten while it is read, it ends up as the lazy selection over the ranked buffer |
| `DetectionNms.Nms` | video_analytics_Intel_GPU/extension/ext_detectionoutput.cpp:481-519 | one class: the front of the index list is the selection over the ranked candidates, and other stretches are untouched |
| `DetectionNms.SelectedSound` | video_analytics_Intel_GPU/extension/ext_detectionoutput.cpp:502-518 | kept indices are distinct, above the confidence threshold, in descending order, and overlap pairwise at most the threshold |
| `DetectionNms.SelectedComplete` | video_analytics_Intel_GPU/extension/ext_detectionoutput.cpp:506-513 | every ranked candidate that is dropped overlaps a kept one that ranks above it |
| `DetectionNms.SelectedByCount` | video_analytics_Intel_GPU/extension/ext_detectionoutput.cpp:488-518 | so for such boxes, in numbers: kept confidences are above the threshold and do not increase, no two kept boxes share too many cells, and every ranked box that is missing shares too many with a kept one of at least its confidence |
| `KeepTopK.Gather` | video_analytics_Intel_GPU/extension/ext_detectionoutput.cpp:206-217 | the vector holds every detection of the image, whose groups start at any offset, with its score and class |
| `KeepTopK.Deal` | video_analytics_Intel_GPU/extension/ext_detectionoutput.cpp:223-231 | the rewriting loop gives each class, in place, exactly the indices of the first k ranked detections that carry its label |
| `KeepTopK.CutImage` | video_analytics_Intel_GPU/extension/ext_detectionoutput.cpp:201-233 | the cut fires exactly when there is a bound and more detections; then exactly keep_top_k are left, each list part of its old one and sorted, and no dropped detection of any class scores higher than a kept one; otherwise nothing changes; the lists of other images never do |
| `KeepTopK.CutFromOld` | video_analytics_Intel_GPU/extension/ext_detectionoutput.cpp:223-231 | what a class keeps and what it loses are together its old list, nothing gained or repeated |
| `KeepTopK.CutIsBest` | video_analytics_Intel_GPU/extension/ext_detectionoutput.cpp:219-231 | dealing out the first k entries of any result of the sort leaves the k best: sublists of the old lists, sorted, nothing lost that beats anything kept |
| `KeepTopK.BackNoBetter` | video_analytics_Intel_GPU/extension/ext_detectionoutput.cpp:219-221 | a detection dealt from behind the cut scores no higher than one dealt from before it, whatever their classes |
| `KeepTopK.ListSorted` | video_analytics_Intel_GPU/extension/ext_detectionoutput.cpp:219-231 | the rewritten list of every class is sorted by confidence |
| `KeepTopK.CutTotal` | video_analytics_Intel_GPU/extension/ext_detectionoutput.cpp:226-232 | the counts of the classes add up to the number of entries dealt |
| `DetectionOutput.ClassNms` | video_analytics_Intel_GPU/extension/ext_detectionoutput.cpp:164-190 | one class of one image: its list becomes its selection, the background class stays empty, all other lists are untouched |
| `DetectionOutput.ClassByCount` | video_analytics_Intel_GPU/extension/ext_detectionoutput.cpp:164-190 | the same of the list of a class, with confidences, boxes and sizes at their places in the tensors; nothing for the background |
| `DetectionOutput.ImageNms` | video_analytics_Intel_GPU/extension/ext_detectionoutput.cpp:164-190 | all classes of one image get their selections, and other images are untouched |
| `DetectionOutput.Image` | video_analytics_Intel_GPU/extension/ext_detectionoutput.cpp:161-233 | suppression and cut leave the best keep_top_k detections of that image, or all of them |
| `DetectionOutput.AllFinished` | video_analytics_Intel_GPU/extension/ext_detectionoutput.cpp:161-241 | once every image has been cut, at most N * keep_top_k rows are left and every listed index is a prior |
| `DetectionOutput.Execute` | video_analytics_Intel_GPU/extension/ext_detectionoutput.cpp:159-288 | the whole layer: every image ends with the best of its selections, and the writer, whose bound follows from the cut, writes exactly their rows |
| `DetectionWriter.ImagesBound` | video_analytics_Intel_GPU/extension/ext_detectionoutput.cpp:205-241 | images with at most k detections each have at most N * k rows together |
| `DetectionWriter.Write` | video_analytics_Intel_GPU/extension/ext_detectionoutput.cpp:236-288 | on the two error statuses nothing is written; otherwise exactly the rows of all detections, group by group, read in range, then -1 if there is room, then zeros |
| `DetectionWriter.RowFields` | video_analytics_Intel_GPU/extension/ext_detectionoutput.cpp:252-273 | a row is image, class, confidence and the four corners, each read at its place in the tensors, with boxes shared between the classes or not |
| `DetectionWriter.WritesIff` | video_analytics_Intel_GPU/extension/ext_detectionoutput.cpp:236-245 | rows are written if and only if a row has seven numbers, the bound is not negative or there is no image, and all rows within the bound have room |
| `DualPipe.PipeSafe` | video_analytics_Intel_GPU/video_analytics_example/dualpipe.cpp:69-148 | in every run of any number of threads: the mutex is never released or a list touched without holding it, acquisitions match releases, at most one thread is inside, every buffer is in exactly one place, and loads deliver in store order |
| `DualPipe.MutexKept` | video_analytics_Intel_GPU/video_analytics_example/dualpipe.cpp:69-148 | every single instruction keeps mutual exclusion and the pairing of acquisitions and releases |
| `DualPipe.PlacesKept` | video_analytics_Intel_GPU/video_analytics_example/dualpipe.cpp:69-148 | every single instruction keeps each buffer on the free list, in the FIFO or in one thread's hands |
| `DualPipe.NewestFirst` | video_analytics_Intel_GPU/video_analytics_example/dualpipe.cpp:75-94 | the buffer returned last is the one handed out next |
| `DualPipe.WakeKept` | video_analytics_Intel_GPU/video_analytics_example/dualpipe.cpp:97-148 | every instruction keeps: while a consumer waits, each frame in the FIFO is matched by a signal still to come or a consumer about to look |
| `DualPipe.NeverDeadlocked` | video_analytics_Intel_GPU/video_analytics_example/dualpipe.cpp:69-148 | in every run, as long as some thread is inside an operation and not asleep, some thread can execute an instruction or signal |
| `DualPipe.NoLostWakeup` | video_analytics_Intel_GPU/video_analytics_example/dualpipe.cpp:97-148 | in every run a consumer asleep on a non-empty FIFO has a signal still to come, or another consumer is about to look |
| `DualPipe.LoneConsumerWoken` | video_analytics_Intel_GPU/video_analytics_example/dualpipe.cpp:97-148 | a lone consumer is never asleep on a non-empty FIFO with no signal still to come |
| `VaDualPipe.Pipe.constructor` | video_analytics_Intel_GPU/video_analytics_example/dualpipe.cpp:31-49 | Initialize leaves the frames on the free list, last one first, in the initial state of the protocol |
| `VaDualPipe.Pipe.TryGet` | video_analytics_Intel_GPU/video_analytics_example/dualpipe.cpp:69-85 | one round of Get extends the run of the protocol by its four instructions, and the newest free buffer is then in the hands of this thread only |
| `VaDualPipe.Pipe.Put` | video_analytics_Intel_GPU/video_analytics_example/dualpipe.cpp:90-95 | pushes at the front of the free list, as an operation of the run |
| `VaDualPipe.Pipe.Load` | video_analytics_Intel_GPU/video_analytics_example/dualpipe.cpp:97-127 | takes the oldest frame; with a time limit and no frame it waits once, looks again and gives up, without one it is left asleep; the k-th frame delivered is the k-th stored |
| `VaDualPipe.Pipe.Resume` | video_analytics_Intel_GPU/video_analytics_example/dualpipe.cpp:102-124 | a consumer that was woken takes the oldest frame, or goes on waiting where another has taken it |
| `VaDualPipe.Pipe.LoadNoWait` | video_analytics_Intel_GPU/video_analytics_example/dualpipe.cpp:129-140 | takes the oldest frame or none; the k-th frame delivered is the k-th stored |
| `VaDualPipe.Pipe.Store` | video_analytics_Intel_GPU/video_analytics_example/dualpipe.cpp:142-148 | appends to the FIFO, and a waiting consumer, if there is one, is woken |
| `VaDualPipe.Pipe.Safe` | video_analytics_Intel_GPU/video_analytics_example/dualpipe.cpp:69-148 | at all times no buffer is on two lists or twice on one, none is lost, and the FIFO is what has been stored and not loaded |
| `FramePipeline.NothingStranded` | video_analytics_Intel_GPU/video_analytics_example/main.cpp:1110-1195 | in every run, with any number of producers and pipes, a scheduler blocked on semaphore value 0 leaves all pipes empty once every store has been posted |
| `FramePipeline.BackedKept` | video_analytics_Intel_GPU/video_analytics_example/main.cpp:719-720 | every step keeps each frame in a pipe backed by a post, made or still to come, or by the scan in progress |
| `FramePipeline.PermitsConserved` | video_analytics_Intel_GPU/video_analytics_example/main.cpp:1110-1147 | in every run each round of the scheduler is paid for by one post, each post by one stored frame and each wake-up of an inference thread by one order of the scheduler, and inference thread 1 gets the frames of channel 0 and no others |
| `FramePipeline.EndToEndOrder` | video_analytics_Intel_GPU/video_analytics_example/main.cpp:1110-1195 | the frames of a pipe reach inference in store order, none lost and none repeated |
| `FramePipeline.QuiescentMeansDone` | video_analytics_Intel_GPU/video_analytics_example/main.cpp:1265-1299 | when all threads wait, everything produced has been inferred, in order |
| `FrameProgress.NeverDeadlocked` | video_analytics_Intel_GPU/video_analytics_example/main.cpp:1110-1269 | in every run of the build with workload balancing some thread can move without a new frame, as long as a frame has not been inferred |
| `FrameProgress.WorkIsDone` | video_analytics_Intel_GPU/video_analytics_example/main.cpp:1110-1269 | after the last store, in whatever order the threads move, they move no more often than a bound computed from the state, and once none can move every frame has been inferred in order |
| `FramePipeline.BlockingStrands` | video_analytics_Intel_GPU/video_analytics_example/main.cpp:1015-1108 | the build without workload balancing can wait on one pipe while another holds a frame nobody will announce, if and only if there are two pipes and a producer |
| `DetectorModel.InsertKept` | video_analytics_Intel_GPU/video_analytics_example/detector.cpp:171-247 | one accepted image delivers at most the oldest batch with its own results, and the queue is the outstanding batch followed by the batch being filled |
| `DetectorModel.RunPairs` | video_analytics_Intel_GPU/video_analytics_example/detector.cpp:171-247 | over all runs in a fixed mode, from any state with nothing queued: nothing lost, repeated or reordered, each batch paired with its own images, a delay of one batch in asynchronous mode and none in synchronous mode, no write into a running request |
| `DetectorModel.LoadedClean` | video_analytics_Intel_GPU/video_analytics_example/detector.cpp:101-113 | a detector just loaded is such a state |
| `DetectorModel.SwitchSound` | video_analytics_Intel_GPU/video_analytics_example/detector.cpp:249-256 | the invariant holds after a mode switch if and only if it is to synchronous operation or the current request has never run |
| `DetectorModel.SwitchPairsIff` | video_analytics_Intel_GPU/video_analytics_example/detector.cpp:249-256 | after a switch every run pairs its batches with their own images, and the exception never happens, if and only if it is such a switch |
| `DetectorModel.SwitchedRun` | video_analytics_Intel_GPU/video_analytics_example/detector.cpp:249-256 | from a sound switch on, whatever ran before, every run pairs its batches with their own images |
| `DetectorModel.StaleBatch` | video_analytics_Intel_GPU/video_analytics_example/detector.cpp:249-256 | otherwise the first batch after the switch comes back with the results of an older one |
| `DetectorObject.Detector.constructor` | video_analytics_Intel_GPU/video_analytics_example/detector.cpp:101-113 | loading yields two requests that have not run, an empty queue and asynchronous mode |
| `DetectorObject.Detector.FillOne` | video_analytics_Intel_GPU/video_analytics_example/detector.cpp:175-196 | wraps the proper request at the start of a batch, queues the record and writes the pixels into its slot |
| `DetectorObject.Detector.FlushBatch` | video_analytics_Intel_GPU/video_analytics_example/detector.cpp:197-246 | starts one request, collects the other with its records, and swaps them in asynchronous mode |
| `DetectorObject.Detector.InsertImage` | video_analytics_Intel_GPU/video_analytics_example/detector.cpp:171-247 | the object with its two aliased requests behaves as the model that the run theorems are about |
| `DetectorObject.Detector.SetMode` | video_analytics_Intel_GPU/video_analytics_example/detector.cpp:249-256 | waits for both requests, drops the queue, and stores its argument as the asynchronous flag |
| `ResampleNearest.NearestNeighborKernel` | video_analytics_Intel_GPU/extension/ext_resample.cpp:151-174 | the reference kernel paints the whole plane, each pixel once, and nothing outside it |
| `ResampleNearest.RoundNearest` | video_analytics_Intel_GPU/extension/ext_resample.cpp:166-167 | the column and the row read are the nearest to the source coordinate, and of two the farther from zero |
| `ResampleNearest.KernelStaysInRow` | video_analytics_Intel_GPU/extension/ext_resample.cpp:163-169 | its columns stay in range if and only if fy < 2 * fx, because it adds half of the other axis's scale |
| `ResampleNearest.Upsample2xNearest` | video_analytics_Intel_GPU/extension/ext_resample.cpp:176-198 | paints what the reference kernel paints at scale 1/2, each pixel exactly once, for every image size |
| `ResampleNearest.Upsample4xNearest` | video_analytics_Intel_GPU/extension/ext_resample.cpp:201-227 | paints what the reference kernel paints at scale 1/4, each pixel exactly once |
| `ResampleKernel.InterpolationKernel` | video_analytics_Intel_GPU/extension/ext_resample.cpp:101-149 | the window loops over every pixel paint the quotient of weighted sum and weight sum, each pixel once, and nothing outside the plane |
| `ResampleKernel.KernelWithin` | video_analytics_Intel_GPU/extension/ext_resample.cpp:112-146 | at every scale the value lies between the least and the greatest pixel of the image, or is zero where no tap has weight; so a constant image stays constant |
| `ResampleMean.KernelIsMean` | video_analytics_Intel_GPU/extension/ext_resample.cpp:112-146 | at every scale, with and without antialiasing, the window loops give the mean of the whole image weighted by how much closer than the reach a pixel is on each axis; the reach is the scale with antialiasing and one pixel without |
| `ResampleMean.SinglePixel` | video_analytics_Intel_GPU/extension/ext_resample.cpp:123-144 | a single bright pixel gives a value other than zero exactly when it is within reach on both axes, and then the product of the two differences, as a part of the weights |
| `ResampleMean.WeightPositiveIff` | video_analytics_Intel_GPU/extension/ext_resample.cpp:129-146 | an output pixel has weight if and only if some column and some row of the image are within reach |
| `ResampleMean.NearestHasWeight` | video_analytics_Intel_GPU/extension/ext_resample.cpp:129-146 | so it has wherever the nearest pixel is inside, if the reach is more than half a pixel |
| `ResampleMean.AntialiasGap` | video_analytics_Intel_GPU/extension/ext_resample.cpp:73-144 | with antialiasing, an image of ones that is widened four times and halved in height has a pixel of zero |
| `ResampleKernel.TriangleWeights` | video_analytics_Intel_GPU/extension/ext_resample.cpp:97-99 | at scale 1/4 the triangle has weight on exactly two source coordinates, which add up to one |
| `ResampleKernel.KernelIsBlend` | video_analytics_Intel_GPU/extension/ext_resample.cpp:112-146 | at scale 1/4 the 25-tap kernel is a blend of four taps, with those outside the image left out, for every pixel of every image |
| `ResampleFast.TableProducts` | video_analytics_Intel_GPU/extension/ext_resample.cpp:234-290 | every table entry is the product of a row weight and a column weight of the triangle |
| `ResampleFast.CoefProducts` | video_analytics_Intel_GPU/extension/ext_resample.cpp:334-342 | the border shuffles and zeroed rows remove exactly the taps outside the image |
| `ResampleFast.InsideWeights` | video_analytics_Intel_GPU/extension/ext_resample.cpp:455-480 | inside, the weights add up to one, so the division may be left out |
| `ResampleFast.HalfIsBlend` | video_analytics_Intel_GPU/extension/ext_resample.cpp:328-360 | four lanes are the four-tap blend, whatever memory holds outside the image |
| `ResampleFast.Upsample4xTriangle` | video_analytics_Intel_GPU/extension/ext_resample.cpp:229-672 | wherever its loops stay inside, the path paints its blocks, each pixel exactly once; with two columns, or three in the 8-wide build, that is what InterpolationKernel paints at scale 1/4 without antialiasing |
| `ResampleFast.PathIsKernel` | video_analytics_Intel_GPU/extension/ext_resample.cpp:229-672 | with two rows and enough columns every pixel of the path is the pixel of the kernel, whatever memory holds |
| `ResampleFast.StaysInsideIff` | video_analytics_Intel_GPU/extension/ext_resample.cpp:396-672 | the unsigned loop bounds keep the loops inside the plane if and only if there are two rows and, in the 8-wide build, two columns |
| `ResampleFast.FastPathIff` | video_analytics_Intel_GPU/extension/ext_resample.cpp:229-672 | the loops stay inside and the path is the kernel for every memory if and only if there are two rows and two columns, or three columns in the 8-wide build |
| `ResampleFast.OneColumnTooFew` | video_analytics_Intel_GPU/extension/ext_resample.cpp:334-342 | with one column a block of four gives a wrong pixel for some memory |
| `ResampleFast.TwoColumnsTooFew` | video_analytics_Intel_GPU/extension/ext_resample.cpp:334-342 | with two columns the exclusive border branch of the 8-wide build gives a wrong pixel for some memory |
| `HogGradient.FillWeights` | video_analytics_Intel_GPU/video_analytics_example/fhog.cpp:130-152 | for every cell size the two weights of a pixel share out one, and nearest[] points to the cell that gets the rest |
| `HogGradient.Linear` | video_analytics_Intel_GPU/video_analytics_example/fhog.cpp:139-152 | for an even cell size the share falls linearly with the distance from the cell's centre |
| `HogGradient.StrongestChannel` | video_analytics_Intel_GPU/video_analytics_example/fhog.cpp:560-576 | picks the first channel of the greatest gradient magnitude |
| `HogGradient.ChooseSector` | video_analytics_Intel_GPU/video_analytics_example/fhog.cpp:578-595 | the loop over nine boundaries finds the direction among all 18 with the greatest signed product, the first in scan order, although an else-branch skips tests |
| `HogGradient.GreatestProjection` | video_analytics_Intel_GPU/video_analytics_example/fhog.cpp:578-595 | in numbers: the direction found has the projection of greatest size among the nine boundaries, and is on its side |
| `HogFeatures.FirstPass` | video_analytics_Intel_GPU/video_analytics_example/fhog.cpp:553-601 | the pass over the inner pixels stores for each the magnitude of its strongest channel and its direction, signed and unsigned, and no pixel of the border is written |
| `HogFeatures.DoneSound` | video_analytics_Intel_GPU/video_analytics_example/fhog.cpp:597-599 | after that pass every inner pixel has an unsigned direction that is its signed one modulo nine, as the accumulation needs |
| `HogFeatures.FeatureMap` | video_analytics_Intel_GPU/video_analytics_example/fhog.cpp:553-665 | from the derivatives on: first pass, weights, neighbour directions and accumulation together leave the sums of all deposits |
| `HogMap.AddPixel` | video_analytics_Intel_GPU/video_analytics_example/fhog.cpp:625-659 | the eight guarded additions of one pixel change every map entry by exactly its deposit, without aliasing between cells or bins |
| `HogMap.Accumulate` | video_analytics_Intel_GPU/video_analytics_example/fhog.cpp:617-665 | every entry of the map is the sum of the deposits of all pixels of all cells |
| `HogMap.UnsignedIsSum` | video_analytics_Intel_GPU/video_analytics_example/fhog.cpp:631-658 | in every cell map[s] = map[9 + s] + map[18 + s] |
| `HogMap.MassConserved` | video_analytics_Intel_GPU/video_analytics_example/fhog.cpp:617-665 | the unsigned total is the sum over inner pixels of magnitude times the weights in range |
| `HogMap.CountsInFull` | video_analytics_Intel_GPU/video_analytics_example/fhog.cpp:635-659 | a pixel counts with its whole magnitude if and only if it is zero or both neighbour cells exist, and never with more |
| `HogMap.FirstMoment` | video_analytics_Intel_GPU/video_analytics_example/fhog.cpp:617-665 | for an even cell size a pixel between cells is spread about its own place: its unsigned deposits times the rows of the centres of their cells add up to its magnitude times its row, and likewise for columns |
| `SoftmaxColumn.Distribution` | video_analytics_Intel_GPU/extension/common/softmax.h:123-139 | for every positive increasing exponential the results of a column are positive and sum to one |
| `SoftmaxColumn.OrderKept` | video_analytics_Intel_GPU/extension/common/softmax.h:123-139 | one score is below another if and only if its result is |
| `SoftmaxColumn.ShiftFree` | video_analytics_Intel_GPU/extension/common/softmax.h:39-43 | for a multiplicative exponential the subtraction of the maximum does not change the result |
| `SoftmaxLayer.Block` | video_analytics_Intel_GPU/extension/common/softmax.h:62-86 | the three passes over neighbouring lanes leave the softmax of each of their columns and change no other entry |
| `SoftmaxLayer.Location` | video_analytics_Intel_GPU/extension/common/softmax.h:124-138 | the scalar passes, which read their own stores back, leave the softmax of one location and change no other entry |
| `SoftmaxLayer.Batch` | video_analytics_Intel_GPU/extension/common/softmax.h:60-139 | blocks of any width and the scalar tail cover every location of a batch |
| `SoftmaxLayer.SoftmaxGeneric` | video_analytics_Intel_GPU/extension/common/softmax.h:58-141 | every location of every batch gets its softmax, and nothing outside the batches changes |
| `SoftmaxLayer.ShiftedPointer` | video_analytics_Intel_GPU/extension/common/softmax.h:35-38 | the shifted pointers of the one-location code address channel and location of the right batch |
| `SoftmaxLayer.SoftmaxManyBatches` | video_analytics_Intel_GPU/extension/common/softmax.h:33-55 | the flat loop over all locations does the same |
| `SoftmaxLayer.SameSoftmax` | video_analytics_Intel_GPU/extension/common/softmax.h:33-141 | the two codes leave equal values, for every number of lanes |
| `RegionYolo.LogisticOpen` | video_analytics_Intel_GPU/extension/ext_region_yolo.cpp:91-93 | the logistic is between 0 and 1 and keeps the order |
| `RegionYolo.LogisticOdds` | video_analytics_Intel_GPU/extension/ext_region_yolo.cpp:91-93 | for a multiplicative exponential the logistic of a value and of its opposite add up to one, and their ratio is the exponential of the value |
| `RegionYolo.IndexIs` | video_analytics_Intel_GPU/extension/ext_region_yolo.cpp:83-89 | entry_index with anchor and location packed into one number is the dense offset of the entry |
| `RegionYolo.ClassOffset` | video_analytics_Intel_GPU/extension/ext_region_yolo.cpp:71-74 | the softmax of anchor b starts at the class scores of anchor b |
| `RegionYolo.Execute` | video_analytics_Intel_GPU/extension/ext_region_yolo.cpp:44-76 | for every shape: activated boxes below, softmaxed class scores above, in every anchor of every batch |
| `RegionYolo.BoxEntry` | video_analytics_Intel_GPU/extension/ext_region_yolo.cpp:57-69 | entries 0, 1 and coords get the logistic, a second one where coords is below two, all others are copies |
| `RegionYolo.EntryOdds` | video_analytics_Intel_GPU/extension/ext_region_yolo.cpp:57-69 | with two or more coordinates entries 0, 1 and coords are left as probabilities whose odds are the exponential of the input |
| `RegionYolo.ClassEntry` | video_analytics_Intel_GPU/extension/ext_region_yolo.cpp:71-74 | each class entry is the softmax over the input scores of its location |
| `RegionYolo.Partition` | video_analytics_Intel_GPU/extension/ext_region_yolo.cpp:54-75 | with at least two coordinates every entry is logistic and in (0, 1), or positive softmax, or untouched |
| `RegionYolo.OutputIsLayer` | video_analytics_Intel_GPU/extension/ext_region_yolo.cpp:44-76 | for every input there is an output that the layer may leave, and it is given as a function |
| `RegionYolo.TwiceDiffers` | video_analytics_Intel_GPU/extension/ext_region_yolo.cpp:57-69 | a second logistic changes the value of every input of at least one |
| `RegionYolo.PartitionIff` | video_analytics_Intel_GPU/extension/ext_region_yolo.cpp:54-75 | every input leaves exactly those three kinds of entries if and only if there are at least two coordinates |
| `Tensor.FlatInside` | video_analytics_Intel_GPU/extension/ext_reorg_yolo.cpp:57 | different places of a dense tensor have different offsets, below its size |
| `ReorgYolo.Lossless` | video_analytics_Intel_GPU/extension/ext_reorg_yolo.cpp:50-67 | when stride * stride divides the channels, the read offset is a bijection of all offsets with an explicit inverse |
| `ReorgYolo.PatchPlace` | video_analytics_Intel_GPU/extension/ext_reorg_yolo.cpp:50-67 | pixel (dy, dx) of the patch at (h, w) of channel c goes to channel (dy * stride + dx) * k + c at (h, w) |
| `ReorgYolo.ReadOnceIff` | video_analytics_Intel_GPU/extension/ext_reorg_yolo.cpp:50-67 | no input is read twice if and only if stride * stride divides the channels, or there is a single batch of single rows with fewer channels than twice stride * stride |
| `ReorgYolo.PermutesIff` | video_analytics_Intel_GPU/extension/ext_reorg_yolo.cpp:50-67 | every read is inside an input of the size of the output and none is made twice if and only if stride * stride divides the channels, or the shape is such a row and has one column or channels that stride divides |
| `ReorgYolo.LosslessIff` | video_analytics_Intel_GPU/extension/ext_reorg_yolo.cpp:50-67 | under exactly the same condition every value of such an input is read |
| `ReorgYolo.Execute` | video_analytics_Intel_GPU/extension/ext_reorg_yolo.cpp:50-71 | the four loops copy each output from its read offset, for every stride; under that condition every input value is in the output, and where stride * stride divides the channels it is at a known place |
| `ReorgYolo.DividesInside` | video_analytics_Intel_GPU/extension/ext_reorg_yolo.cpp:50-67 | where it divides them, the loops read inside an input of the size of the output |
| `CtcPath.CollapseAlign` | video_analytics_Intel_GPU/extension/ext_ctc_greedy.cpp:85-90 | every alignment of a label sequence collapses to it: repeats, blanks and separated doubles |
| `CtcPath.CollapseIffAligned` | video_analytics_Intel_GPU/extension/ext_ctc_greedy.cpp:85-90 | a path decodes to exactly those labels of which it is an alignment, in both directions |
| `CtcGreedy.ArgMax` | video_analytics_Intel_GPU/extension/ext_ctc_greedy.cpp:72-83 | the first of the largest probabilities |
| `CtcGreedy.OffsetsAre` | video_analytics_Intel_GPU/extension/ext_ctc_greedy.cpp:72-92 | scores and indicators are read at their places in dense tensors of steps, sequences and classes |
| `CtcGreedy.SequenceEnd` | video_analytics_Intel_GPU/extension/ext_ctc_greedy.cpp:92-94 | the first step after the start with a zero indicator, or the last step |
| `CtcGreedy.DecodeRow` | video_analytics_Intel_GPU/extension/ext_ctc_greedy.cpp:66-95 | a row is the collapsed best path up to the sequence end, then -1, and no other row changes |
| `CtcGreedy.Execute` | video_analytics_Intel_GPU/extension/ext_ctc_greedy.cpp:61-97 | so for all rows |

## Left out

* Kernel launches, surfaces, media decoding, model loading, drawing, statistics and command lines: calls into code
  that is not part of this model.
* Rounding of `float`, overflow to infinity and not-a-number: arithmetic is over `real`. The polynomials of
  fast_exp.h and opt_exp.h are replaced by any positive increasing function.
- DFTFactorize: the lengths on which 32-bit arithmetic overflows are left out, and only those (SplitFitsIff); the factor buffer must be long enough for three-fold growth, as the C code has no check.
- DFTInit: lengths above 2^30, on which the indices into the twiddle buffer overflow, are left out (IndicesFitIff); the twiddle buffer seen as integers is a separate array `scratch`, because Dafny has no casts between arrays; the first twiddle is a parameter, so how near the table DFTTab and the sine come to a root of unity is not modelled.
- Upsample4xTriangle: one plane; the loops over batch and channels around it only add offsets. Input memory is a function, so reads outside the plane that a zero weight cancels are allowed. Images on which the loops would leave the plane are left out, and only those (StaysInsideIff).
- InterpolationKernel: one plane, as above.
- CutImage: `std::sort` is any sort, so equal scores may be dealt in any order.
- Execute: in the detection output layer the decoding of boxes from priors and the reordering of the confidences are inputs; the classes of an image, which OpenMP may run in parallel on separate stretches, run one after the other and share one stretch of the buffer. In the region and reorganising layers, tensors with an empty dimension are left out; the decoder needs at least one step and one class, as the code reads both without a check.
- SameSoftmax: one exponential for both codes, although the vector code calls a polynomial; how near that is to `expf` is not modelled.
- Load: the object's methods run with nobody else inside the mutex, so no frame arrives during a timed wait, and an untimed wait ends the method, to be continued by Resume; interleavings are the subject of the protocol.
- PipeSafe: starts after Initialize, with the frames on the free list; the destructor is not modelled.
- NothingStranded: starts after all semaphores are initialised; the run flag that ends the loops is not modelled. A pipe is its FIFO here, which the protocol of one pipe justifies.
- RunPairs: the decoding of the result rows into boxes (detector.cpp:218-241) is not modelled, a result is named by the pixels that it was computed from.
- StrongestChannel: the magnitude is any function of the two derivatives; the square root and the filter that makes the derivatives are not modelled.
* Prior decoding, anchors, proposal enumeration, retrieving of boxes, box clamps:
  each is a loop over independent elements without a property across functions.
* `normalizeAndTruncate_orig`, `PCAFeatureMaps`, template sizing in `getFeatures`, `rearrange` and the parameter block
  of the Gaussian correlation: index arithmetic without a property across functions.
* Exclusive ownership of a frame after `Put`: main.cpp:1056 reads the frame's channel after main.cpp:1044 has returned
  it, so only the pipe's own bookkeeping is claimed.
* Reference counting of surface memory in common.cpp.
