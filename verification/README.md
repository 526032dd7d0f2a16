# Verified models of SRED/ESRED queue discs and of the ns-3 tools around them

The repository implements the Stabilized RED queue disc and a timestamped extension of it
inside an ns-3 tree. This project models the parts of it that hold state or follow a
protocol, and proves properties of those models over all inputs and all runs.

* Test runner** (`WorkerPool*.dfy`, `NameLists.dfy`, `TestRunner.dfy`). The thread pool is a
  step relation over a main thread, workers, two FIFOs and an interrupt flag; a step is one
  atomic action of one thread and a schedule is any sequence of actors. `Runner` holds the
  same state in fields, and each of its methods is proved to be one step.
* Queue discs** (`RedQueue.dfy`, `RedConservation.dfy`, `RedOccupancy.dfy`,
  `RedDecisions.dfy`, `RedFrequency.dfy`, `RedCredit.dfy`, `StabilizedRed.dfy`,
  `ExtendedStabilizedRed.dfy`, `RedRefinement.dfy`). The two discs are one machine with two
  rules for the zombie an arrival is compared with, so that the results on packets and
  frequencies hold for both. Draws, flow classification, packet sizes and the clock are
  inputs; `double` is `real`, with an explicit infinity and not-a-number where the code
  divides by a zero hit frequency. Each disc is also a class whose `DoEnqueue` follows the
  C++ branch by branch.
* Patch parser and printer** (`PatchText.dfy`, `PatchTokens.dfy`, `PatchRoundTrip.dfy`,
  `PatchGrammar.dfy`, `PatchStructure.dfy`, `PatchWhitespace.dfy`,
  `PatchWhitespaceRoundTrip.dfy`, `CheckStyle.dfy`). The format is a subset of "Diff -u or
  -U Output Format" of the `diff` utility in POSIX.1-2008: a hunk header must spell out both
  lengths. The values come first; the classes share line objects as the Python does and are
  proved to stand for those values at every step.
* Timelines and legend** (`Timelines.dfy`, `Legend.dfy`) and the **event benchmark**
  (`Benchmark.dfy`).

`Options.dfy`, `Sequences.dfy`, `Sums.dfy`, `Permutations.dfy` and `RealFacts.dfy` hold the
missing values, sequences, counting, rearrangement and real arithmetic the rest needs.

Results that differ from what the code or its comments suggest:

* A flow id of -1 is counted as dropped and then processed like any other, which breaks the
  balances of packets and bytes the base class asserts, exactly when a hash has all bits set
  (`RedConservation.BalanceIff`, `RedConservation.InvalidFlowUnbalances`).
* `MaxSize` is documented as a number of packets, but the occupancy test compares it with
  bytes; above it the probability falls back to zero, which a second packet can bring about
  (`RedOccupancy.FullerNotLowerIff`, `RedOccupancy.PacketLimitLowersProbability`).
* In full mode nothing passes a full list before the first hit once a sixth of the capacity
  is queued, whatever the draws (`RedFrequency.ColdStartDropsAll`).
* A negative process limit leaves no worker, and the runner then waits for ever
  (`WorkerPoolLiveness.DeadlockFreeIffServed`, `WorkerPoolLiveness.NegativeLimitDeadlocks`).
* One chunk with more source than destination lines ends the whitespace pass for the whole
  set, so that blanks behind it stay removed (`PatchWhitespace.PassResolvesIff`,
  `PatchWhitespace.PassCanLeaveABlank`).
* The pass can turn the destination line "++" into "++ ", which is printed as a file header
  (`PatchWhitespaceRoundTrip.PassRoundTripsIff`, `PatchWhitespaceRoundTrip.PassCanMakeAHeader`).
* A range query neither of whose ends lies in a range returns nothing even when ranges lie
  between them (`Timelines.SelectedIff`, `Timelines.UncoveredEndsMissARange`).

## Model

| member | source | states |
|---|---|---|
| `WorkerPoolSafety.ReachableInv` | ns3-full-code/test.py:969-1037 | after every interleaving, interrupted or not: each dispatched job has one place, only its holder has altered it, results are finished or broken-off jobs, break tokens come last in the input FIFO and are all accounted for, and the counters are those of the collected results |
| `WorkerPoolSafety.JobAtExactlyOnePlace` | ns3-full-code/test.py:1435-1469 | at every moment a job is at one and only one place: not dispatched, one slot of the input FIFO, one worker, one slot of the output FIFO, or one slot of the collected results |
| `WorkerPoolSafety.NoWorkerLeavesEarly` | ns3-full-code/test.py:1674-1677 | once any worker has left, no real job is undispatched or still queued for input |
| `WorkerPoolLiveness.StepMeasure` | ns3-full-code/test.py:969-1037 | the work left falls with every step of every thread, by exactly one per step unless a signal has been seen |
| `WorkerPoolLiveness.RunsAreBounded` | ns3-full-code/test.py:1413-1416 | no run has more than RunLength steps besides the signal; an uninterrupted completed run has exactly that many in every interleaving |
| `WorkerPoolLiveness.SomeoneCanStep` | ns3-full-code/test.py:1696-1698 | with a worker, or nothing to do, some thread can step in every reachable state before the main thread returns |
| `WorkerPoolLiveness.CanFinish` | ns3-full-code/test.py:1835-1836 | from every reachable state the gets and joins of the main thread can all be completed without a further signal |
| `WorkerPoolLiveness.DeadlockFreeIffServed` | ns3-full-code/test.py:1402-1416 | the pool never halts before the main thread has returned if and only if the processor count is positive or there is no test; a negative process limit is the failing family |
| `WorkerPoolLiveness.NegativeLimitDeadlocks` | ns3-full-code/test.py:1402-1416 | with one test and a negative limit some run halts with the main thread waiting |
| `WorkerPoolOutcome.OutcomeIsDetermined` | ns3-full-code/test.py:1689-1730 | an uninterrupted completed run reports the counts and sorted name lists determined by the tests alone |
| `WorkerPoolOutcome.Confluence` | ns3-full-code/test.py:1855-1866 | two uninterrupted completed runs of the same tests, with any worker counts and interleavings, agree in all counters, sorted lists and the exit code |
| `WorkerPoolOutcome.Verdict` | ns3-full-code/test.py:1919-1922 | five counters and broken-off jobs add up to the tests; the code is 0 exactly when nothing was broken off and every test was skipped or exited with 0, wherever the signal lands |
| `WorkerPoolInterrupt.ResultsAfterInterrupt` | ns3-full-code/test.py:979-986 | however the run goes on after an interrupt, a job is reported with its real result if a worker had taken it up when the flag was up, and comes back broken off if not |
| `WorkerPoolOrder.TakenInOrder` | ns3-full-code/test.py:1435-1469 | workers take up the jobs in the order of the tests, and after them one break token per processor; whatever was fed has been taken up or is queued |
| `WorkerPoolOrder.CollectedInOrder` | ns3-full-code/test.py:1689-1698 | results are collected in the order in which the workers reported them |
| `WorkerPoolOrder.PoolAsConfigured` | ns3-full-code/test.py:1413-1416 | once started the pool has a worker for each processor, and in a completed run all jobs and as many tokens were taken up and every worker has left |
| `NameLists.SortOfPermutation` | ns3-full-code/test.py:1855-1866 | the sorted list printed depends only on the bag of names, not on the order of arrival |
| `NameLists.SortedNeighbours` | ns3-full-code/test.py:1855-1866 | of two neighbours in the sorted list, the first begins the second or has the smaller character where they first differ |
| `TestRunner.Runner.constructor` | ns3-full-code/test.py:1379-1383 | a run starts with empty FIFOs, no thread, no result and the flag down |
| `TestRunner.Runner.SigintHook` | ns3-full-code/test.py:573-576 | the handler raises the flag and changes nothing else |
| `TestRunner.Runner.WorkerAction` | ns3-full-code/test.py:969-1037 | one action of a worker is the step of the pool that the lemmas speak about |
| `TestRunner.Runner.Count` | ns3-full-code/test.py:1696-1730 | classifying one result changes the counter and list of its status and no other |
| `TestRunner.Runner.MainAction` | ns3-full-code/test.py:1413-1836 | one action of the main thread is the step of the pool |
| `TestRunner.Runner.RunTests` | ns3-full-code/test.py:1413-1922 | every scheduler of these actions terminates within the bound, with the verdict above and, uninterrupted, with the report determined by the tests |
| `RedConservation.InvalidFlowIsAHash` | sred/stabilized-red-queue-disc.cc:169-192 | a flow id is the hash read as a signed number, so that -1 is the one hash with all bits set; packet filters never produce it, and their results survive the unsigned cast |
| `RedConservation.Conservation` | sred/stabilized-red-queue-disc.cc:164-329 | over every run the counters add up to the traffic, an invalid flow id costing one drop too many, and packets handed out followed by packets queued are the accepted packets in order of arrival |
| `RedConservation.ConservationOfBytes` | ns3-full-code/src/traffic-control/model/queue-disc.cc:704-745 | the same for the counters of bytes: received, enqueued and dequeued bytes are those of the packets that came, were accepted and were handed out, dropped bytes are the rest plus those of invalid arrivals, and enqueued bytes = dequeued + queued |
| `RedConservation.ConservationOfPackets` | sred/stabilized-red-queue-disc.cc:164-311 | with valid flow ids, arrivals = dropped + queued + dequeued |
| `RedConservation.BalanceIff` | ns3-full-code/src/traffic-control/model/queue-disc.cc:894-898 | of the two balances asserted after each enqueue, that of packets holds if and only if no arrival hashed to the invalid flow id, which is dropped without returning, and that of bytes if and only if no such arrival had any bytes |
| `RedConservation.InvalidFlowUnbalances` | sred/stabilized-red-queue-disc.cc:197-200 | one arrival with the invalid flow id breaks both balances |
| `RedConservation.DequeueHandsOutIff` | sred/stabilized-red-queue-disc.cc:294-310 | a dequeue hands out a packet if and only if more packets were accepted than have departed, and then the first of those |
| `RedConservation.PeekIsNextDeparture` | sred/stabilized-red-queue-disc.cc:313-329 | a peek shows a packet if and only if more were accepted than have departed, and it is the one the next dequeue hands out, however the run goes on |
| `RedConservation.WithinCapacity` | ns3-full-code/src/network/utils/queue.h:511-520 | the FIFO never exceeds its limit, in packets or in bytes |
| `RedDecisions.TakenIff` | sred/stabilized-red-queue-disc.cc:202-287 | after every run of both discs: an arrival is taken if and only if its flow is classified and, with fewer than 1000 classified arrivals before it, the packet fits; with 1000 or more, the zap draw is not below the zap value, given in numbers by the bytes queued, the frequency, the mode and the parameters, and the packet fits |
| `RedOccupancy.FullerNotLowerIff` | sred/stabilized-red-queue-disc.cc:105-129 | over all runs of both discs, a fuller queue never has a lower probability if and only if the limit is in bytes, or zero, or the maximum is zero |
| `RedOccupancy.StabilizedProbabilityMonotoneIff` | sred/stabilized-red-queue-disc.cc:105-129 | a larger number of queued bytes has at least the probability of a smaller one if and only if it is within the capacity, the maximum is zero, or the smaller one is under a sixth of the capacity or already beyond it |
| `RedOccupancy.PacketLimitLowersProbability` | sred/stabilized-red-queue-disc.cc:105-129 | for every limit of two or more packets there is a run of two accepted arrivals in which the probability falls from its maximum to zero as the second is queued |
| `RedConservation.SurvivesEveryDrawIff` | sred/stabilized-red-queue-disc.cc:253-275 | an arrival survives every zap draw if and only if the mode is neither simple nor full, the maximum is zero, less than a sixth of the capacity is queued, or more than the capacity is |
| `RedConservation.ZappedByEveryDrawIff` | sred/stabilized-red-queue-disc.cc:253-275 | an arrival is zapped by every draw if and only if, with s = max(1, 256 f^2) for the frequency f, simple mode has p_sred >= s, or full mode has p_sred > 0 and p_sred (f + 1) >= f s |
| `RedConservation.CalmRunsAreLossless` | sred/stabilized-red-queue-disc.cc:206-287 | limit in bytes: a run of fitting, valid arrivals that each find under a sixth of the capacity queued drops nothing, for all draws, modes and both discs |
| `RedFrequency.FrequencyClosedForm` | sred/stabilized-red-queue-disc.cc:249-250 | the hit frequency is alpha times the sum over arrivals at a full list of (1 - alpha)^(arrivals since) for each hit |
| `RedFrequency.FrequencyRange` | sred/stabilized-red-queue-disc.cc:95-102 | it lies in [0, 1 - (1 - alpha)^n] and is positive exactly if a hit has occurred and the overwrite probability is not zero |
| `RedFrequency.PositiveForever` | sred/stabilized-red-queue-disc.cc:132-151 | once the zap divisor is not zero it stays so for the rest of the run |
| `RedFrequency.ZapSimpleAntitone` | sred/stabilized-red-queue-disc.cc:132-145 | the simple zap probability never rises with the frequency, the infinite factor at zero included |
| `RedFrequency.ZapBounds` | sred/stabilized-red-queue-disc.cc:132-162 | in reachable states with a positive frequency: p_sred/256 <= simple <= p_sred <= p_max, and full >= 2 * simple |
| `RedFrequency.MoreHitsNeverZapMore` | sred/stabilized-red-queue-disc.cc:228-269 | of two runs with equally many arrivals at a full list, the one that hits wherever the other does zaps with a lower or equal simple probability at equal fill |
| `RedFrequency.ColdStartDropsAll` | sred/stabilized-red-queue-disc.cc:147-162 | in full mode, as long as there was no hit, every arrival at a full list that finds between a sixth of the capacity and the capacity queued is dropped, for all draws and both discs |
| `RedCredit.CreditBounded` | sred/stabilized-red-queue-disc.cc:202-251 | for every flow the sum of (count + 1) over its zombies is at most its arrivals so far, for any rule of hit, overwrite or ignored miss |
| `RedCredit.ListFills` | sred/stabilized-red-queue-disc.cc:206-211 | the list holds one zombie per classified arrival until it has 1000, and then stays at 1000 |
| `StabilizedRed.SredCredit` | sred/stabilized-red-queue-disc.cc:202-251 | the credit bound for the plain disc |
| `StabilizedRed.ListAfterArrival` | sred/stabilized-red-queue-disc.cc:202-247 | over all runs: an arrival is appended while there is room; then only the drawn slot can change, a hit is counted, and another flow's zombie is overwritten if and only if the draw is below the overwrite probability |
| `StabilizedRed.HitIffSameFlow` | sred/stabilized-red-queue-disc.cc:228-250 | an arrival at a full list counts as a hit in the frequency if and only if the drawn zombie is of its flow |
| `StabilizedRed.StabilizedRedQueueDisc.constructor` | sred/stabilized-red-queue-disc.cc:66-71 | a new disc is empty, with alpha = p_overwrite / 1000 |
| `StabilizedRed.StabilizedRedQueueDisc.InitializeParams` | sred/stabilized-red-queue-disc.cc:94-102 | empties the list, zeroes the frequency and sets alpha |
| `StabilizedRed.StabilizedRedQueueDisc.InternalQueueEnqueue` | ns3-full-code/src/network/utils/queue.h:511-535 | takes the packet at the tail unless that would exceed the limit, which counts as a drop |
| `StabilizedRed.StabilizedRedQueueDisc.Enqueue` | ns3-full-code/src/traffic-control/model/queue-disc.cc:868-901 | counts the arrival and takes the transition the run lemmas speak about |
| `StabilizedRed.StabilizedRedQueueDisc.VisitZombie` | sred/stabilized-red-queue-disc.cc:227-251 | one comparison with the drawn zombie and one ageing of the frequency |
| `StabilizedRed.StabilizedRedQueueDisc.ZapOrEnqueue` | sred/stabilized-red-queue-disc.cc:253-287 | the zap decision, then the FIFO or a drop |
| `StabilizedRed.StabilizedRedQueueDisc.DoEnqueue` | sred/stabilized-red-queue-disc.cc:164-287 | the whole new state of the disc after an arrival, every branch included |
| `StabilizedRed.StabilizedRedQueueDisc.DoDequeue` | sred/stabilized-red-queue-disc.cc:290-311 | hands out the oldest packet, or nothing from an empty FIFO |
| `StabilizedRed.StabilizedRedQueueDisc.DoPeek` | sred/stabilized-red-queue-disc.cc:313-329 | shows the oldest packet and changes nothing |
| `ExtendedStabilizedRed.ZombieIsPastArrival` | esred/es-red-queue-disc.cc:206-251 | every zombie bears the flow and the time of the arrival that last changed its slot |
| `ExtendedStabilizedRed.ThresholdRange` | esred/es-red-queue-disc.cc:243-245 | with all arrivals up to now, a threshold lies in [p_overwrite/(1 + now), p_overwrite] |
| `ExtendedStabilizedRed.ThresholdIsOfTouch` | esred/es-red-queue-disc.cc:243-245 | a draw is below a zombie's threshold if and only if the draw times one plus the time of the arrival that last touched the slot is below the overwrite probability |
| `ExtendedStabilizedRed.LaterTouchLowerThreshold` | esred/es-red-queue-disc.cc:228-251 | with a clock that does not run backwards, of two slots the one touched later has the lower or equal threshold |
| `ExtendedStabilizedRed.EsredCredit` | esred/es-red-queue-disc.cc:202-255 | the credit bound for the timestamped disc |
| `ExtendedStabilizedRed.ListAfterArrival` | esred/es-red-queue-disc.cc:202-251 | over all runs: an arrival is appended while there is room; then only the drawn slot can change, a hit is counted and dated, and another flow's zombie is overwritten if and only if the draw times one plus the time of the arrival that last touched the slot is below the overwrite probability |
| `ExtendedStabilizedRed.HitIffSameFlow` | esred/es-red-queue-disc.cc:228-254 | an arrival at a full list counts as a hit in the frequency if and only if the drawn zombie is of its flow |
| `ExtendedStabilizedRed.ESRedQueueDisc.InitializeParams` | esred/es-red-queue-disc.cc:94-102 | empties the list, zeroes the frequency and sets alpha |
| `ExtendedStabilizedRed.ESRedQueueDisc.VisitZombie` | esred/es-red-queue-disc.cc:228-255 | one comparison with the drawn zombie, its timestamp deciding the overwrite, and one ageing of the frequency |
| `ExtendedStabilizedRed.ESRedQueueDisc.ZapOrEnqueue` | esred/es-red-queue-disc.cc:257-291 | the zap decision, then the FIFO or a drop |
| `ExtendedStabilizedRed.ESRedQueueDisc.DoEnqueue` | esred/es-red-queue-disc.cc:164-291 | the whole new state of the disc after an arrival, every branch included |
| `ExtendedStabilizedRed.ESRedQueueDisc.DoDequeue` | esred/es-red-queue-disc.cc:294-315 | hands out the oldest packet, or nothing from an empty FIFO |
| `ExtendedStabilizedRed.ESRedQueueDisc.DoPeek` | esred/es-red-queue-disc.cc:317-333 | shows the oldest packet and changes nothing |
| `RedRefinement.EnqueueRefines` | esred/es-red-queue-disc.cc:164-291 | one arrival at the timestamped disc is one at the plain disc under a raised overwrite draw, with the same decision |
| `RedRefinement.RunRefines` | esred/es-red-queue-disc.cc:228-291 | with timestamps erased a run is a plain run under other draws: same zombies, frequency, queue, counters, accepted packets and departures |
| `RedRefinement.RefinementIff` | esred/es-red-queue-disc.cc:240-251 | every run of the timestamped disc is, prefix by prefix, a plain run under some draws if and only if p_overwrite < 1 |
| `PatchText.DecimalRoundTrip` | ns3-full-code/utils/check-style.py:241-249 | reading a printed position gives the position |
| `PatchText.LeadingZero` | ns3-full-code/utils/check-style.py:241-249 | zeros in front of a position do not change it |
| `PatchTokens.TokenIsClean` | ns3-full-code/utils/check-style.py:367-410 | a captured text is a single line, and a content line never reads on as a file header |
| `PatchTokens.TokensOfPrint` | ns3-full-code/utils/check-style.py:295-304 | each printed line is matched by the pattern it was printed for, except content lines that read like file headers |
| `PatchTokens.PrintedLengthsAreRight` | ns3-full-code/utils/check-style.py:295-304 | the two lengths in a printed hunk header, which this parser ignores, are the numbers of source and destination lines that follow |
| `PatchGrammar.GrammarIff` | ns3-full-code/utils/check-style.py:368-373 | for every line and token, the parser takes the line for that token if and only if its characters are as the format says, with or without a newline at its end |
| `PatchGrammar.UnmatchedIff` | ns3-full-code/utils/check-style.py:409-410 | the parser gives up on exactly the lines that are no token |
| `PatchGrammar.ParseIgnoresLastNewlines` | ns3-full-code/utils/check-style.py:367-411 | lines that differ only in the newlines at their ends are parsed alike, errors included |
| `PatchGrammar.ChompedRoundTripIff` | ns3-full-code/utils/check-style.py:454-463 | the round trip, under the same exact condition, for printed lines without their newlines |
| `PatchStructure.ParseOkIff` | ns3-full-code/utils/check-style.py:374-410 | there is a result if and only if every line is a token, destinations and hunks come after a file header, and content after a hunk |
| `PatchStructure.HunkCollects` | ns3-full-code/utils/check-style.py:388-408 | a chunk has the positions of its hunk header and holds the content lines from there to the next hunk header, also across file headers |
| `PatchStructure.FileCollects` | ns3-full-code/utils/check-style.py:378-391 | a patch has the source name of its header, the last destination given before the next file, and as many chunks as there are hunk headers up to there |
| `PatchStructure.PartsCounted` | ns3-full-code/utils/check-style.py:374-391 | there is a patch for each file header and a chunk for each hunk header |
| `PatchRoundTrip.RoundTripIff` | ns3-full-code/utils/check-style.py:356-411 | for every patch set of single-line names and texts, parsing what is printed gives the set back if and only if no source-only text starts with "-- " and no destination-only text with "++ " |
| `PatchRoundTrip.ParsedRoundTrips` | ns3-full-code/utils/check-style.py:367-411 | whatever was parsed can be printed and parsed again without change |
| `PatchRoundTrip.FileRoundTrip` | ns3-full-code/utils/check-style.py:214-227 | the same through the text of a file, split into lines at its newlines |
| `PatchRoundTrip.SplitLinesIs` | ns3-full-code/utils/check-style.py:454-456 | splitting a text into lines loses nothing: its pieces are full lines, but the last may lack its newline |
| `PatchWhitespace.PassKeepsShape` | ns3-full-code/utils/check-style.py:413-429 | number, order, kinds and positions stay; a text is as before or was extended once, by one blank or tab, to the text of the source line of its rank |
| `PatchWhitespace.PassKeepsHeaders` | ns3-full-code/utils/check-style.py:295-304 | every hunk header is printed as without the pass |
| `PatchWhitespace.PassChunkAtRank` | ns3-full-code/utils/check-style.py:421-426 | with t the text that the source line of a rank has at that moment, given by recursion on the chunk before the pass, a destination text u of that rank becomes t if t is u and one blank or tab, and stays u otherwise |
| `PatchWhitespace.PassRestores` | ns3-full-code/utils/check-style.py:413-429 | the same on the resulting set, for every chunk that is reached and every source-only line, whose text is the one it had before the pass |
| `PatchWhitespace.PassAt` | ns3-full-code/utils/check-style.py:416-429 | a chunk of the set is edited if no chunk before it, in the whole set, has more source than destination lines, and is left as it was otherwise |
| `PatchWhitespace.PassResolvesIff` | ns3-full-code/utils/check-style.py:413-429 | after the pass no source-only line of the set is its partner's text and one blank or tab, if and only if there was none in the chunks that are not reached |
| `PatchWhitespace.PassCanLeaveABlank` | ns3-full-code/utils/check-style.py:427-428 | a concrete set in which one is left |
| `PatchWhitespace.PassCompletesIff` | ns3-full-code/utils/check-style.py:420-429 | the pass runs to its end, no index out of range, if and only if no chunk has more source than destination lines, and then it has reached every chunk |
| `PatchWhitespaceRoundTrip.PassRoundTripsIff` | ns3-full-code/utils/check-style.py:461-466 | the result of the pass over a parsed set survives printing and parsing if and only if in no chunk that is reached a destination-only "++" has the rank of a source line that reads "++ " by then; both are decided on the set before the pass |
| `PatchWhitespaceRoundTrip.PassCanMakeAHeader` | ns3-full-code/utils/check-style.py:424-426 | a concrete input for which it does not survive |
| `CheckStyle.PatchChunkLine.Set` | ns3-full-code/utils/check-style.py:165-188 | sets kind and text of a line |
| `CheckStyle.PatchChunkLine.AppendToLine` | ns3-full-code/utils/check-style.py:189-195 | extends the text in place |
| `CheckStyle.PatchChunkLine.Write` | ns3-full-code/utils/check-style.py:214-227 | prints the marked line, or reports a line that was never set |
| `CheckStyle.PatchChunk.Src` | ns3-full-code/utils/check-style.py:263-272 | the source lines in order, as the very objects of the chunk; a line that was never set is none |
| `CheckStyle.PatchChunk.Dst` | ns3-full-code/utils/check-style.py:273-282 | the destination lines in order, as the very objects of the chunk; a line that was never set is none |
| `CheckStyle.PatchChunk.Write` | ns3-full-code/utils/check-style.py:295-304 | prints the header with the lengths counted from the lines, then the lines up to one that was never set, which it reports |
| `CheckStyle.Patch.Write` | ns3-full-code/utils/check-style.py:356-365 | prints the two file lines and the chunks in order, up to a line that was never set |
| `CheckStyle.WrittenPatchIs` | ns3-full-code/utils/check-style.py:356-365 | objects that stand for a patch print exactly what the patch prints as a value |
| `CheckStyle.PrintsIff` | ns3-full-code/utils/check-style.py:214-227 | printing a patch goes through without an exception if and only if every line of its chunks was set |
| `CheckStyle.ParsePatchset` | ns3-full-code/utils/check-style.py:367-411 | builds objects standing for what the value-level parser returns, or reports the first exception; a chunk stays current across the next file header |
| `CheckStyle.PassChunk` | ns3-full-code/utils/check-style.py:417-428 | the loop over the ranks of a chunk edits the shared line objects as the value-level pass says |
| `CheckStyle.RemoveTrailingWhitespaceChanges` | ns3-full-code/utils/check-style.py:413-429 | parse, then the pass in place, ended by the first chunk that runs out of destination lines |
| `Timelines.TimelineDataRange.AddRange` | ns3-full-code/utils/grid.py:118-124 | appends a range |
| `Timelines.TimelineDataRange.Search` | ns3-full-code/utils/grid.py:100-117 | an index found covers the key on any list; on disjoint ordered ranges the result is that of the linear scan, -1 included |
| `Timelines.TimelineDataRange.GetRanges` | ns3-full-code/utils/grid.py:131-147 | the slice selected from where the two ends fall |
| `Timelines.TimelineDataRange.GetRangesBounds` | ns3-full-code/utils/grid.py:148-164 | the bounds of that slice: from the range covering the start, or 0, to the one covering the end; with the end uncovered, to the end of the list if the start is covered, and (0, 0) if neither is |
| `Timelines.SelectedIff` | ns3-full-code/utils/grid.py:131-147 | the slice is exactly the ranges meeting the interval if both ends are covered; otherwise if and only if no range lies beyond the uncovered end, or with neither covered if and only if no range meets the interval; with an end covered nothing is left out |
| `Timelines.UncoveredEndsMissARange` | ns3-full-code/utils/grid.py:131-147 | a concrete query that misses a range lying between its ends |
| `Timelines.TimelineEvent.AddEvent` | ns3-full-code/utils/grid.py:213-219 | appends an event |
| `Timelines.TimelineEvent.Search` | ns3-full-code/utils/grid.py:195-212 | on distinct ordered times, the number of earlier events; with equal times too, an event at the time if there is one |
| `Timelines.TimelineEvent.GetEvents` | ns3-full-code/utils/grid.py:220-229 | all events of the interval, followed by the next later one if none is at its end |
| `Timelines.TimelineEvent.GetEventsBounds` | ns3-full-code/utils/grid.py:230-239 | the bounds of that slice |
| `Timelines.EventsExactIff` | ns3-full-code/utils/grid.py:220-229 | the slice is exactly the interval if and only if an event is at its end or none is after it |
| `Legend.TopLegendRenderer.Layout` | ns3-full-code/utils/grid.py:523-548 | the height and the wraps of the wrapper |
| `Legend.TopLegendRenderer.Draw` | ns3-full-code/utils/grid.py:556-591 | the marks drawn, with the same wraps as layout |
| `Legend.NoOverlap` | ns3-full-code/utils/grid.py:562-577 | no two entries overlap: the later is below, or on the same line to the right |
| `Legend.WithinHeight` | ns3-full-code/utils/grid.py:547-548 | every entry lies between the top padding and the height layout computed |
| `Legend.PastTheEdgeIff` | ns3-full-code/utils/grid.py:572-577 | an entry reaches past the right edge if and only if it is too wide for a line of its own, and then it stands at the left padding with all earlier entries above it |
| `Legend.MarkFollows` | ns3-full-code/utils/grid.py:562-577 | a mark is three paddings and the text's width right of the mark before it if it ends within the page there, and otherwise at the left padding, one padding and the height of the tallest text so far further down |
| `Legend.FirstMarkAndShape` | ns3-full-code/utils/grid.py:556-588 | the place of the first mark, the shape of every mark, and the laid out height as the last mark's line and the tallest text |
| `Legend.LayoutAndDraw` | ns3-full-code/utils/grid.py:1102-1134 | drawing after a layout: the marks name the texts in order, none overlap, all lie between the paddings and the height that was laid out, those that fit a line stay within the width, and with some padding a mark is lower than the one before exactly where layout wrapped |
| `Benchmark.Bench.Cb` | ns3-full-code/utils/bench-simulator.cc:133-145 | schedules one event and counts, until the total is reached |
| `Benchmark.Bench.RunBench` | ns3-full-code/utils/bench-simulator.cc:97-131 | for every firing order and all delays the run ends after population + total callbacks with the count at the total, or at once with no population |

## Left out

- ns-3 itself: the internal queue is a FIFO with its limit, and hashing, filters, random streams and the clock are inputs; the draws of one arrival are a record of which each is used only where the code draws it.
- Floating-point rounding, and 32-bit overflow of zombie counts, packet counters and of the sum of queued size and packet size; counts and sizes are unbounded.
- Occupancy results for a limit in packets, where the code compares bytes with packets; conservation and order hold in both units.
- TypeId and attribute registration, `DoDispose`, `AssignStreams`, `CheckConfig`, logging, and `Estimator`, which has no body in these files.
- The test runner's configuration, process launching, XML, HTML and text output; a job's process ends with a return code that belongs to the job, and `is_example` only chooses words to print.
- Object identity of jobs in the pool: a job is a value with an identity number, which is enough since exactly one place holds it at a time.
- Sorting of timelines with a comparison function: the sorted order is a hypothesis of the range and event results.
- Which of several events at the same time the search stops at, and what the slices then hold.
- `Timelines.TimelineDataRange.GetRanges`: promises nothing about lists that are out of order, because the search does not either.
- Text extents, cairo drawing, colours and mouse handling; extents are an arbitrary non-negative function, the same for layout and draw.
- `PatchWhitespace.PassKeepsShape`: for names and texts without newlines, which is all the parser ever produces.
- Carriage returns and other universal-newline translation when a patch file is read back: lines end at newlines only.
- Uncrustify, temporary files, the `patch` process and option parsing of the style checker.
- Wall-clock times printed by the benchmark, and its 32-bit counters.
- Simulation, scratch and backup scripts, build tools and documentation.
