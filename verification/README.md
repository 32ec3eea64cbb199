# A verified model of Justitia's pacer

Justitia paces RDMA traffic on a host: latency-sensitive applications share a NIC with
bandwidth-hungry ones, and a daemon hands out tokens so that the latter never crowd out the former.
This project models the parts of the repository that decide something, and proves what they keep.

* **Latency sketch** (`Queue`, `Hash31`, `SketchSpec`, `Sketch`). A hierarchical Count-Min sketch of
  the last `windowSize` latencies, over a ring buffer. `SketchSpec` says, as functions of the window,
  what every cell holds and what every query answers; `Sketch.CMH` is the structure itself, arrays
  changed in place, each method tied to those functions. A range query never answers too little,
  the cases in which it counts twice are characterised exactly, and a quantile always lies, with the
  answer given for it, between the places where the two searches stopped, and within one of the answer
  where the sketch is exact and the rank an integer.
* **Selection** (`MedSelect`). In-place quickselect with unguarded scans. The scans may cross so far
  that `l` passes `k`; the loop invariant says what still holds then.
* **Token pacer** (`Slots`, `Pacer`). A round-robin scan with one token, and an environment that
  raises flags, switches between the READ and the WRITE path and lets time pass between any two steps.
  Nobody who keeps to the WRITE path starves, grants are spaced, and they stay within the cap.
* **Fan-in protocol and rate control** (`FanIn`, `Aimd`, `Text`). Senders report applications, the
  receiver counts and broadcasts, each sender adjusts its cap. Conservation and snapshot properties
  hold over every run of the network, and the requests under which no delivery order can wrap a counter
  are characterised exactly.
* **Arithmetic** (`Prng`, `Regression`). The shuffled Schrage generator, the lagged-Fibonacci ring,
  and least squares over the reals.
* **Benchmark loops** (`WriteWindow`, `SendLat`, `Keys`). The multi-queue send window, selective
  signalling, and the textual exchange of addresses.

`Arith`, `Limits` and `Options` hold shared vocabulary. `dafny verify dfyconfig.toml` checks the whole project.

Where the code and its comments or intentions part, the model follows the code:

* The left end of a range (countmin.c:293) is always at least one node wide, even on a block
  boundary. Together with the test at countmin.c:283 this counts an aligned interval of
  `2^gran - 1` blocks twice, for instance the first `2^gran - 1` values. `PartitionIff` and
  `FirstBlockDoubled` say when and by how much. The sum is still never too small.
* The guard at countmin.c:173 accepts the item `2^U`. `FitsIff` says exactly when that item has a
  cell at every exact level; `Update` asks for that and nothing else.
* `CMH_count` answers the window size for a level above the real ones (countmin.c:247). No range
  query gets there: `TopInterval`.
* `hash31` drops the carry of its fold, so it is one less than the residue exactly when there is a
  carry: `HashResidue`.
* The counters of the receiver wrap in some delivery order of the senders' requests exactly if some
  sender reports a departure before its arrival, or too many applications join: `NeverWrapsIff`. A
  single early departure can hide behind other senders' arrivals in one order and wrap in another.
* A seed that is a multiple of 2^31-1 makes the first call of `ran1` and of `ran2` draw 0, which is no
  state; the next call of the same generator starts anew from 1. No other seed ever does: `RunKeeps`.
* `INFO:%04hu:%04hu` overflows its 16-byte buffer exactly when both counts have five digits:
  `InfoFits`. `BroadcastFitsIff` says for which requests some delivery order gets there, and
  `TwoDeparturesOverflow` that two departures suffice. Under the limits of pacer.h, and with departures
  after their arrivals, it does not happen: `CountsExact`.
* The wait between tokens is computed in 32 bits, so with the default chunk it is too short from 4295
  MHz on: `IntervalExactIff`, `IntervalWraps`. Below that the pacer keeps to its cap: `CapKept`.
* `CMH_Quantile` rounds the ranks of its two searches down separately. For an integer rank, exact
  estimates put the answer within one of the quantile: `QuantileWithinOne`. For a rank between the
  window size less one and the window size the right-hand target is 0, its search ends at the top of
  the universe, and the answer can be far from the quantile even in an exact sketch: `ZeroTargetAtTop`.
* With a queue of one or two entries and no `-l`, the sends of send_lat.c do not fit the queue:
  `PeakFitsQueue`.
* `temp` in monitor_latency is read before it is assigned when the first pass takes the branch at
  monitor.c:375 with the cap already at line rate. The model starts it at the cap.

## Model

| member | source | states |
|---|---|---|
| Queue.Queue.constructor | rdma_pacer/queue.c:11-19 | an empty ring of the requested capacity, one cell more in the array |
| Queue.Queue.Push | rdma_pacer/queue.c:21-27 | appends at the tail, or fails and changes nothing exactly when the capacity is used up |
| Queue.Queue.Pop | rdma_pacer/queue.c:29-36 | removes and returns the oldest element, or fails exactly when there is none |
| Hash31.HashResidue | rdma_pacer/prng.c:20-24 | the hash is the residue of a*x+b modulo 2^31-1 if and only if the fold has no carry, and one less than it otherwise |
| Hash31.HashOffByOne | rdma_pacer/prng.c:20-24 | a concrete input whose hash is not the residue |
| SketchSpec.EstimateBounds | rdma_pacer/countmin.c:241-261 | a point query at a real level lies between the true window frequency and the window count; it is exact at exact levels, and at sketched ones if and only if some row has no collision |
| SketchSpec.SlotHashes | rdma_pacer/countmin.c:208-217 | the cell of a row is, modulo the width, a number congruent to a*node+b modulo 2^31-1, less the carry of the fold, for the coefficients of that row |
| SketchSpec.TimesBounds | rdma_pacer/countmin.c:279-310 | the covering argument: for every interval the loop can meet, values inside are counted once or twice, values before it never, values after it at most once, and the queried nodes partition it outside the excepted case |
| SketchSpec.PartitionIff | rdma_pacer/countmin.c:279-310 | the queried nodes partition the range if and only if no level is left with an aligned interval of 2^gran-1 blocks |
| SketchSpec.DoubledWitness | rdma_pacer/countmin.c:283-304 | in the excepted case some value of the range is counted exactly twice |
| SketchSpec.TopInterval | rdma_pacer/countmin.c:247-284 | nothing is left to add up when the level above the real ones is reached |
| SketchSpec.RangesumNeverUnder | rdma_pacer/countmin.c:267-312 | a range query is at least the number of window items in the range, for every start and end |
| SketchSpec.RangesumExact | rdma_pacer/countmin.c:267-312 | if every queried estimate is exact the sum is exact outside the excepted case, and within it at most one too many per window item |
| SketchSpec.RangesumExactIff | rdma_pacer/countmin.c:267-312 | a range query is exact if and only if every estimate it adds up is exact and every window item is counted as often as it lies in the range; the early answer, if and only if the window is full |
| SketchSpec.FirstBlockDoubled | rdma_pacer/countmin.c:283-304 | with exact estimates the query of the first 2^gran-1 values, which is always in the excepted case, counts each of them twice and the next value once |
| SketchSpec.FitsIff | rdma_pacer/countmin.c:173-202 | which accepted items index inside the cells of every exact level: all but 2^U when gran divides U and some level is exact |
| SketchSpec.QueriesFit | rdma_pacer/countmin.c:285-304 | every node a range query asks about at an exact level is below the number of cells allocated there |
| SketchSpec.BracketCounts | rdma_pacer/countmin.c:315-355 | at most `sum` window items are at or below the left bracket, fewer than `sum` above the right one, with no monotonicity assumed |
| SketchSpec.QuantileSound | rdma_pacer/countmin.c:358-371 | on a full window, the averaged answer and every true quantile lie between the two brackets |
| SketchSpec.DoubledFromZero | rdma_pacer/countmin.c:283-304 | of the queries that start at 0, exactly the one of the first 2^gran-1 values is excepted |
| SketchSpec.LeftBracketTight | rdma_pacer/countmin.c:315-333 | if the query just above the left bracket is exact and not the excepted one, every quantile of that rank is an end of the bracket, the upper one unless the lower is 0 |
| SketchSpec.DoubledToTop | rdma_pacer/countmin.c:279-310 | no query that ends at the top of the universe and starts below it is in the excepted case |
| SketchSpec.RightBracketTight | rdma_pacer/countmin.c:336-355 | for an integer rank, if the query at the right bracket has exact estimates, every quantile of that rank is its lower end, or at the top of the universe one of its ends |
| SketchSpec.QuantileWithinOne | rdma_pacer/countmin.c:358-371 | on a full window, for an integer rank and exact estimates next to both brackets, the answer is within one of every quantile of that rank |
| SketchSpec.ZeroTargetAtTop | rdma_pacer/countmin.c:336-371 | every rank above the window size less one sends the right-hand search to the top, and the answer to at least the middle of the universe, whatever the window holds |
| Sketch.Init | rdma_pacer/countmin.c:17-99 | null exactly for the rejected parameters; otherwise an all-zero sketch of the empty window that is exact precisely where that takes no more cells, with the hash coefficients that the generator seeded with -12784 yields |
| Sketch.PickHashes | rdma_pacer/countmin.c:86-94 | draws two words for each row, `a` and then `b`, from the highest sketched level down, and keeps the low 31 bits of each |
| Sketch.CoefficientWords | rdma_pacer/countmin.c:86-94 | the coefficients of row k of level l are words 319 + 2*((freelim-1-l)*depth + k) and the next of the generator's history, modulo 2^31 |
| Sketch.HashesDetermined | rdma_pacer/countmin.c:38-94 | two sketches of the same shape have the same coefficients |
| Sketch.ExactLevels | rdma_pacer/countmin.c:55-67 | the search for freelim finds the largest number of top levels that are no dearer exact |
| Sketch.CMH.BumpRows | rdma_pacer/countmin.c:208-217 | of all cells of a sketched level, exactly those that count the node change, by the given amount |
| Sketch.CMH.Delete | rdma_pacer/countmin.c:127-155 | cells that held the counts of a window hold those of the window without its oldest item |
| Sketch.CMH.Insert | rdma_pacer/countmin.c:196-220 | cells that held the counts of a window hold those of the window with one more item |
| Sketch.CMH.Update | rdma_pacer/countmin.c:160-222 | out-of-range items are refused and change nothing; others slide the window by one, every cell again counts the window, and the ring neither overflows nor underflows |
| Sketch.CMH.Count | rdma_pacer/countmin.c:241-261 | computes the estimate from the cells |
| Sketch.CMH.RangeSum | rdma_pacer/countmin.c:267-312 | computes the block decomposition, of which RangesumNeverUnder says that it is never below the truth |
| Sketch.CMH.CountNodesDown | rdma_pacer/countmin.c:300-304 | the right-to-left loop adds up the same nodes as a left-to-right one |
| Sketch.CMH.FindRange | rdma_pacer/countmin.c:315-333 | ends at the odd one of two neighbours that bracket `sum`; at most `sum` items are at or below the lower one |
| Sketch.CMH.AltFindRange | rdma_pacer/countmin.c:336-355 | the mirror search: ends at the odd one of two neighbours, with fewer than `sum` items above the lower one |
| Sketch.CMH.Quantile | rdma_pacer/countmin.c:358-371 | the early answers; otherwise exactly the middle of where the two searches stop, in one interval with the true quantile, within one of it for an integer rank and exact estimates, and at least the middle of the universe for a rank above the window size less one |
| Sketch.WindowIsSuffix | rdma_pacer/countmin.c:185-194 | after any run of accepted items the window is the last min(n, windowSize) of them |
| Sketch.ForgetsPerfectly | rdma_pacer/countmin.c:185-220 | every cell is what a fresh sketch fed only the last windowSize items would hold |
| MedSelect.ScanUp | rdma_pacer/massdal.c:65 | the upward scan stops at or before an element that is not smaller, and passed only smaller ones |
| MedSelect.ScanDown | rdma_pacer/massdal.c:66 | the downward scan stops at or before an element that is not greater, and passed only greater ones |
| MedSelect.Partition | rdma_pacer/massdal.c:61-71 | the scans stay inside the interval and end one or two apart, with everything on its side of the pivot |
| MedSelect.Narrow | rdma_pacer/massdal.c:72-73 | cutting the interval keeps everything outside it in place, also when `l` passes `k` |
| MedSelect.MedSelect | rdma_pacer/massdal.c:35-82 | terminates with a permutation of the input in which everything before k is at most arr[k] and everything after at least, and returns the k-th smallest of the input |
| MedSelect.KthUnique | rdma_pacer/massdal.c:31-34 | the k-th smallest is determined by the items alone, whatever their order |
| Slots.SlotTable.FindNextSlot | rdma_pacer/pacer.c:191-228 | gives a process its own slot, else the first free one, and fails exactly without either; nothing else in the table changes, and no two slots hold one process |
| Slots.SlotsStable | rdma_pacer/pacer.c:199-225 | over any run of requests a process keeps its slot and no two share one |
| Pacer.Pacer.Scan | rdma_pacer/pacer.c:562-592 | grants the first waiting flow in cyclic order whatever flags are raised meanwhile, lowers that flag and no other, within MAX_FLOWS looks if some flow waits from the start |
| Pacer.Pacer.Mint | rdma_pacer/pacer.c:594-619 | mints one token below the maximum, the first at once, every other no sooner than its interval after the last, while the applications go on raising flags |
| Pacer.Pacer.Pass | rdma_pacer/pacer.c:506-620 | there is exactly one token at the head of every pass and the out-of-token branch is never taken; the chunk is 5000 bytes with latency applications at the receiver and 1000000 without; a finished pass at a nonzero cap is a granting step and adds one grant with its time, chunk and 32-bit wait, any other pass grants nobody, leaves the pointer alone and drops no flag |
| Pacer.NoStarvation | rdma_pacer/pacer.c:562-592 | over any run of passes, with caps (0 included), fan-in and all other flags changing at will, a waiting flow keeps waiting while all grants go to different flows, and it is granted within MAX_FLOWS grants |
| Pacer.Pacer.GenerateTokens | rdma_pacer/pacer.c:506-620 | the same of the loop itself, for any number of passes: a flow that waits when it begins is among those granted, or still waits and fewer than MAX_FLOWS flows, all different, were granted |
| Pacer.SmallChunks | rdma_pacer/pacer.c:531-556 | over any run that the pacer logs with latency applications at the receiver throughout, exactly 5000 bytes go out for each grant |
| Pacer.GrantsSpaced | rdma_pacer/pacer.c:594-619 | the time from grant a to grant n is at least the sum of the intervals of passes a+1 to n-1 |
| Pacer.GrantRate | rdma_pacer/pacer.c:594-619 | at a constant interval I, a span of T cycles holds at most T/I + 2 grants |
| Pacer.IntervalExactIff | rdma_pacer/pacer.c:610 | the wait is the cycles that a chunk takes at the cap if and only if clock rate times chunk size fits 32 bits, and too short otherwise |
| Pacer.IntervalWraps | rdma_pacer/pacer.c:610 | a clock rate and the default chunk for which it is too short, at the line rate |
| Pacer.CapKept | rdma_pacer/pacer.c:594-619 | at a constant cap and without that wrap, the chunks handed out strictly between two grants take at least their time at the cap, but for less than one cycle each |
| FanIn.InfoRoundTrip | rdma_pacer/monitor.c:164-168 | a sender reads back exactly the counts that were broadcast, whatever it knew before |
| FanIn.InfoPlaces | rdma_pacer/monitor.c:530 | the broadcast is its prefix, the big count in decimal, a colon, and the small count |
| FanIn.InfoFits | rdma_pacer/monitor.c:530 | the broadcast and its zero fit the 16-byte buffer if and only if not both counts have five digits |
| FanIn.BroadcastFitsIff | rdma_pacer/monitor.c:504-530 | in every schedule of the senders' requests the broadcast fits its buffer if and only if no choice of beginnings of those requests has balances whose 16-bit residues both take five digits |
| FanIn.TwoDeparturesOverflow | rdma_pacer/monitor.c:504-530 | two unannounced departures at one sender, one big and one small, have a schedule in which the broadcast overflows |
| FanIn.Conservation | rdma_pacer/monitor.c:489-541 | over every run, modulo 2^16, the receiver's count plus undelivered reports is the total of active applications |
| FanIn.OneArrival | rdma_pacer/monitor.c:504-507 | from a fresh start, one bandwidth or throughput arrival leaves the receiver at 1 and 0, one latency arrival at 0 and 1 |
| FanIn.DepartureUndoesArrival | rdma_pacer/monitor.c:504-511 | in every state, an arrival followed by the departure of the same kind restores the counts of sender and receiver |
| FanIn.ShortWraps | rdma_pacer/monitor.c:504-511 | if some beginning of one sender's requests has more departures than arrivals, a schedule of the requests leaves the counter at 65535 |
| FanIn.NeverBelowZeroIff | rdma_pacer/monitor.c:504-511 | no schedule of the senders' requests makes the receiver count more departures than arrivals if and only if no beginning of any sender's own requests has more |
| FanIn.NeverWrapsIff | rdma_pacer/monitor.c:504-511 | in every schedule the counter is the total minus undelivered reports, as an integer, if and only if that holds and the highest balances of all senders add up to less than 2^16 |
| FanIn.DisciplinedIff | rdma_pacer/pacer.c:378-450 | a run is disciplined if and only if each sender's own requests are orderly, however the senders interleave |
| FanIn.ViewsAreHistory | rdma_pacer/monitor.c:156-176 | over every run a sender's view is the receiver's count from exactly as many broadcasts ago as are in its channel |
| FanIn.BroadcastsParse | rdma_pacer/monitor.c:164-169 | over every run the next broadcast spells counts the receiver really had and reads back as them, so the exit for a bad format is never taken and no scan stops half-way |
| FanIn.OnlyReports | rdma_pacer/monitor.c:504-515 | over every run the receiver finds only the four reports, so the exit for an unknown one is never taken |
| FanIn.CountsExact | rdma_pacer/monitor.c:489-541 | if applications leave only after they joined, the counts are the totals minus undelivered reports as integers, never wrap, and every broadcast fits its buffer |
| FanIn.QuietViewsAreTrue | rdma_pacer/monitor.c:154-177 | when all channels are empty every sender's view is the true totals |
| FanIn.Network.HandleFlow | rdma_pacer/pacer.c:378-450 | for each of the six application messages, which count moves by one and which report is sent; any other message changes nothing, and fails exactly when it begins like one of an application |
| FanIn.Network.ServeOne | rdma_pacer/monitor.c:493-544 | counts one report with 16-bit wrap-around and broadcasts to all senders, as one step of the protocol |
| FanIn.Network.ReadInfo | rdma_pacer/monitor.c:156-176 | reads one broadcast into the view, as one step of the protocol; exits exactly on a wrong prefix |
| Aimd.RateControl.Monitor | rdma_pacer/monitor.c:301-413 | with local bandwidth applications and latency applications here or elsewhere at the receiver, one pass halves the cap down to the sender's share or adds one up to the line rate; with other big applications it sets the line rate; without any it leaves the cap |
| Aimd.NeverAboveLineRate | rdma_pacer/monitor.c:301-413 | over every run of readings the cap never exceeds the line rate |
| Aimd.Decrease | rdma_pacer/monitor.c:330-336 | k >= 1 passes over the target at fixed counts leave exactly max(floor, cap >> k) |
| Aimd.Increase | rdma_pacer/monitor.c:338-343 | k passes on target at fixed counts leave exactly min(line rate, cap + k) |
| Aimd.NeverBelowFloor | rdma_pacer/monitor.c:330-343 | no mix of hits and misses at fixed counts pushes the cap below a floor it was above |
| Aimd.ShareIsNearest | rdma_pacer/monitor.c:319-320 | the share is the integer nearest to the sender's fraction of the line rate |
| Aimd.FloorsLeaveAShare | rdma_pacer/monitor.c:319-320 | with a true fan-in count the floors of all senders together leave one share of the line free, up to rounding |
| Prng.SchrageStep | rdma_pacer/prng.c:83-85 | each state update is IA*x mod IM within 32 bits, stays in 1..IM-1, and is injective |
| Prng.SchrageFits | rdma_pacer/prng.c:83-85 | from any seed but the least long, the update is computed without overflow of 64 bits |
| Prng.SchrageStuck | rdma_pacer/prng.c:83-85 | below 45 times IM in absolute value, a number steps to a state if and only if it is no multiple of IM; multiples step to 0 |
| Prng.IterateSettles | rdma_pacer/prng.c:82-87 | six steps turn any long but the least into a state, or into 0 if and only if it is a multiple of IM |
| Prng.CallKeeps | rdma_pacer/prng.c:100-131 | a call keeps register and table states and hands the new state to the table for the one it draws; state and number drawn are 0 exactly if the seed is a negative multiple of IM |
| Prng.FilledPower | rdma_pacer/prng.c:82-87 | row j of a refilled table is 16807 to the power 40-j times the seed, modulo 2^31-1 |
| Prng.RunKeeps | rdma_pacer/prng.c:68-131 | over every interleaving of ran1 and ran2, from any long seeds but the least that are not positive, or that a call left: the number drawn is a state, except in the first call of a generator whose seed is a negative multiple of IM, where it is 0 |
| Prng.RunConserves | rdma_pacer/prng.c:68-131 | over every run, refills included, the table holds exactly what entered it (refills and new states) and has not left it (numbers drawn and overwritten tables) |
| Prng.RefillsIff | rdma_pacer/prng.c:79-88 | from unused seeds that are no multiples of IM the table is filled exactly at the first call of each generator |
| Prng.Prng.Draw | rdma_pacer/prng.c:79-97 | the common body computes one call, table refill included; without a refill the row drawn is the register over 2^26, it is the only one replaced, and the new state is 16807 times the old |
| Prng.RotlInverse | rdma_pacer/prng.c:162-163 | rotating stays in 64 bits and is injective |
| Prng.RotlTurns | rdma_pacer/prng.c:162-163 | rotating by 5 and by 3 bits is multiplying by 32 and by 8 modulo 2^64-1 |
| Prng.Prng.Ran3 | rdma_pacer/prng.c:171-184 | the ring keeps the last 17 words with the pointers 10 apart modulo 17, and the answer is the word 10 back rotated by 5 bits plus the word 17 back rotated by 3, modulo 2^64 |
| Prng.Prng.RanrotAInit | rdma_pacer/prng.c:195-213 | after seeding and 300 discarded words the buffer is a window on a history that follows the recurrence |
| Prng.RecurrenceUnique | rdma_pacer/prng.c:141-148 | seed words and recurrence determine the whole sequence |
| Prng.SeedHistoryLaw | rdma_pacer/prng.c:199-202 | the buffer is seeded with the seed and then, from its far end, with one word after another, each the last rotated by 5 bits plus 97 |
| Prng.Prng.Init | rdma_pacer/prng.c:252-290 | every kind of generator starts in a valid state, after the calls the source makes |
| Regression.LeastSquares | rdma_pacer/get_clock.c:103-114 | unless all x are equal the denominator is positive and no line has a smaller sum of squared residuals |
| Regression.CorrelationExplains | rdma_pacer/get_clock.c:122-124 | r squared is one minus the residuals left relative to the spread of y, and lies between 0 and 1 |
| Regression.DenominatorPositive | rdma_pacer/get_clock.c:113 | n*sxx - sx*sx is never negative, and zero exactly if all samples are the same |
| Regression.SampleGetCpuMhz | rdma_pacer/get_clock.c:103-133 | the accumulating loop yields the least-squares slope, or 0 when the fit explains less than nine tenths |
| WriteWindow.Clamp | new_busy_poll/write_bw_old.c:1055-1062 | the window is the least of the queue depth, the iterations and the request, and at least 1 exactly if all three are |
| WriteWindow.WindowedAlways | new_busy_poll/write_bw_old.c:760 | a windowed run never has more than the window outstanding on any queue, at any moment |
| WriteWindow.Bench.FillWindows | new_busy_poll/write_bw_old.c:755-772 | after the posting half every queue is through or has its window full |
| WriteWindow.Bench.SomethingOutstanding | new_busy_poll/write_bw_old.c:775-780 | a poll always has something outstanding to wait for |
| WriteWindow.Bench.RunIter | new_busy_poll/write_bw_old.c:717-800 | for every completion order all queues end with exactly iters posted and completed, no window was exceeded, the run starts with the rounds of the warm-up and polls only with all windows as full as they go, every stamp index is in range, and every stamp lies within the run, no completion's before that of the post of the same rank |
| WriteWindow.Bench.Post | new_busy_poll/write_bw_old.c:760-768 | one post on one queue, stamped with the cycle counter as it is then |
| SendLat.RunIter | new_busy_poll/send_lat.c:980-1099 | everything is sent and received, every send is stamped with a clock reading of its own, nothing is left unretired, one receive beyond those posted in advance, and the exact peak of unretired sends |
| SendLat.SendStep | new_busy_poll/send_lat.c:1028-1098 | what one pass does to the relation between the counters and the unretired sends |
| SendLat.PeakFitsQueue | new_busy_poll/send_lat.c:1029-1039 | the sends fit the queue if and only if all are signalled, the depth is at least 3, or it is 2 with at most 3 iterations; at depth 3 or more at most depth - 1 are unretired |
| Text.PrintValue | new_busy_poll/send_lat.c:156-159 | a printed number reads back as itself, and takes exactly its width if and only if it fits |
| Keys.MessageFits | new_busy_poll/send_lat.c:156-190 | the message with its zero is never shorter than its buffer, and fills it exactly if and only if every field is in range |
| Keys.KeyPlaces | new_busy_poll/send_lat.c:156-168 | where lid, qpn, psn, rkey and vaddr stand in the message, each in hexadecimal |
| Keys.GidPlace | new_busy_poll/send_lat.c:158-184 | and the bytes of the GID after them |
| Keys.PlainRoundTrip | new_busy_poll/send_lat.c:163-218 | without a GID, reading undoes writing for every address in range |
| Keys.GidRoundTrip | new_busy_poll/send_lat.c:176-270 | with a GID likewise, every token fitting its buffer |
| Keys.ReadKeysGid | new_busy_poll/send_lat.c:226-269 | the token loop computes the parse of the whole text, saturating and truncating as strtol and strtoull do |

## Left out

- Verbs calls, queue-pair and memory setup, sockets, shared memory, signals and cycle-counter assembly: foreign calls. A completion is "some outstanding request finishes", a channel between two pacers is a lossless queue, and a clock reading is some later number.
- The READ path of the pacer (`generate_tokens_read`, `rate_limit_read`) and everything under compile-time switches that are off: its threads are not started.
- The floating-point distributions of prng.c, `fourwise`, `ran4` and the scaling in `ran1`, and the libc generator behind `nric == 3`.
- Rounding of doubles: regression, the share of a sender and the rank of a quantile are over the reals.
- Latency measurement in monitor_latency: whether the target was missed is an input of each pass.
- Endless loops: `Pacer.Pass` and the steps of `FanIn` are single turns; properties of whole runs are lemmas over sequences of turns. A scan that finds no pending flow is cut off after a given number of looks.
- Overflow of `1 << U` for `U == 31`, which `CMH_Init` accepts; shifts are mathematical.
- Allocation failure, null pointers and the destructors.
- Error statuses of completions and event-driven polling in the two benchmark loops, and the near-duplicate benchmarks.
- Signs, blanks and `0x` prefixes that `sscanf` and `strtol` would also take: printing never produces them.
- `cbuf_*` in pacer.c and `find_vaddr_idx`: nothing beyond what is modelled already.
- Sketch.Init: asks for positive width, depth and windowSize, which `CMH_Init` does not check: with no cells it goes on with an unassigned `freelim`, and without a window the first update jumps out over the empty ring.
- Prng.Prng.Init: asks that the seed of generator 1 not be the least long, whose negation overflows.
- Pacer.Pacer.Pass: does not promise that the granted flow's flag is still down when the pass ends, because its application may raise it again while the next token is minted (pacer.c:610); `Scan` promises it at the grant.
- WriteWindow.Bench.RunIter: asks for a window of at least one post; with less the source posts nothing and polls forever.
- Sketch.CMH.Update: does not say what happens to an item `2^U` that has no cell at some exact level, where the source writes out of bounds; `FitsIff` says exactly when that is.
- MedSelect.MedSelect: the array ends at index n, where the source never looks further; the instances for other integer widths and for doubles are not repeated.
- Regression.SampleGetCpuMhz: asks that not all x be equal, where the source divides by zero.
- Keys.ReadKeysGid: answers None where the source would follow a null pointer or overrun its 20-byte token buffer.
