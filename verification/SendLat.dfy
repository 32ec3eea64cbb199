/**
 The ping-pong loop of new_busy_poll/send_lat.c with busy polling: which sends ask for a completion,
 and how many requests can pile up unretired because most of them do not.
 */
module SendLat {
  import opened Arith

  /**
   The most sends that are ever unretired at once in a run. Only every `txDepth - 2`-th send asks for
   a completion, so a queue of two or of one entry, whose turn never comes again, gets none but the last.
   */
  function Peak(iters: nat, txDepth: nat, signalAll: bool): nat
    requires iters >= 2
  {
    if signalAll then 1
    else if txDepth >= 3 then Min(txDepth - 1, iters)
    else if txDepth == 2 then iters - 1
    else iters
  }

  /** The sends fit the queue of `txDepth` entries in exactly these cases. */
  lemma PeakFitsQueue(iters: nat, txDepth: nat, signalAll: bool)
    requires iters >= 2 && txDepth >= 1
    ensures Peak(iters, txDepth, signalAll) <= txDepth
            <==> signalAll || txDepth >= 3 || (txDepth == 2 && iters <= 3)
    ensures txDepth >= 3 ==> Peak(iters, txDepth, signalAll) <= txDepth - 1
  {
  }

  /** Sends that are posted but not retired, and the most there ever were. */
  datatype Load = Load(unretired: nat, peak: nat)

  function PostSend(l: Load): Load {
    Load(l.unretired + 1, Max(l.peak, l.unretired + 1))
  }

  /** The completion of a signalled send retires it and everything posted before it. */
  function RetireSends(l: Load): Load {
    l.(unretired := 0)
  }

  /** Whether a pass asks for the completion of its send. */
  predicate Signals(scnt: nat, ccnt: nat, iters: nat, txDepth: nat, signalAll: bool) {
    ccnt == txDepth - 2 || signalAll || scnt == iters - 1
  }

  /** Where the counters of a run stand between two passes while sends remain. */
  ghost predicate Sending(scnt: nat, ccnt: nat, l: Load, txDepth: nat, signalAll: bool) {
    if scnt == 0 then ccnt == 0 && l.unretired == 0 && l.peak == 0
    else if signalAll then ccnt == 1 && l.unretired == 0 && l.peak == 1
    else if txDepth == 1 then ccnt == l.unretired == l.peak == scnt
    else if txDepth == 2 then ccnt == scnt && l.unretired == scnt - 1 && l.peak == Max(1, scnt - 1)
    else if scnt <= txDepth - 2 then ccnt == l.unretired == l.peak == scnt
    else 1 <= ccnt <= txDepth - 2 && l.unretired == ccnt - 1 && l.peak == txDepth - 1
  }

  ghost predicate Progress(scnt: nat, ccnt: nat, l: Load, iters: nat, txDepth: nat, signalAll: bool)
    requires iters >= 2
  {
    if scnt < iters then Sending(scnt, ccnt, l, txDepth, signalAll)
    else l == Load(0, Peak(iters, txDepth, signalAll))
  }

  /** One send, with its completion if it is signalled, and the counter at the end of the pass. */
  lemma SendStep(scnt: nat, ccnt: nat, l: Load, iters: nat, txDepth: nat, signalAll: bool)
    requires scnt < iters && iters >= 2 && txDepth >= 1 && Progress(scnt, ccnt, l, iters, txDepth, signalAll)
    ensures if Signals(scnt, ccnt, iters, txDepth, signalAll)
            then Progress(scnt + 1, 1, RetireSends(PostSend(l)), iters, txDepth, signalAll)
            else Progress(scnt + 1, ccnt + 1, PostSend(l), iters, txDepth, signalAll)
  {
  }

  lemma IdleStep(ccnt: nat, l: Load, iters: nat, txDepth: nat, signalAll: bool)
    requires iters >= 2 && Progress(iters, ccnt, l, iters, txDepth, signalAll)
    ensures Progress(iters, ccnt + 1, l, iters, txDepth, signalAll)
  {
  }

  /** The messages of the two sides alternate, the client sending first. */
  predicate Alternates(scnt: nat, rcnt: nat, iters: nat, client: bool) {
    && scnt <= iters && rcnt <= iters
    && if client then scnt - 1 <= rcnt <= scnt && (0 < scnt < iters ==> rcnt == scnt - 1) else rcnt == scnt
  }

  /**
   run_iter of one side. It ends with every message sent and received, nothing left unretired, and
   the peak of unretired sends exactly as computed by `Peak`; besides the `txDepth / 2` receives
   posted in advance there is never more than one. `clock` gives what the cycle counter shows at each
   reading, in their order; every send is stamped with a reading of its own.
   */
  method RunIter(iters: nat, txDepth: nat, signalAll: bool, client: bool, tstamp: array<nat>, clock: nat -> nat)
    returns (scnt: nat, rcnt: nat, ghost load: Load, ghost receives: nat, ghost peakReceives: nat)
    requires iters >= 2 && txDepth >= 1 && tstamp.Length == iters
    requires forall i, j :: 0 <= i < j ==> clock(i) <= clock(j)
    modifies tstamp
    ensures scnt == iters && rcnt == iters
    ensures load.unretired == 0 && receives == txDepth / 2
    ensures load.peak == Peak(iters, txDepth, signalAll)
    ensures peakReceives == txDepth / 2 + 1 <= txDepth
    ensures forall i :: 0 <= i < iters ==> tstamp[i] == clock(i)
    ensures forall i, j :: 0 <= i < j < iters ==> tstamp[i] <= tstamp[j]
  {
    scnt, rcnt := 0, 0;
    var ccnt: nat, poll := 0, false;
    var readings: nat := 0;
    load, receives, peakReceives := Load(0, 0), txDepth / 2, txDepth / 2;
    while scnt < iters || rcnt < iters
      invariant Alternates(scnt, rcnt, iters, client) && !poll
      invariant Progress(scnt, ccnt, load, iters, txDepth, signalAll)
      invariant receives == txDepth / 2
      invariant peakReceives == if rcnt > 0 then receives + 1 else receives
      invariant readings == scnt && forall i :: 0 <= i < scnt ==> tstamp[i] == clock(i)
      decreases 2 * iters - scnt - rcnt
    {
      if rcnt < iters && !(scnt < 1 && client) {
        rcnt := rcnt + 1;
        receives := receives + 1;
        peakReceives := Max(peakReceives, receives);
        // busy polling: the pass goes on only once the message has come in
        receives := receives - 1;
      }
      if scnt < iters {
        SendStep(scnt, ccnt, load, iters, txDepth, signalAll);
        if ccnt == txDepth - 2 || signalAll || scnt == iters - 1 {
          ccnt := 0;
          poll := true;
        }
        tstamp[scnt] := clock(readings);
        readings := readings + 1;
        scnt := scnt + 1;
        load := PostSend(load);
      } else {
        IdleStep(ccnt, load, iters, txDepth, signalAll);
      }
      if poll {
        load := RetireSends(load);
        poll := false;
      }
      ccnt := ccnt + 1;
    }
  }
}
