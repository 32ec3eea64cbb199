/**
 The token pacer of rdma_pacer/pacer.c: one thread scans the flows round-robin, hands its single
 token to the first pending one, and mints the next token when a chunk's worth of cycles has passed.
 Applications raise pending flags, and time passes, between any two steps of the thread.
 */
module Pacer {
  import opened Arith
  import opened Limits
  import opened Options

  const MAX_TOKEN := 5
  const DEFAULT_CHUNK_SIZE := 1000000
  const SMALL_CHUNK_SIZE := 5000
  const EVEN_SMALLER_CHUNK_SIZE := 5000

  /** Chunk size for a link cap, given how many latency-sensitive apps share the receiver. */
  function ChunkSize(cap: nat, smallFlows: nat): nat {
    if smallFlows != 0 then
      if cap > LINE_RATE_MB / 3 then SMALL_CHUNK_SIZE else EVEN_SMALLER_CHUNK_SIZE
    else DEFAULT_CHUNK_SIZE
  }

  /** Cycles to wait before the next token; the product is a 32-bit unsigned one. */
  function Interval(cpuMhz: nat, chunk: nat, cap: nat): nat
    requires cap > 0
  {
    cpuMhz * chunk % TWO32 / cap
  }

  // ----- fairness -----

  /** How many slots forward of `i`, around the end of the table, `f` is. */
  function Distance(i: nat, f: nat): (d: int)
    requires i < MAX_FLOWS && f < MAX_FLOWS
    ensures 0 <= d < MAX_FLOWS && (i + d) % MAX_FLOWS == f
  {
    if f >= i then f - i else f - i + MAX_FLOWS
  }

  datatype View = View(nextIdx: nat, pending: seq<bool>)

  predicate IsView(v: View) {
    v.nextIdx < MAX_FLOWS && |v.pending| == MAX_FLOWS
  }

  /** A flow that waits for a token. Flows outside `writers` may take the READ path, which the scan skips. */
  predicate Waits(v: View, writers: set<nat>, f: nat)
    requires IsView(v)
  {
    f < MAX_FLOWS && f in writers && v.pending[f]
  }

  /** Nobody has lost a pending flag; applications may have raised any of them. */
  predicate Kept(before: seq<bool>, after: seq<bool>) {
    |before| == |after| && forall g :: 0 <= g < |before| && before[g] ==> after[g]
  }

  /**
   One pass that grants, as seen from outside: the granted flow is no further from the scan pointer
   than any flow that was waiting when the pass began, the pointer moves just past it, and nobody else
   loses a pending flag. Which flags the applications raised meanwhile is left open.
   */
  ghost predicate PassStep(before: View, after: View, writers: set<nat>, granted: nat) {
    && IsView(before) && IsView(after)
    && granted < MAX_FLOWS
    && after.nextIdx == (granted + 1) % MAX_FLOWS
    && (forall g :: 0 <= g < MAX_FLOWS && Waits(before, writers, g) ==>
          Distance(before.nextIdx, granted) <= Distance(before.nextIdx, g))
    && (forall g :: 0 <= g < MAX_FLOWS && g != granted && before.pending[g] ==> after.pending[g])
  }

  /** One turn of the endless loop: the flows that kept to the WRITE path in it, and whom it granted, if any. */
  datatype Turn = Turn(writers: set<nat>, grant: Option<nat>)

  /** A turn that grants nobody, for want of a cap or of a waiting flow, leaves the pointer where it is. */
  ghost predicate TurnStep(before: View, after: View, t: Turn) {
    match t.grant
    case None =>
      && IsView(before) && IsView(after)
      && after.nextIdx == before.nextIdx && Kept(before.pending, after.pending)
    case Some(granted) => PassStep(before, after, t.writers, granted)
  }

  /** A run of turns, whatever the cap and the fan-in were in each; `f` kept to the WRITE path throughout. */
  ghost predicate IsRun(views: seq<View>, turns: seq<Turn>, f: nat) {
    && |views| == |turns| + 1
    && (forall k :: 0 <= k < |views| ==> IsView(views[k]))
    && forall k :: 0 <= k < |turns| ==> f in turns[k].writers && TurnStep(views[k], views[k + 1], turns[k])
  }

  /** The flows granted in a run of turns. */
  function Grants(turns: seq<Turn>): seq<nat>
    decreases |turns|
  {
    if turns == [] then []
    else
      var m := |turns| - 1;
      Grants(turns[..m]) + match turns[m].grant case None => [] case Some(g) => [g]
  }

  /** Passing over another flow brings the pointer closer to one that waits. */
  lemma StepCloser(before: View, after: View, writers: set<nat>, granted: nat, f: nat)
    requires PassStep(before, after, writers, granted)
    requires Waits(before, writers, f) && granted != f
    ensures after.pending[f]
    ensures Distance(granted, f) == Distance(after.nextIdx, f) + 1 <= Distance(before.nextIdx, f)
  {
    assert Distance(before.nextIdx, granted) <= Distance(before.nextIdx, f);
  }

  /** What a flow at distance at most `start` that has waited through the grants `grants` can rely on. */
  ghost predicate StillWaiting(grants: seq<nat>, v: View, f: nat, start: int) {
    && IsView(v) && f < MAX_FLOWS && v.pending[f]
    && |grants| + Distance(v.nextIdx, f) <= start
    && (forall j :: 0 <= j < |grants| ==>
          grants[j] < MAX_FLOWS && Distance(grants[j], f) > Distance(v.nextIdx, f))
    && (forall j, k :: 0 <= j < k < |grants| ==> grants[j] != grants[k])
  }

  lemma TurnKeepsWaiting(grants: seq<nat>, before: View, after: View, t: Turn, f: nat, start: int)
    requires StillWaiting(grants, before, f, start) && f in t.writers && TurnStep(before, after, t)
    requires t.grant != Some(f)
    ensures StillWaiting(grants + match t.grant case None => [] case Some(g) => [g], after, f, start)
  {
    match t.grant
    case None =>
      assert grants + [] == grants;
    case Some(g) =>
      StepCloser(before, after, t.writers, g, f);
      forall j | 0 <= j < |grants| ensures grants[j] != g && Distance(grants[j], f) > Distance(after.nextIdx, f) {
      }
  }

  /** Either `f` is among those granted, or it has been waiting all along. */
  ghost predicate WaitsOrServed(grants: seq<nat>, v: View, f: nat, start: int) {
    f in grants || StillWaiting(grants, v, f, start)
  }

  lemma WaitsOrServedStep(grants: seq<nat>, before: View, after: View, t: Turn, f: nat, start: int)
    requires WaitsOrServed(grants, before, f, start) && f in t.writers && TurnStep(before, after, t)
    ensures WaitsOrServed(grants + match t.grant case None => [] case Some(g) => [g], after, f, start)
  {
    if f !in grants && t.grant != Some(f) { TurnKeepsWaiting(grants, before, after, t, f, start); }
  }

  /**
   No starvation, over any run of turns, with caps, fan-in and the flags of all others changing as they
   like. As long as a flow waits, it keeps waiting; all grants go to different flows, each one closer to
   it than the one before; and so it is granted within MAX_FLOWS grants.
   */
  lemma {:induction false} NoStarvation(views: seq<View>, turns: seq<Turn>, f: nat)
    requires IsRun(views, turns, f) && f < MAX_FLOWS
    requires views[0].pending[f] && f !in Grants(turns)
    ensures StillWaiting(Grants(turns), views[|turns|], f, Distance(views[0].nextIdx, f))
    ensures |Grants(turns)| < MAX_FLOWS
    decreases |turns|
  {
    if turns != [] {
      var n := |turns| - 1;
      assert views[..n + 1][0] == views[0] && views[..n + 1][n] == views[n];
      NoStarvation(views[..n + 1], turns[..n], f);
      TurnKeepsWaiting(Grants(turns[..n]), views[n], views[n + 1], turns[n], f, Distance(views[0].nextIdx, f));
    }
  }

  // ----- pacing -----

  /**
   A grant: to whom and when, the cap, the latency applications at the receiver and the chunk size then in
   force, after which wait the pass minted the next token, and when it did.
   */
  datatype Grant = Grant(flow: nat, at: nat, cap: nat, smallFlows: nat, chunk: nat, interval: nat, minted: nat)

  /**
   Every chunk has the size that the receiver's latency applications allow, 5000 bytes with any and
   1000000 without, and every wait is that of its chunk at its cap.
   */
  ghost predicate Sized(log: seq<Grant>, cpuMhz: nat) {
    forall n :: 0 <= n < |log| ==>
      && log[n].chunk == (if log[n].smallFlows > 0 then 5000 else 1000000)
      && log[n].cap > 0 && log[n].interval == Interval(cpuMhz, log[n].chunk, log[n].cap)
  }

  /** Bytes that the grants of a log let out. */
  function Bytes(log: seq<Grant>): nat
    decreases |log|
  {
    if log == [] then 0 else Bytes(log[..|log| - 1]) + log[|log| - 1].chunk
  }

  /** While the receiver has latency applications, no more than 5000 bytes go out for each grant. */
  lemma {:induction false} SmallChunks(log: seq<Grant>, cpuMhz: nat)
    requires Sized(log, cpuMhz) && forall n :: 0 <= n < |log| ==> log[n].smallFlows > 0
    ensures Bytes(log) == 5000 * |log|
    decreases |log|
  {
    if log != [] { SmallChunks(log[..|log| - 1], cpuMhz); }
  }

  /** Of any stretch of a run, with latency applications throughout it, the same. */
  lemma SmallChunksBetween(log: seq<Grant>, cpuMhz: nat, a: nat, n: nat)
    requires Sized(log, cpuMhz) && a <= n <= |log|
    requires forall k :: a <= k < n ==> log[k].smallFlows > 0
    ensures Bytes(log[a..n]) == 5000 * (n - a)
  {
    SmallChunks(log[a..n], cpuMhz);
  }

  function Flows(log: seq<Grant>): (flows: seq<nat>)
    ensures |flows| == |log|
  {
    seq(|log|, k requires 0 <= k < |log| => log[k].flow)
  }

  lemma FlowsMore(before: seq<Grant>, log: seq<Grant>, base: nat)
    requires base <= |before| && before <= log && |log| <= |before| + 1
    ensures Flows(log[base..])
            == Flows(before[base..]) + if |log| > |before| then [log[|log| - 1].flow] else []
  {
    if |log| == |before| {
      assert Flows(before[base..]) + [] == Flows(before[base..]);
    } else {
      assert log[base..] == before[base..] + [log[|before|]];
    }
  }

  /** Each pass grants after the previous pass minted, and mints no sooner than its interval after that. */
  ghost predicate Timed(log: seq<Grant>) {
    && (forall n :: 0 <= n < |log| ==> log[n].at <= log[n].minted)
    && (forall n :: 0 < n < |log| ==>
          log[n - 1].minted <= log[n].at && log[n - 1].minted + log[n].interval <= log[n].minted)
  }

  lemma LogGrows(log: seq<Grant>, g: Grant)
    requires Timed(log) && g.at <= g.minted
    requires log != [] ==> log[|log| - 1].minted <= g.at && log[|log| - 1].minted + g.interval <= g.minted
    ensures Timed(log + [g])
  {
  }

  /** Sum of the intervals of passes `a+1 .. n-1`. */
  function Waited(log: seq<Grant>, a: nat, n: nat): nat
    requires a < n <= |log|
  {
    if n == a + 1 then 0 else Waited(log, a, n - 1) + log[n - 1].interval
  }

  /** Between two grants at least the intervals of all the passes strictly between them went by. */
  lemma {:induction false} GrantsSpaced(log: seq<Grant>, a: nat, n: nat)
    requires Timed(log) && a < n < |log|
    ensures log[a].at + Waited(log, a, n) <= log[n - 1].minted <= log[n].at
    decreases n
  {
    if n > a + 1 { GrantsSpaced(log, a, n - 1); }
  }

  lemma {:induction false} WaitedConstant(log: seq<Grant>, a: nat, n: nat, interval: nat)
    requires a < n <= |log|
    requires forall k :: a < k < n ==> log[k].interval == interval
    ensures Waited(log, a, n) == (n - a - 1) * interval
    decreases n
  {
    if n > a + 1 { WaitedConstant(log, a, n - 1, interval); }
  }

  /** At a constant interval `I`, any span of `T` cycles holds at most `T / I + 2` grants. */
  lemma GrantRate(log: seq<Grant>, a: nat, n: nat, interval: nat, span: nat)
    requires Timed(log) && a < n < |log| && interval > 0
    requires forall k :: a < k < n ==> log[k].interval == interval
    requires log[n].at - log[a].at <= span
    ensures n - a + 1 <= span / interval + 2
  {
    GrantsSpaced(log, a, n);
    WaitedConstant(log, a, n, interval);
    AtMost(n - a - 1, interval, span);
  }

  /**
   The wait is the cycles that one chunk takes at the cap, rounded down, if and only if the product fits
   its 32-bit word: below 4295 MHz for the default chunk. Otherwise the wait is too short.
   */
  lemma IntervalExactIff(cpuMhz: nat, chunk: nat, cap: nat)
    requires 0 < cap <= TWO32
    ensures Interval(cpuMhz, chunk, cap) <= cpuMhz * chunk / cap
    ensures Interval(cpuMhz, chunk, cap) == cpuMhz * chunk / cap <==> cpuMhz * chunk < TWO32
  {
    WrappedQuotient(cpuMhz * chunk, cap);
  }

  lemma WrappedQuotient(product: nat, cap: nat)
    requires 0 < cap <= TWO32
    ensures product % TWO32 / cap <= product / cap
    ensures product % TWO32 / cap == product / cap <==> product < TWO32
  {
    var r := product % TWO32;
    var k := r / cap;
    DivBlock(r, cap);
    DivAtLeast(product, cap, k);
    if product >= TWO32 {
      assert product >= r + TWO32;
      assert (k + 1) * cap == k * cap + cap;
      DivAtLeast(product, cap, k + 1);
    }
  }

  /** A 4.3 GHz clock is enough for that: at the line rate it waits 838 cycles where 716666 would be right. */
  lemma IntervalWraps()
    ensures Interval(4300, DEFAULT_CHUNK_SIZE, LINE_RATE_MB) == 838
    ensures 4300 * DEFAULT_CHUNK_SIZE / LINE_RATE_MB == 716666
  {
    assert 4300 * DEFAULT_CHUNK_SIZE % TWO32 == 5032704;
  }

  /**
   The pacer keeps to its cap. While chunk and cap stay the same and the product fits its word, the
   chunks handed out strictly between two grants, in bytes, come to no more than `cap` MB/s times the
   cycles that went by over the clock rate, but for less than one cycle a chunk lost in rounding.
   */
  lemma CapKept(log: seq<Grant>, a: nat, n: nat, cpuMhz: nat, chunk: nat, cap: nat)
    requires Timed(log) && a < n < |log| && 0 < cap && cpuMhz * chunk < TWO32
    requires forall k :: a < k < n ==> log[k].interval == Interval(cpuMhz, chunk, cap)
    ensures (n - a - 1) * (cpuMhz * chunk) <= cap * (log[n].at - log[a].at + (n - a - 1))
  {
    var product, interval := cpuMhz * chunk, Interval(cpuMhz, chunk, cap);
    GrantsSpaced(log, a, n);
    WaitedConstant(log, a, n, interval);
    NextWait(product, cap);
    SpanCarries(n - a - 1, product, cap, interval, log[n].at - log[a].at);
  }

  /** The wait is short of what the product asks for by less than a cycle. */
  lemma NextWait(product: nat, cap: nat)
    requires 0 < cap && product < TWO32
    ensures product <= cap * (product % TWO32 / cap + 1)
  {
    var q := product / cap;
    DivBlock(product, cap);
    assert product % TWO32 == product;
    assert cap * (q + 1) == q * cap + cap;
  }

  lemma SpanCarries(m: nat, product: nat, cap: nat, interval: nat, span: int)
    requires product <= cap * (interval + 1) && m * interval <= span
    ensures m * product <= cap * (span + m)
  {
    var each := interval + 1;
    MulMonotone(product, cap * each, m);
    assert m * (cap * each) == cap * (m * each);
    assert m * each == m * interval + m;
    MulMonotone(m * each, span + m, cap);
    assert m * product == product * m && m * (cap * each) == cap * each * m;
    assert cap * (m * each) == m * each * cap && cap * (span + m) == (span + m) * cap;
  }

  lemma AtMost(k: nat, b: nat, x: nat)
    requires b > 0 && k * b <= x
    ensures k <= x / b
  {
    DivAtLeast(x, b, k);
  }

  // ----- the thread -----

  class Pacer {
    const cpuMhz: nat
    const pending: array<bool>
    const read: array<bool>
    var tokens: nat
    var nextIdx: nat
    var startFlag: bool
    var startCycle: nat
    var activeChunkSize: nat
    /** The cycle counter. */
    var now: nat
    /** Every grant made so far. */
    ghost var log: seq<Grant>

    ghost predicate Shaped()
      reads this
    {
      pending != read && pending.Length == MAX_FLOWS && read.Length == MAX_FLOWS && nextIdx < MAX_FLOWS
    }

    /** These flows are on the WRITE path. */
    ghost predicate Writing(writers: set<nat>)
      requires Shaped()
      reads this, read
    {
      forall g :: 0 <= g < MAX_FLOWS && g in writers ==> !read[g]
    }

    ghost function Abs(): View
      reads this, pending
    {
      View(nextIdx, pending[..])
    }

    /** The log is timed, with chunks and waits of the right size, and the last token was minted at `startCycle`. */
    ghost predicate InStep()
      reads this
    {
      && Timed(log) && Sized(log, cpuMhz)
      && (startFlag <==> log == [])
      && (log != [] ==> startCycle == log[|log| - 1].minted <= now)
    }

    /** What holds at the head of every pass: exactly one token. */
    ghost predicate Valid()
      reads this
    {
      Shaped() && InStep() && tokens == 1
    }

    constructor (cpuMhz: nat)
      ensures Valid() && fresh(pending) && fresh(read) && log == []
    {
      this.cpuMhz := cpuMhz;
      pending := new bool[MAX_FLOWS](_ => false);
      read := new bool[MAX_FLOWS](_ => false);
      startCycle, startFlag, nextIdx := 0, true, 0;
      activeChunkSize := DEFAULT_CHUNK_SIZE;
      tokens := 1;
      now := 0;
      log := [];
    }

    /**
     Applications raise any pending flags they like, which only the pacer lowers; they switch between
     the READ and the WRITE path as they like, but for some that keep to WRITE; and time passes.
     */
    method Environment(writers: set<nat>)
      requires Shaped() && Writing(writers)
      modifies pending, read, this`now
      ensures Writing(writers)
      ensures Kept(old(pending[..]), pending[..])
      ensures now >= old(now)
    {
      var moves: nat :| true;
      for k := 0 to moves
        invariant now == old(now) && Writing(writers)
        invariant Kept(old(pending[..]), pending[..])
      {
        var i: nat :| true;
        var raise: bool, switch: bool :| true;
        if i < MAX_FLOWS {
          pending[i] := pending[i] || raise;
          read[i] := switch && i !in writers;
        }
      }
      var elapsed: nat :| true;
      now := now + elapsed;
    }

    /** The counter moves on between any two readings. */
    method GetCycles() returns (t: nat)
      modifies this`now
      ensures t == now > old(now)
    {
      var elapsed: nat :| true;
      now := now + elapsed + 1;
      t := now;
    }

    method TryFetchAToken() returns (got: bool)
      modifies this`tokens
      ensures got <==> old(tokens) > 0
      ensures tokens == if got then old(tokens) - 1 else old(tokens)
    {
      got := false;
      if tokens != 0 {
        tokens := tokens - 1;
        got := true;
      }
    }

    /**
     The scan loop, cut off after `looks` looks (the source keeps looking). It stops at the first
     waiting flow it meets; when some flow waits from the start, MAX_FLOWS looks are enough. `seen` is
     what the flags were at its last look.
     */
    method Scan(looks: nat, writers: set<nat>) returns (found: bool, got: bool, i: nat, ghost seen: seq<bool>)
      requires Shaped() && Writing(writers)
      modifies pending, read, this`now, this`tokens, this`nextIdx
      ensures Shaped() && Writing(writers) && now >= old(now) && i < MAX_FLOWS
      ensures looks >= MAX_FLOWS && (exists f :: 0 <= f < MAX_FLOWS && Waits(old(Abs()), writers, f)) ==> found
      ensures Kept(old(pending[..]), seen) && pending[..] == if found && got then seen[i := false] else seen
      ensures !found ==> tokens == old(tokens) && nextIdx == old(nextIdx)
      ensures found ==> !read[i] && seen[i]
      ensures found ==> (got <==> old(tokens) > 0) && tokens == (if got then old(tokens) - 1 else old(tokens))
      ensures found && !got ==> nextIdx == i
      ensures found && got ==> PassStep(old(Abs()), Abs(), writers, i)
    {
      i := nextIdx;
      found, got, seen := false, false, pending[..];
      for k := 0 to looks
        invariant i < MAX_FLOWS && now >= old(now) && tokens == old(tokens) && nextIdx == old(nextIdx)
        invariant Writing(writers) && Kept(old(pending[..]), pending[..]) && seen == pending[..]
        invariant k < MAX_FLOWS ==> Distance(nextIdx, i) == k
        invariant forall g :: 0 <= g < MAX_FLOWS && Waits(old(Abs()), writers, g) ==> k <= Distance(nextIdx, g)
      {
        Environment(writers);
        seen := pending[..];
        if !read[i] && pending[i] {
          found := true;
          got := TryFetchAToken();
          if got {
            pending[i] := false;
            nextIdx := (i + 1) % MAX_FLOWS;
          } else {
            nextIdx := i;
          }
          return;
        }
        i := (i + 1) % MAX_FLOWS;
      }
    }

    /**
     Mints one token unless MAX_TOKEN are there: the first at once, the others after the interval. The
     applications do not stop meanwhile.
     */
    method Mint(interval: nat, writers: set<nat>)
      requires Shaped() && Writing(writers)
      requires startFlag || startCycle <= now
      modifies pending, read, this`now, this`tokens, this`startFlag, this`startCycle
      ensures Writing(writers) && Kept(old(pending[..]), pending[..])
      ensures tokens == if old(tokens) < MAX_TOKEN then old(tokens) + 1 else old(tokens)
      ensures now >= old(now)
      ensures old(tokens) < MAX_TOKEN ==> !startFlag && old(now) < startCycle <= now
      ensures old(tokens) < MAX_TOKEN && !old(startFlag) ==> startCycle >= old(startCycle) + interval
    {
      if tokens < MAX_TOKEN {
        if startFlag {
          startFlag := false;
          startCycle := GetCycles();
        } else {
          var t := GetCycles();
          while t - startCycle < interval
            invariant old(now) < t <= now && tokens == old(tokens)
            invariant startCycle == old(startCycle) && !startFlag
            invariant Writing(writers) && Kept(old(pending[..]), pending[..])
            decreases startCycle + interval - t
          {
            Environment(writers);
            t := GetCycles();
          }
          startCycle := GetCycles();
        }
        Environment(writers);
        tokens := tokens + 1;
      }
    }

    /** The turn that a pass was, as the log tells it. */
    ghost function LastTurn(before: seq<Grant>, writers: set<nat>): Turn
      reads this
    {
      Turn(writers, if |log| > |before| then Some(log[|log| - 1].flow) else None)
    }

    /**
     One pass of the endless loop at the cap and the fan-in then in force. Every finished pass at a
     nonzero cap hands out the one token there is, so the branch for being out of tokens is never
     taken, records one timed grant, and ends with one token again. A pass without a cap grants nobody,
     and neither does one whose scan has not found anybody yet.
     */
    method Pass(cap: nat, smallFlows: nat, looks: nat, writers: set<nat>) returns (finished: bool)
      requires Valid() && Writing(writers)
      modifies this, pending, read
      ensures Valid() && Writing(writers)
      ensures TurnStep(old(Abs()), Abs(), LastTurn(old(log), writers))
      ensures cap == 0 ==> finished
      ensures cap == 0 || !finished ==> log == old(log)
      ensures cap > 0 && finished ==>
                && |log| == |old(log)| + 1 && log[..|old(log)|] == old(log)
                && var g := log[|old(log)|];
                   && g.cap == cap && g.smallFlows == smallFlows && g.chunk == activeChunkSize
                   && g.interval == cpuMhz * activeChunkSize % 0x1_0000_0000 / cap
                   && old(now) <= g.at <= g.minted <= now
      ensures cap > 0 ==> activeChunkSize == if smallFlows > 0 then 5000 else 1000000
      ensures cap == 0 ==> activeChunkSize == old(activeChunkSize)
      ensures looks >= MAX_FLOWS && (exists f :: 0 <= f < MAX_FLOWS && Waits(old(Abs()), writers, f)) ==> finished
    {
      if cap == 0 {
        Environment(writers);
        return true;
      }
      var chunkSize := ChunkSize(cap, smallFlows);
      activeChunkSize := chunkSize;
      assert Abs() == old(Abs());
      var found, got, i, seen := Scan(looks, writers);
      if !found {
        return false;
      }
      assert got;
      RecordGrant(i, cap, smallFlows, chunkSize, writers);
      return true;
    }

    /** What is left of a pass once flow `i` has the token: mint the next one. */
    method RecordGrant(i: nat, cap: nat, smallFlows: nat, chunkSize: nat, writers: set<nat>)
      requires Shaped() && InStep() && tokens == 0 && Writing(writers)
      requires cap > 0 && chunkSize == if smallFlows > 0 then 5000 else 1000000
      modifies pending, read, this`now, this`tokens, this`startFlag, this`startCycle, this`log
      ensures Valid() && Writing(writers) && Kept(old(pending[..]), pending[..])
      ensures |log| == |old(log)| + 1 && log[..|old(log)|] == old(log)
      ensures log[|old(log)|]
              == Grant(i, old(now), cap, smallFlows, chunkSize, Interval(cpuMhz, chunkSize, cap), startCycle)
    {
      var interval := Interval(cpuMhz, chunkSize, cap);
      ghost var g := Grant(i, now, cap, smallFlows, chunkSize, interval, 0);
      Mint(interval, writers);
      g := g.(minted := startCycle);
      LogGrows(log, g);
      log := log + [g];
    }

    /**
     The endless loop, cut off after `rounds` passes, each at whatever cap and fan-in it finds. A flow
     on the WRITE path that waits when the loop begins either is granted in it, or still waits at its
     end; and then fewer than MAX_FLOWS grants were made, all to different flows.
     */
    method GenerateTokens(rounds: nat, f: nat)
      requires Valid() && f < MAX_FLOWS && Writing({f}) && pending[f]
      modifies this, pending, read
      ensures Valid() && Writing({f})
      ensures old(log) <= log
      ensures var flows := Flows(log[|old(log)|..]);
              f in flows || (|flows| < MAX_FLOWS && StillWaiting(flows, Abs(), f, MAX_FLOWS - 1))
    {
      ghost var base := |log|;
      ghost var start := Distance(nextIdx, f);
      for r := 0 to rounds
        invariant Valid() && Writing({f}) && old(log) <= log
        invariant WaitsOrServed(Flows(log[base..]), Abs(), f, start)
      {
        ghost var flows, before := Flows(log[base..]), Abs();
        ghost var t := OnePass(f, base);
        WaitsOrServedStep(flows, before, Abs(), t, f, start);
      }
    }

    /** A pass at the cap and fan-in that it happens to find. */
    method OnePass(f: nat, ghost base: nat) returns (ghost t: Turn)
      requires Valid() && Writing({f}) && base <= |log|
      modifies this, pending, read
      ensures Valid() && Writing({f})
      ensures f in t.writers && TurnStep(old(Abs()), Abs(), t) && old(log) <= log
      ensures Flows(log[base..]) == Flows(old(log)[base..]) + match t.grant case None => [] case Some(g) => [g]
    {
      ghost var before := log;
      var cap: nat, smallFlows: nat, looks: nat :| true;
      var _ := Pass(cap, smallFlows, looks, {f});
      t := LastTurn(before, {f});
      FlowsMore(before, log, base);
    }
  }
}
