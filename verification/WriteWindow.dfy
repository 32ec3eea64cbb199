/**
 The posting loop of new_busy_poll/write_bw_old.c: several queues, each with a window of
 outstanding writes, and one completion queue that reports them in whatever order they finish.
 */
module WriteWindow {
  import opened Arith

  /**
   The clamps that main applies to the number of posts per queue, whatever was asked for: nothing
   bounds it from below, so a request of less than one post leaves no window at all.
   */
  method Clamp(posts: int, txDepth: int, iters: int) returns (maxposts: int)
    ensures maxposts <= posts && maxposts <= txDepth && maxposts <= iters
    ensures maxposts == posts || maxposts == txDepth || maxposts == iters
    ensures maxposts >= 1 <==> posts >= 1 && txDepth >= 1 && iters >= 1
  {
    maxposts := posts;
    if maxposts > txDepth {
      maxposts := txDepth;
    }
    if maxposts > iters {
      maxposts := iters;
    }
  }

  // ----- what the hardware sees -----

  datatype Event = Posted(queue: nat) | Completed(queue: nat)

  function Posts(events: seq<Event>, q: nat): nat
    decreases |events|
  {
    if events == [] then 0
    else Posts(events[..|events| - 1], q) + if events[|events| - 1] == Posted(q) then 1 else 0
  }

  function Completions(events: seq<Event>, q: nat): nat
    decreases |events|
  {
    if events == [] then 0
    else Completions(events[..|events| - 1], q) + if events[|events| - 1] == Completed(q) then 1 else 0
  }

  /** At every moment of the run, no queue has more than `window` requests outstanding, or fewer than none. */
  ghost predicate Windowed(events: seq<Event>, queues: nat, window: nat)
    decreases |events|
  {
    && (forall q: nat :: q < queues ==> 0 <= Posts(events, q) - Completions(events, q) <= window)
    && (events != [] ==> Windowed(events[..|events| - 1], queues, window))
  }

  /** The same, said of every prefix of the run. */
  lemma {:induction false} WindowedAlways(events: seq<Event>, queues: nat, window: nat, k: nat, q: nat)
    requires Windowed(events, queues, window) && k <= |events| && q < queues
    ensures 0 <= Posts(events[..k], q) - Completions(events[..k], q) <= window
    decreases |events|
  {
    if k < |events| {
      WindowedAlways(events[..|events| - 1], queues, window, k, q);
      assert events[..|events| - 1][..k] == events[..k];
    } else {
      assert events[..k] == events;
    }
  }

  lemma Extend(events: seq<Event>, e: Event)
    ensures (events + [e])[..|events|] == events
    ensures forall q: nat :: Posts(events + [e], q) == Posts(events, q) + if e == Posted(q) then 1 else 0
    ensures forall q: nat :: Completions(events + [e], q) == Completions(events, q) + if e == Completed(q) then 1 else 0
  {
    assert (events + [e])[..|events|] == events;
  }

  /** The counters of the queues are what the run so far says they are. */
  ghost predicate Tallied(events: seq<Event>, posted: seq<nat>, completed: seq<nat>) {
    && |posted| == |completed|
    && forall q: nat :: q < |posted| ==> Posts(events, q) == posted[q] && Completions(events, q) == completed[q]
  }

  lemma PostLogged(events: seq<Event>, s: seq<nat>, c: seq<nat>, i: nat, window: nat)
    requires Tallied(events, s, c) && Windowed(events, |s|, window)
    requires i < |s| && c[i] <= s[i] < c[i] + window
    ensures Tallied(events + [Posted(i)], s[i := s[i] + 1], c) && Windowed(events + [Posted(i)], |s|, window)
  {
    Extend(events, Posted(i));
  }

  lemma CompletionLogged(events: seq<Event>, s: seq<nat>, c: seq<nat>, i: nat, window: nat)
    requires Tallied(events, s, c) && Windowed(events, |s|, window)
    requires i < |s| && c[i] < s[i] <= c[i] + window
    ensures Tallied(events + [Completed(i)], s, c[i := c[i] + 1]) && Windowed(events + [Completed(i)], |s|, window)
  {
    Extend(events, Completed(i));
  }

  /** Counters, totals and the run so far agree, and every window is respected. */
  ghost predicate Consistent(events: seq<Event>, s: seq<nat>, c: seq<nat>, tots: nat, totc: nat,
                             iters: nat, window: nat)
  {
    && |s| == |c|
    && (forall q :: 0 <= q < |s| ==> c[q] <= s[q] <= iters && s[q] <= c[q] + window)
    && tots == Sum(s) && totc == Sum(c)
    && Tallied(events, s, c) && Windowed(events, |s|, window)
    && |events| == tots + totc
  }

  lemma PostKeeps(events: seq<Event>, s: seq<nat>, c: seq<nat>, tots: nat, totc: nat,
                  iters: nat, window: nat, i: nat)
    requires Consistent(events, s, c, tots, totc, iters, window)
    requires i < |s| && s[i] < iters && s[i] < c[i] + window
    ensures Consistent(events + [Posted(i)], s[i := s[i] + 1], c, tots + 1, totc, iters, window)
  {
    PostLogged(events, s, c, i, window);
    SumUpdate(s, i, s[i] + 1);
  }

  lemma CompletionKeeps(events: seq<Event>, s: seq<nat>, c: seq<nat>, tots: nat, totc: nat,
                        iters: nat, window: nat, i: nat)
    requires Consistent(events, s, c, tots, totc, iters, window)
    requires i < |s| && c[i] < s[i]
    ensures Consistent(events + [Completed(i)], s, c[i := c[i] + 1], tots, totc + 1, iters, window)
  {
    CompletionLogged(events, s, c, i, window);
    SumUpdate(c, i, c[i] + 1);
  }

  // ----- the order of the run -----

  /** One post on every queue in turn. */
  function Sweep(queues: nat): seq<Event> {
    seq(queues, q requires 0 <= q < queues => Posted(q))
  }

  /** `rounds` sweeps one after the other. */
  function RoundRobin(rounds: nat, queues: nat): seq<Event> {
    if rounds == 0 then [] else RoundRobin(rounds - 1, queues) + Sweep(queues)
  }

  /** Nothing but posts has been added. */
  ghost predicate OnlyPosts(before: seq<Event>, after: seq<Event>) {
    before <= after && forall k :: |before| <= k < |after| ==> after[k].Posted?
  }

  lemma {:induction false} RoundsOfPosts(rounds: nat, queues: nat)
    ensures OnlyPosts([], RoundRobin(rounds, queues))
  {
    if rounds > 0 { RoundsOfPosts(rounds - 1, queues); }
  }

  /** Every poll was made with each queue through or its window full. */
  ghost predicate FullAtPolls(events: seq<Event>, queues: nat, iters: nat, window: nat)
    decreases |events|
  {
    events == [] ||
    var before := events[..|events| - 1];
    && FullAtPolls(before, queues, iters, window)
    && (events[|events| - 1].Completed? ==>
          forall q: nat :: q < queues ==>
            Posts(before, q) == iters || Posts(before, q) - Completions(before, q) == window)
  }

  lemma {:induction false} PostsKeepFull(before: seq<Event>, after: seq<Event>, queues: nat, iters: nat, window: nat)
    requires FullAtPolls(before, queues, iters, window) && OnlyPosts(before, after)
    ensures FullAtPolls(after, queues, iters, window)
    decreases |after|
  {
    if after != before {
      PostsKeepFull(before, after[..|after| - 1], queues, iters, window);
    }
  }

  lemma PollKeepsFull(events: seq<Event>, i: nat, s: seq<nat>, c: seq<nat>, iters: nat, window: nat)
    requires FullAtPolls(events, |s|, iters, window) && Tallied(events, s, c)
    requires forall q :: 0 <= q < |s| ==> s[q] == iters || s[q] == c[q] + window
    ensures FullAtPolls(events + [Completed(i)], |s|, iters, window)
  {
    assert (events + [Completed(i)])[..|events|] == events;
  }

  // ----- totals -----

  function Full(n: nat, v: nat): seq<nat> {
    seq(n, _ => v)
  }

  lemma {:induction false} SumFull(n: nat, v: nat)
    ensures Sum(Full(n, v)) == v * n
  {
    if n > 0 {
      assert Full(n, v)[1..] == Full(n - 1, v);
      SumFull(n - 1, v);
    }
  }

  // ----- the loop -----

  class Bench {
    const iters: nat
    const numofqps: nat
    const maxposts: nat
    const scnt: array<nat>
    const ccnt: array<nat>
    const tposted: array<nat>
    const tcompleted: array<nat>
    var totscnt: nat
    var totccnt: nat
    /** The cycle counter. */
    var now: nat
    ghost var events: seq<Event>
    /** What the cycle counter was when the run began. */
    ghost var began: nat

    ghost predicate Allocated() {
      && 1 <= maxposts <= iters
      && scnt.Length == ccnt.Length == numofqps
      && tposted.Length == tcompleted.Length == iters * numofqps
      && scnt != ccnt && scnt != tposted && scnt != tcompleted
      && ccnt != tposted && ccnt != tcompleted && tposted != tcompleted
    }

    ghost predicate Valid()
      reads this, scnt, ccnt, tposted, tcompleted
    {
      && Allocated()
      && Consistent(events, scnt[..], ccnt[..], totscnt, totccnt, iters, maxposts)
      && totccnt <= totscnt <= iters * numofqps && began <= now
      && (forall i :: 0 <= i < totscnt ==> began <= tposted[i] <= now)
      && (forall i :: 0 <= i < totccnt ==> tposted[i] <= tcompleted[i] <= now)
    }

    constructor (iters: nat, numofqps: nat, maxposts: nat)
      requires 1 <= maxposts <= iters
      ensures Allocated()
      ensures this.iters == iters && this.numofqps == numofqps && this.maxposts == maxposts
      ensures fresh(scnt) && fresh(ccnt) && fresh(tposted) && fresh(tcompleted)
    {
      this.iters, this.numofqps, this.maxposts := iters, numofqps, maxposts;
      scnt := new nat[numofqps](_ => 0);
      ccnt := new nat[numofqps](_ => 0);
      tposted := new nat[iters * numofqps](_ => 0);
      tcompleted := new nat[iters * numofqps](_ => 0);
      totscnt, totccnt, now := 0, 0, 0;
      events, began := [], 0;
    }

    method GetCycles() returns (t: nat)
      modifies this`now
      ensures t == now >= old(now)
    {
      var elapsed: nat :| true;
      now := now + elapsed;
      t := now;
    }

    lemma Counts()
      requires Allocated() && forall q :: 0 <= q < numofqps ==> ccnt[q] <= scnt[q] <= iters
      ensures Sum(ccnt[..]) <= Sum(scnt[..]) <= iters * numofqps
      ensures Sum(scnt[..]) == iters * numofqps ==> forall q :: 0 <= q < numofqps ==> scnt[q] == iters
      ensures Sum(ccnt[..]) == iters * numofqps ==> forall q :: 0 <= q < numofqps ==> ccnt[q] == iters
      ensures Sum(ccnt[..]) == Sum(scnt[..]) ==> forall q :: 0 <= q < numofqps ==> ccnt[q] == scnt[q]
    {
      var full := Full(numofqps, iters);
      SumFull(numofqps, iters);
      SumAtMost(ccnt[..], scnt[..]);
      SumAtMost(scnt[..], full);
      SumAtMost(ccnt[..], full);
      forall q | 0 <= q < numofqps
        ensures scnt[..] == full ==> scnt[q] == iters
        ensures ccnt[..] == full ==> ccnt[q] == iters
        ensures ccnt[..] == scnt[..] ==> ccnt[q] == scnt[q]
      {
        assert scnt[..][q] == scnt[q] && ccnt[..][q] == ccnt[q] && full[q] == iters;
      }
    }

    /** While some queue is not through, there is an unused time stamp. */
    lemma Room(index: nat)
      requires Valid() && index < numofqps && scnt[index] < iters
      ensures totscnt < tposted.Length
    {
      Counts();
    }

    /** Posts one write on a queue whose window is open. */
    method Post(index: nat)
      requires Valid() && index < numofqps
      requires scnt[index] < iters && scnt[index] - ccnt[index] < maxposts
      modifies this`totscnt, this`now, this`events, scnt, tposted
      ensures Valid()
      ensures scnt[index] == old(scnt[index]) + 1
      ensures forall q :: 0 <= q < numofqps && q != index ==> scnt[q] == old(scnt[q])
      ensures totscnt == old(totscnt) + 1
      ensures tposted[old(totscnt)] == now >= old(now) && events == old(events) + [Posted(index)]
    {
      Room(index);
      PostKeeps(events, scnt[..], ccnt[..], totscnt, totccnt, iters, maxposts, index);
      var t := GetCycles();
      tposted[totscnt] := t;
      ghost var before := scnt[..];
      scnt[index] := scnt[index] + 1;
      assert scnt[..] == before[index := before[index] + 1];
      totscnt := totscnt + 1;
      events := events + [Posted(index)];
    }

    /** While something is outstanding, fewer requests have completed than were posted. */
    lemma Lagging(index: nat)
      requires Valid() && index < numofqps && ccnt[index] < scnt[index]
      ensures totccnt < totscnt <= tcompleted.Length
    {
      Counts();
    }

    /** Polls once: some outstanding request, on whichever queue, is reported complete. */
    method Poll() returns (index: nat)
      requires Valid() && exists q: nat :: q < numofqps && ccnt[q] < scnt[q]
      modifies this`totccnt, this`now, this`events, ccnt, tcompleted
      ensures Valid()
      ensures index < numofqps && ccnt[index] == old(ccnt[index]) + 1
      ensures forall q :: 0 <= q < numofqps && q != index ==> ccnt[q] == old(ccnt[q])
      ensures totccnt == old(totccnt) + 1
      ensures tcompleted[old(totccnt)] == now >= old(now) && events == old(events) + [Completed(index)]
    {
      index :| index < numofqps && ccnt[index] < scnt[index];
      Lagging(index);
      var t := GetCycles();
      tcompleted[totccnt] := t;
      Complete(index);
    }

    /** Counts the completion that has just been stamped. */
    method Complete(index: nat)
      requires Valid() && index < numofqps && ccnt[index] < scnt[index]
      requires totccnt < totscnt <= tcompleted.Length && tposted[totccnt] <= tcompleted[totccnt] <= now
      modifies this`totccnt, this`events, ccnt
      ensures Valid()
      ensures ccnt[index] == old(ccnt[index]) + 1
      ensures forall q :: 0 <= q < numofqps && q != index ==> ccnt[q] == old(ccnt[q])
      ensures totccnt == old(totccnt) + 1 && events == old(events) + [Completed(index)]
    {
      ghost var before := ccnt[..];
      CompletionKeeps(events, scnt[..], before, totscnt, totccnt, iters, maxposts, index);
      ccnt[index] := ccnt[index] + 1;
      assert ccnt[..] == before[index := before[index] + 1];
      totccnt := totccnt + 1;
      events := events + [Completed(index)];
    }

    method Clear()
      requires Allocated()
      modifies this`totscnt, this`totccnt, this`events, this`began, scnt, ccnt
      ensures Valid() && events == [] && began == now
      ensures forall q :: 0 <= q < numofqps ==> scnt[q] == ccnt[q] == 0
    {
      totscnt, totccnt := 0, 0;
      for index := 0 to numofqps
        invariant totscnt == totccnt == 0
        invariant forall q :: 0 <= q < index ==> scnt[q] == ccnt[q] == 0
      {
        scnt[index] := 0;
        ccnt[index] := 0;
      }
      events, began := [], now;
      assert scnt[..] == Full(numofqps, 0) == ccnt[..];
      SumFull(numofqps, 0);
      assert 0 * numofqps == 0 <= iters * numofqps;
    }

    /** One write on every queue in turn, in round `warmindex`. */
    method PostAll(warmindex: nat)
      requires Valid() && warmindex < maxposts
      requires forall q :: 0 <= q < numofqps ==> scnt[q] == warmindex && ccnt[q] == 0
      modifies this`totscnt, this`now, this`events, scnt, tposted
      ensures Valid() && events == old(events) + Sweep(numofqps)
      ensures forall q :: 0 <= q < numofqps ==> scnt[q] == warmindex + 1 && ccnt[q] == 0
    {
      assert Sweep(0) == [];
      for index := 0 to numofqps
        invariant Valid() && events == old(events) + Sweep(index)
        invariant forall q :: 0 <= q < numofqps ==>
                    scnt[q] == (if q < index then warmindex + 1 else warmindex) && ccnt[q] == 0
      {
        Post(index);
        assert Sweep(index + 1) == Sweep(index) + [Posted(index)];
      }
    }

    /** The warm-up: `maxposts` rounds of that. */
    method WarmUp()
      requires Valid() && events == [] && forall q :: 0 <= q < numofqps ==> scnt[q] == ccnt[q] == 0
      modifies this`totscnt, this`now, this`events, scnt, tposted
      ensures Valid() && events == RoundRobin(maxposts, numofqps)
    {
      for warmindex := 0 to maxposts
        invariant Valid() && events == RoundRobin(warmindex, numofqps)
        invariant forall q :: 0 <= q < numofqps ==> scnt[q] == warmindex && ccnt[q] == 0
      {
        PostAll(warmindex);
      }
    }

    /** The posting half of a turn of the main loop: every window is filled as far as it goes. */
    method FillWindows()
      requires Valid()
      modifies this`totscnt, this`now, this`events, scnt, tposted
      ensures Valid()
      ensures forall q :: 0 <= q < numofqps ==> scnt[q] == iters || scnt[q] - ccnt[q] == maxposts
      ensures totscnt >= old(totscnt) && now >= old(now) && OnlyPosts(old(events), events)
    {
      for index := 0 to numofqps
        invariant Valid() && totscnt >= old(totscnt) && now >= old(now) && OnlyPosts(old(events), events)
        invariant forall q :: 0 <= q < index ==> scnt[q] == iters || scnt[q] - ccnt[q] == maxposts
      {
        while scnt[index] < iters && scnt[index] - ccnt[index] < maxposts
          invariant Valid() && totscnt >= old(totscnt) && now >= old(now) && OnlyPosts(old(events), events)
          invariant forall q :: 0 <= q < index ==> scnt[q] == iters || scnt[q] - ccnt[q] == maxposts
          decreases iters - scnt[index]
        {
          Post(index);
        }
      }
    }

    /**
     The whole of run_iter. Whatever the order of completions, every queue ends with exactly `iters`
     writes posted and completed, no window was ever exceeded, a poll always had something
     outstanding to wait for, and the i-th completion was never stamped before the i-th post, both
     while the run lasted. It starts with `maxposts` rounds of one post on every queue, and every poll
     is made with all windows as full as they go.
     */
    method RunIter()
      requires Allocated()
      modifies this`totscnt, this`totccnt, this`now, this`events, this`began, scnt, ccnt, tposted, tcompleted
      ensures Valid()
      ensures forall q :: 0 <= q < numofqps ==> scnt[q] == iters && ccnt[q] == iters
      ensures totscnt == iters * numofqps && totccnt == iters * numofqps && |events| == 2 * (iters * numofqps)
      ensures Windowed(events, numofqps, maxposts)
      ensures forall i :: 0 <= i < iters * numofqps ==> old(now) <= tposted[i] <= tcompleted[i] <= now
      ensures RoundRobin(maxposts, numofqps) <= events && FullAtPolls(events, numofqps, iters, maxposts)
    {
      Clear();
      WarmUp();
      RoundsOfPosts(maxposts, numofqps);
      PostsKeepFull([], events, numofqps, iters, maxposts);
      while totscnt < iters * numofqps || totccnt < iters * numofqps
        invariant Valid() && began == old(now)
        invariant RoundRobin(maxposts, numofqps) <= events && FullAtPolls(events, numofqps, iters, maxposts)
        decreases iters * numofqps - totccnt
      {
        Turn();
      }
      Counts();
    }

    /** One turn of the main loop: fill the windows, then poll if anything is still to complete. */
    method Turn()
      requires Valid() && FullAtPolls(events, numofqps, iters, maxposts)
      requires totscnt < iters * numofqps || totccnt < iters * numofqps
      modifies this`totscnt, this`totccnt, this`now, this`events, scnt, ccnt, tposted, tcompleted
      ensures Valid() && FullAtPolls(events, numofqps, iters, maxposts)
      ensures old(events) <= events && totccnt == old(totccnt) + 1
    {
      Counts();
      ghost var before := events;
      FillWindows();
      PostsKeepFull(before, events, numofqps, iters, maxposts);
      if totccnt < iters * numofqps {
        SomethingOutstanding();
        ghost var filled, s, c := events, scnt[..], ccnt[..];
        var index := Poll();
        PollKeepsFull(filled, index, s, c, iters, maxposts);
      }
    }

    /** With all windows filled, either everything is complete or something is outstanding. */
    lemma SomethingOutstanding()
      requires Valid() && totccnt < iters * numofqps
      requires forall q :: 0 <= q < numofqps ==> scnt[q] == iters || scnt[q] - ccnt[q] == maxposts
      ensures exists q: nat :: q < numofqps && ccnt[q] < scnt[q]
    {
      Counts();
      if forall q: nat :: q < numofqps ==> ccnt[q] == scnt[q] {
        assert scnt[..] == Full(numofqps, iters) == ccnt[..];
        SumFull(numofqps, iters);
      }
    }
  }
}
