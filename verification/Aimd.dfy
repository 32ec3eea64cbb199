/**
 The rate control of rdma_pacer/monitor.c: what one pass of monitor_latency does to the cap of the
 virtual link once it knows the fan-in and whether the reference flow met its latency target.
 */
module Aimd {
  import opened Arith
  import opened Limits

  /** What a pass reads: local application counts, the receiver's counts, and whether the target was missed. */
  datatype Reading = Reading(localBig: nat, localBw: nat, localSmall: nat,
                             receiverBig: nat, receiverSmall: nat, overTarget: bool)

  /** `round(local / (receiver + 1) * LINE_RATE_MB)`: the share of a sender, rounded half up. */
  function Share(localBig: nat, receiverBig: nat): nat {
    DivAtLeast(2 * localBig * LINE_RATE_MB + receiverBig + 1, 2 * (receiverBig + 1), 0);
    (2 * localBig * LINE_RATE_MB + receiverBig + 1) / (2 * (receiverBig + 1))
  }

  /** The share is the integer nearest to `local / (receiver + 1)` of the line rate. */
  lemma ShareIsNearest(localBig: nat, receiverBig: nat)
    ensures var error := localBig * LINE_RATE_MB - Share(localBig, receiverBig) * (receiverBig + 1);
            -(receiverBig + 1) <= 2 * error < receiverBig + 1
  {
    var d := receiverBig + 1;
    DivBlock(2 * localBig * LINE_RATE_MB + d, 2 * d);
    assert Share(localBig, receiverBig) * (2 * d) == 2 * (Share(localBig, receiverBig) * d);
  }

  /** The least cap that a decrease leaves. */
  function Floor(r: Reading): (f: nat)
    ensures f <= LINE_RATE_MB
  {
    Min(Share(r.localBig, r.receiverBig), LINE_RATE_MB)
  }

  /** Bandwidth applications run here while latency applications run here or elsewhere on the receiver. */
  predicate Shared(r: Reading) {
    r.localBig > 0 && (r.localSmall > 0 || r.receiverSmall > 0) && r.localBw > 0
  }

  /** A pass in the shared phase: multiplicative decrease down to the floor, additive increase up to the line rate. */
  function Adjust(cap: nat, floor: nat, over: bool): nat {
    if over then Max(cap / 2, floor) else if cap < LINE_RATE_MB then cap + 1 else cap
  }

  function Pass(cap: nat, r: Reading): nat {
    if Shared(r) then Adjust(cap, Floor(r), r.overTarget)
    else if r.localBig > 0 then LINE_RATE_MB
    else cap
  }

  function Passes(cap: nat, rs: seq<Reading>): nat
    decreases |rs|
  {
    if rs == [] then cap else Pass(Passes(cap, rs[..|rs| - 1]), rs[|rs| - 1])
  }

  /** Over any run whatsoever the cap never exceeds the line rate. */
  lemma {:induction false} NeverAboveLineRate(cap: nat, rs: seq<Reading>)
    requires cap <= LINE_RATE_MB
    ensures Passes(cap, rs) <= LINE_RATE_MB
    decreases |rs|
  {
    if rs != [] { NeverAboveLineRate(cap, rs[..|rs| - 1]); }
  }

  /** Readings of a sender with bandwidth applications whose receiver has latency applications, all with one floor. */
  predicate SameCounts(rs: seq<Reading>, floor: nat) {
    forall k :: 0 <= k < |rs| ==>
      && rs[k].localBig > 0 && rs[k].localBw > 0 && (rs[k].localSmall > 0 || rs[k].receiverSmall > 0)
      && floor == Min(Share(rs[k].localBig, rs[k].receiverBig), LINE_RATE_MB)
  }

  lemma HalveAgain(cap: nat, k: nat)
    ensures cap / Pow2(k) / 2 == cap / Pow2(k + 1)
  {
    var p := Pow2(k);
    var q := cap / p / 2;
    DivBlock(cap, p);
    DivBlock(cap / p, 2);
    DivAtLeast(cap, p, 0);
    SplitBlock(q, 2, cap / p, p, cap);
    DivUnique(cap, 2 * p, q);
  }

  /** `k >= 1` passes over the target with unchanged counts leave exactly `max(floor, cap >> k)`. */
  lemma {:induction false} Decrease(cap: nat, rs: seq<Reading>, floor: nat)
    requires |rs| >= 1 && SameCounts(rs, floor) && forall k :: 0 <= k < |rs| ==> rs[k].overTarget
    ensures Passes(cap, rs) == Max(floor, cap / Pow2(|rs|))
    decreases |rs|
  {
    var k := |rs| - 1;
    if k == 0 {
      assert rs[..0] == [];
      assert Pow2(1) == 2;
    } else {
      Decrease(cap, rs[..k], floor);
      HalveAgain(cap, k);
    }
  }

  /** `k` passes that meet the target with unchanged counts leave exactly `min(LINE_RATE_MB, cap + k)`. */
  lemma {:induction false} Increase(cap: nat, rs: seq<Reading>, floor: nat)
    requires cap <= LINE_RATE_MB && SameCounts(rs, floor) && forall k :: 0 <= k < |rs| ==> !rs[k].overTarget
    ensures Passes(cap, rs) == Min(LINE_RATE_MB, cap + |rs|)
    decreases |rs|
  {
    if rs != [] { Increase(cap, rs[..|rs| - 1], floor); }
  }

  /** Whatever the mix of hits and misses, unchanged counts never push a cap below the floor it was above. */
  lemma {:induction false} NeverBelowFloor(cap: nat, rs: seq<Reading>, floor: nat)
    requires SameCounts(rs, floor) && cap >= floor
    ensures Passes(cap, rs) >= floor
    decreases |rs|
  {
    if rs != [] { NeverBelowFloor(cap, rs[..|rs| - 1], floor); }
  }

  function SumShares(locals: seq<nat>, receiverBig: nat): nat {
    if locals == [] then 0 else Share(locals[0], receiverBig) + SumShares(locals[1..], receiverBig)
  }

  lemma {:induction false} SharesBound(locals: seq<nat>, receiverBig: nat)
    ensures 2 * (receiverBig + 1) * SumShares(locals, receiverBig)
            <= 2 * LINE_RATE_MB * Sum(locals) + (receiverBig + 1) * |locals|
  {
    var d := receiverBig + 1;
    if locals != [] {
      SharesBound(locals[1..], receiverBig);
      var s := Share(locals[0], receiverBig);
      DivBlock(2 * locals[0] * LINE_RATE_MB + d, 2 * d);
      assert 2 * d * s <= 2 * locals[0] * LINE_RATE_MB + d;
      assert 2 * d * SumShares(locals, receiverBig) == 2 * d * s + 2 * d * SumShares(locals[1..], receiverBig);
      assert d * |locals| == d * |locals[1..]| + d;
    }
  }

  /**
   When the receiver's count is the sum of the senders' big applications, the floors of all senders
   together leave one share of the line for the latency applications, up to half a unit of rounding
   for each sender.
   */
  lemma FloorsLeaveAShare(locals: seq<nat>)
    ensures 2 * (Sum(locals) + 1) * SumShares(locals, Sum(locals))
            <= 2 * LINE_RATE_MB * (Sum(locals) + 1) - 2 * LINE_RATE_MB + (Sum(locals) + 1) * |locals|
  {
    SharesBound(locals, Sum(locals));
  }

  class RateControl {
    /** The cap in shared memory, and the local variable in which a pass prepares the next one. */
    var virtualLinkCap: nat
    var temp: nat

    ghost predicate Valid()
      reads this
    {
      virtualLinkCap <= LINE_RATE_MB && temp == virtualLinkCap
    }

    /** Starts at the line rate. The source leaves `temp` unassigned; here it starts at the cap. */
    constructor ()
      ensures Valid() && virtualLinkCap == LINE_RATE_MB
    {
      virtualLinkCap, temp := LINE_RATE_MB, LINE_RATE_MB;
    }

    /**
     One pass. While bandwidth applications run here and latency applications here or elsewhere at the
     receiver, the cap is halved, down to the sender's share, when the target was missed, and raised by
     one otherwise; with big applications only it is the line rate; without any it stays.
     */
    method Monitor(r: Reading)
      requires Valid()
      modifies this
      ensures Valid() && virtualLinkCap == Pass(old(virtualLinkCap), r)
      ensures r.localBig > 0 && r.localBw > 0 && (r.localSmall > 0 || r.receiverSmall > 0) ==>
                virtualLinkCap == if r.overTarget
                                  then Max(old(virtualLinkCap) / 2, Min(Share(r.localBig, r.receiverBig), LINE_RATE_MB))
                                  else Min(old(virtualLinkCap) + 1, LINE_RATE_MB)
      ensures r.localBig > 0 && (r.localBw == 0 || (r.localSmall == 0 && r.receiverSmall == 0)) ==>
                virtualLinkCap == LINE_RATE_MB
      ensures r.localBig == 0 ==> virtualLinkCap == old(virtualLinkCap)
    {
      if r.localBig != 0 {
        if (r.localSmall != 0 || r.receiverSmall != 0) && r.localBw != 0 {
          var minVirtualLinkCap := Share(r.localBig, r.receiverBig);
          if minVirtualLinkCap > LINE_RATE_MB {
            minVirtualLinkCap := LINE_RATE_MB;
          }
          temp := virtualLinkCap;
          if r.overTarget {
            temp := temp / 2;
            if temp < minVirtualLinkCap {
              temp := minVirtualLinkCap;
            }
          } else {
            if virtualLinkCap < LINE_RATE_MB {
              temp := temp + 1;
            }
          }
          virtualLinkCap := temp;
        } else {
          if virtualLinkCap != LINE_RATE_MB {
            temp := LINE_RATE_MB;
          }
          virtualLinkCap := temp;
        }
      }
    }
  }
}
