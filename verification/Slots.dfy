/** The table in rdma_pacer/pacer.c that gives every process one flow slot. */
module Slots {
  import opened Limits

  const FREE := -1

  /** No process holds two slots. */
  predicate Injective(s: seq<int>) {
    forall i, j :: 0 <= i < j < |s| && s[i] != FREE ==> s[i] != s[j]
  }

  /** First position of a value, or the length. */
  function First(s: seq<int>, v: int): (i: nat)
    ensures i <= |s| && v !in s[..i] && (i < |s| ==> s[i] == v)
  {
    if s == [] then 0
    else if s[0] == v then 0
    else
      var i := First(s[1..], v);
      assert s[..i + 1] == [s[0]] + s[1..][..i];
      i + 1
  }

  lemma {:induction false} FirstUnique(s: seq<int>, v: int, i: nat)
    requires i < |s| && s[i] == v && v !in s[..i]
    ensures First(s, v) == i
  {
    if i > 0 {
      assert s[0] in s[..i];
      assert s[1..][..i - 1] == s[..i][1..];
      FirstUnique(s[1..], v, i - 1);
    }
  }

  /** The slot a process gets: its own if it has one, else the first free one; the length if none is left. */
  function SlotOf(s: seq<int>, pid: int): (i: nat)
    ensures i <= |s|
  {
    if pid in s then First(s, pid) else First(s, FREE)
  }

  function Assign(s: seq<int>, pid: int): (t: seq<int>)
    ensures |t| == |s|
  {
    var i := SlotOf(s, pid);
    if i < |s| then s[i := pid] else s
  }

  function AssignAll(s: seq<int>, pids: seq<int>): (t: seq<int>)
    ensures |t| == |s|
    decreases |pids|
  {
    if pids == [] then s else AssignAll(Assign(s, pids[0]), pids[1..])
  }

  lemma AssignKeeps(s: seq<int>, pid: int)
    requires Injective(s) && pid != FREE
    ensures Injective(Assign(s, pid))
    ensures forall i :: 0 <= i < |s| && s[i] != FREE ==> Assign(s, pid)[i] == s[i]
    ensures SlotOf(s, pid) < |s| ==> Assign(s, pid)[SlotOf(s, pid)] == pid
  {
    var i := SlotOf(s, pid);
    if pid !in s && i < |s| {
      assert s[i] == FREE;
    }
  }

  /**
   Over any run of requests no process ever holds two slots, no two processes share one, and a
   process that holds a slot is given that same slot by every later request.
   */
  lemma {:induction false} SlotsStable(s: seq<int>, pids: seq<int>, i: int)
    requires Injective(s) && FREE !in pids
    requires 0 <= i < |s| && s[i] != FREE
    ensures Injective(AssignAll(s, pids))
    ensures AssignAll(s, pids)[i] == s[i] && SlotOf(AssignAll(s, pids), s[i]) == i
    decreases |pids|
  {
    if pids == [] {
      var j := First(s, s[i]);
      assert j == i;
    } else {
      assert pids[0] in pids;
      AssignKeeps(s, pids[0]);
      SlotsStable(Assign(s, pids[0]), pids[1..], i);
    }
  }

  class SlotTable {
    const pidList: array<int>

    ghost predicate Valid()
      reads pidList
    {
      pidList.Length == MAX_FLOWS && Injective(pidList[..])
    }

    constructor ()
      ensures Valid() && forall i :: 0 <= i < MAX_FLOWS ==> pidList[i] == FREE
      ensures fresh(pidList)
    {
      pidList := new int[MAX_FLOWS](_ => FREE);
    }

    /** find_next_slot; -1 where the source exits, on an invalid pid or a full table. */
    method FindNextSlot(pid: int) returns (retSlot: int)
      requires Valid()
      modifies pidList
      ensures Valid()
      ensures pid == FREE ==> retSlot == -1 && pidList[..] == old(pidList[..])
      ensures pid != FREE ==> pidList[..] == Assign(old(pidList[..]), pid)
      ensures pid != FREE ==>
                var i := SlotOf(old(pidList[..]), pid);
                retSlot == if i < MAX_FLOWS then i else -1
      ensures pid != FREE && pid in old(pidList[..]) ==>
                0 <= retSlot < MAX_FLOWS && old(pidList[..])[retSlot] == pid && pidList[..] == old(pidList[..])
      ensures pid != FREE && pid !in old(pidList[..]) && FREE in old(pidList[..]) ==>
                && 0 <= retSlot < MAX_FLOWS && old(pidList[..])[retSlot] == FREE && FREE !in old(pidList[..])[..retSlot]
                && pidList[..] == old(pidList[..])[retSlot := pid]
      ensures pid != FREE && pid !in old(pidList[..]) && FREE !in old(pidList[..]) ==>
                retSlot == -1 && pidList[..] == old(pidList[..])
    {
      if pid == FREE {
        return -1;
      }
      ghost var s := pidList[..];
      AssignKeeps(s, pid);
      retSlot := -1;
      var matched := false;
      var i := 0;
      while i < MAX_FLOWS
        invariant 0 <= i <= MAX_FLOWS && !matched && retSlot == -1
        invariant pidList[..] == s && pid !in s[..i]
      {
        if pidList[i] == pid {
          pidList[i] := pid;
          assert pidList[..] == s;
          retSlot := i;
          matched := true;
          break;
        }
        i := i + 1;
      }
      if !matched {
        assert s[..i] == s;
        i := 0;
        while i < MAX_FLOWS
          invariant 0 <= i <= MAX_FLOWS && retSlot == -1
          invariant pidList[..] == s && FREE !in s[..i]
        {
          if pidList[i] == FREE {
            retSlot := i;
            break;
          }
          i := i + 1;
        }
      }
      if retSlot == -1 {
        assert s[..i] == s;
        return;
      }
      var target := if matched then pid else FREE;
      FirstUnique(s, target, retSlot);
      pidList[retSlot] := pid;
    }
  }
}
