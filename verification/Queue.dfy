/**
 The O(1) ring buffer of rdma_pacer/queue.c. One cell of the array always stays unused, so that a
 full ring and an empty ring look different.
 */
module Queue {

  /** Stepping an index around the ring. */
  lemma Around(i: nat, size: nat)
    requires i < size
    ensures (i + 1) % size == if i + 1 == size then 0 else i + 1
  {
    if i + 1 == size {
      assert (i + 1) % size == 0;
    } else {
      assert (i + 1) % size == i + 1;
    }
  }

  class Queue {
    var read: nat
    var write: nat
    const size: nat
    const array_: array<int>

    ghost predicate Valid()
      reads this
    {
      size == array_.Length && size >= 1 && read < size && write < size
    }

    /** The stored numbers, oldest first. */
    ghost function Contents(): (s: seq<int>)
      requires Valid()
      reads this, array_
      ensures |s| < size
    {
      if read <= write then array_[read..write] else array_[read..] + array_[..write]
    }

    constructor (capacity: nat)
      ensures Valid() && fresh(array_)
      ensures size == capacity + 1 && Contents() == []
    {
      array_ := new int[capacity + 1](_ => 0);
      size := capacity + 1;
      read := 0;
      write := 0;
    }

    /** Returns false, changing nothing, where the source jumps out with QUEUE_FULL_ERROR. */
    method Push(a: int) returns (ok: bool)
      requires Valid()
      modifies this, array_
      ensures Valid()
      ensures ok <==> |old(Contents())| + 1 < size
      ensures Contents() == if ok then old(Contents()) + [a] else old(Contents())
    {
      Around(write, size);
      if read == (write + 1) % size {
        return false;
      }
      array_[write] := a;
      write := (write + 1) % size;
      return true;
    }

    /** Returns false, changing nothing, where the source jumps out with QUEUE_EMPTY_ERROR. */
    method Pop() returns (ok: bool, a: int)
      requires Valid()
      modifies this
      ensures Valid()
      ensures ok <==> old(Contents()) != []
      ensures ok ==> old(Contents()) == [a] + Contents()
      ensures !ok ==> Contents() == []
    {
      if read == write {
        return false, 0;
      }
      Around(read, size);
      a := array_[read];
      read := (read + 1) % size;
      ok := true;
    }
  }
}
