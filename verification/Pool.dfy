/** The buffer pool of pool.go: a stack of free buffer numbers. */
module Pool {
  import opened Wire

  const BUFFER_SIZE := 2048
  const MAX_POOL_CAPACITY := 65535

  /** A buffer taken from the pool, with the bytes received into it. */
  datatype Handle = Handle(idx: nat, bytes: Bytes)

  datatype Lease = Leased(idx: nat) | Exhausted

  ghost predicate NoDuplicates(s: seq<nat>) {
    forall i, j :: 0 <= i < j < |s| ==> s[i] != s[j]
  }

  ghost function Elements(s: seq<nat>): set<nat> {
    set x | x in s
  }

  class BufferPool {
    const capacity: nat
    var freelist: seq<nat>

    /** No free buffer is listed twice. */
    ghost predicate Valid()
      reads this
    {
      NoDuplicates(freelist)
    }

    ghost function Free(): set<nat>
      reads this
    {
      Elements(freelist)
    }

    /** newBufferPool; the original panics outside this capacity range. */
    constructor (capacity: nat)
      requires 0 < capacity <= MAX_POOL_CAPACITY
      ensures Valid() && this.capacity == capacity
      ensures forall i :: i in Free() <==> 0 <= i < capacity
    {
      var free := new nat[capacity];
      for i := 0 to capacity
        invariant forall k :: capacity - i <= k < capacity ==> free[k] == capacity - 1 - k
      {
        free[capacity - 1 - i] := i;
      }
      forall i | 0 <= i < capacity ensures i in free[..] {
        assert free[..][capacity - 1 - i] == i;
      }
      this.capacity := capacity;
      freelist := free[..];
    }

    /** acquire pops the most recently freed buffer. */
    method Acquire() returns (r: Lease)
      requires Valid()
      modifies this
      ensures Valid()
      ensures r.Exhausted? <==> old(freelist) == []
      ensures r.Exhausted? ==> freelist == old(freelist)
      ensures r.Leased? ==> freelist + [r.idx] == old(freelist) && r.idx !in Free() && old(Free()) == Free() + {r.idx}
    {
      if |freelist| == 0 {
        return Exhausted;
      }
      ghost var before := freelist;
      var idx := freelist[|freelist| - 1];
      freelist := freelist[..|freelist| - 1];
      assert before == freelist + [idx];
      r := Leased(idx);
    }

    /** release pushes the buffer back. */
    method Release(idx: nat)
      requires Valid() && idx !in Free()
      modifies this
      ensures Valid() && freelist == old(freelist) + [idx] && Free() == old(Free()) + {idx}
    {
      freelist := freelist + [idx];
    }
  }
}
