/** The bounded ring of raw bytes a client that attaches is replayed. */
module ReplayRing {
  import opened Prelude

  const ALIGN_SCAN_LIMIT := 8 * 1024

  const NEWLINE: Byte := 10

  /** Where the first newline is, looking no further than `limit`, or `limit`. */
  function Newline(bytes: seq<Byte>, limit: nat): (n: nat)
    requires limit <= |bytes|
    ensures n <= limit && (n < limit ==> bytes[n] == NEWLINE) && forall i :: 0 <= i < n ==> bytes[i] != NEWLINE
    decreases limit
  {
    if limit == 0 || bytes[0] == NEWLINE then 0 else 1 + Newline(bytes[1..], limit - 1)
  }

  class Ring {
    var bytes: seq<Byte>
    var dropped: nat
    const capacity: nat

    /** Everything the session has written. */
    ghost var pushed: seq<Byte>

    ghost predicate Valid()
      reads this
    {
      dropped <= |pushed| && bytes == pushed[dropped..] && |bytes| <= capacity
    }

    constructor (capacity: nat)
      ensures Valid() && pushed == [] && this.capacity == capacity
    {
      this.capacity := capacity;
      bytes, dropped, pushed := [], 0, [];
    }

    /** Append, and forget the oldest: what is kept is the end of what was written, whole while it fits. */
    method Push(chunk: seq<Byte>)
      requires Valid()
      modifies this
      ensures Valid() && pushed == old(pushed) + chunk && old(dropped) <= dropped
      ensures |old(bytes) + chunk| <= capacity ==> dropped == old(dropped)
      ensures |old(bytes) + chunk| > capacity ==>
        var cut := (old(bytes) + chunk)[|old(bytes) + chunk| - capacity..];
        var scan := Min(8192, |cut|);
        var n := Newline(cut, scan);
        bytes == if n < scan then cut[n + 1..] else cut
    {
      SuffixMore(pushed, dropped, chunk);
      bytes := bytes + chunk;
      pushed := pushed + chunk;
      if |bytes| <= capacity {
        return;
      }
      DiscardFront(|bytes| - capacity);
      assert bytes == (old(bytes) + chunk)[|old(bytes) + chunk| - capacity..];
      var scan := Min(ALIGN_SCAN_LIMIT, |bytes|);
      var n := Newline(bytes, scan);
      if n < scan {
        DiscardFront(n + 1);
      }
    }

    method DiscardFront(count: nat)
      requires count <= |bytes| && dropped + |bytes| == |pushed| && bytes == pushed[dropped..]
      modifies this`bytes, this`dropped
      ensures dropped == old(dropped) + count && bytes == old(bytes)[count..]
      ensures dropped + |bytes| == |pushed| && bytes == pushed[dropped..]
    {
      SliceOfSlice(pushed, dropped, |pushed|, count, |bytes|);
      bytes := bytes[count..];
      dropped := dropped + count;
    }
  }

  lemma SuffixMore<T>(s: seq<T>, n: nat, more: seq<T>)
    requires n <= |s|
    ensures (s + more)[n..] == s[n..] + more
  {
  }
}
