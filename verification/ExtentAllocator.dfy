/**
  The bump allocator under the sample's heap (samples/knative/rust/helloworld-rust/src/allocator.rs).
  All sizes and addresses are 64-bit words that wrap around. Nothing is ever given back: the hook that frees
  extents opts out, so a run is a sequence of allocations.
 */
module ExtentAllocator {
  import opened Words

  lemma Monotone(al: nat, a: nat, b: nat)
    requires a <= b
    ensures al * a <= al * b
  {
  }

  lemma NextMultiple(x: nat, y: nat, al: nat)
    requires al >= 1 && x % al != 0 && y >= x && y % al == 0
    ensures y >= (x / al + 1) * al
  {
    var q, k := x / al, y / al;
    assert x == q * al + x % al && y == k * al;
    if k <= q {
      Monotone(al, k, q);
    } else {
      Monotone(al, q + 1, k);
    }
  }

  lemma LeastMultiple(x: nat, al: nat)
    requires al >= 1 && x % al != 0
    ensures (x + (al - x % al)) % al == 0
    ensures forall y: nat :: y >= x && y % al == 0 ==> y >= x + (al - x % al)
  {
    var q := x / al;
    assert x == al * q + x % al;
    assert x + (al - x % al) == (q + 1) * al;
    QuotientIs(x + (al - x % al), q + 1, 0, al);
    forall y: nat | y >= x && y % al == 0
      ensures y >= (q + 1) * al
    {
      NextMultiple(x, y, al);
    }
  }

  /** The least multiple of `al` at or above `x`. */
  function AlignUp(x: nat, al: nat): (r: nat)
    requires al >= 1
    ensures r % al == 0 && x <= r < x + al
    ensures forall y: nat :: y >= x && y % al == 0 ==> y >= r
  {
    if x % al == 0 then x
    else
      LeastMultiple(x, al);
      x + (al - x % al)
  }

  /** The new heap top and the address returned; None is the null pointer. */
  function AllocStep(top: nat, end: nat, size: nat, al: nat): (nat, Option<nat>)
    requires al >= 1
  {
    var ret := AlignUp(top, al) % TWO_64;
    if (ret + size) % TWO_64 >= end then (top, None) else ((ret + size) % TWO_64, Some(ret))
  }

  /** The request, seen without wrap-around, ends below 2^64. */
  predicate NoWrap(top: nat, size: nat, al: nat)
    requires al >= 1
  {
    AlignUp(top, al) + size < TWO_64
  }

  /**
    A granted extent lies between the old heap top and the end of the heap exactly when the request does not
    wrap around; it then sits at the least aligned address and the heap top moves right behind it.
   */
  lemma GrantIsSafe(top: nat, end: nat, size: nat, al: nat)
    requires al >= 1 && al < TWO_64 && size < TWO_64 && top <= end < TWO_64
    requires AllocStep(top, end, size, al).1.Some?
    ensures var (top', r) := AllocStep(top, end, size, al);
            && (top <= r.value && r.value + size <= end <==> NoWrap(top, size, al))
            && (NoWrap(top, size, al) ==>
                  r.value == AlignUp(top, al) && r.value % al == 0 && top' == r.value + size && top' < end)
  {
  }

  lemma SmallWord(x: nat)
    requires x < TWO_64
    ensures x % TWO_64 == x
  {
  }

  /** A request that does not wrap is refused exactly when it does not end strictly below the end of the heap. */
  lemma RefusedExactly(top: nat, end: nat, size: nat, al: nat)
    requires al >= 1 && NoWrap(top, size, al)
    ensures AllocStep(top, end, size, al).1.None? <==> AlignUp(top, al) + size >= end
    ensures AllocStep(top, end, size, al).1.None? ==> AllocStep(top, end, size, al).0 == top
  {
    SmallWord(AlignUp(top, al));
    SmallWord(AlignUp(top, al) + size);
  }

  /** One wrapping request is granted below the heap and takes the heap top back. */
  lemma WrapIsUnsafe()
    ensures var (top', r) := AllocStep(0x2000, 0x3000, 0xffff_ffff_ffff_f000, 0x1000);
            r == Some(0x2000) && top' == 0x1000
  {
  }

  class AllocatorMaster {
    var startAddr: nat
    var endAddr: nat
    var heapTop: nat

    constructor Init(memAddr: nat, memSize: nat)
      ensures startAddr == heapTop == memAddr && endAddr == (memAddr + memSize) % TWO_64
    {
      startAddr, heapTop, endAddr := memAddr, memAddr, (memAddr + memSize) % TWO_64;
    }

    /** `extent_alloc_hook`. */
    method ExtentAlloc(size: nat, alignment: nat) returns (r: Option<nat>)
      requires alignment >= 1
      modifies this`heapTop
      ensures (heapTop, r) == AllocStep(old(heapTop), endAddr, size, alignment)
    {
      var ret := heapTop;
      if ret % alignment != 0 {
        ret := ret + (alignment - ret % alignment);
      }
      ret := ret % TWO_64;
      if (ret + size) % TWO_64 >= endAddr {
        return None;
      }
      heapTop := (ret + size) % TWO_64;
      return Some(ret);
    }
  }

  // ---------------------------------------------------------------------------
  // Runs
  // ---------------------------------------------------------------------------

  datatype RawRequest = Request(size: nat, al: nat)

  /** A size and a non-zero alignment, each a 64-bit word. */
  type Request = q: RawRequest | 1 <= q.al < TWO_64 && q.size < TWO_64 witness RawRequest.Request(0, 1)

  /** The heap top after these requests. */
  function Top(start: nat, end: nat, qs: seq<Request>): nat
  {
    if qs == [] then start
    else AllocStep(Top(start, end, qs[..|qs| - 1]), end, qs[|qs| - 1].size, qs[|qs| - 1].al).0
  }

  /** The answer to request i. */
  function Granted(start: nat, end: nat, qs: seq<Request>, i: nat): Option<nat>
    requires i < |qs|
  {
    AllocStep(Top(start, end, qs[..i]), end, qs[i].size, qs[i].al).1
  }

  /** No request of the run wraps around. */
  predicate NoWrapRun(start: nat, end: nat, qs: seq<Request>)
  {
    forall i :: 0 <= i < |qs| ==> NoWrap(Top(start, end, qs[..i]), qs[i].size, qs[i].al)
  }

  /** What the granted requests may use up: their sizes and the room to align them. */
  function Budget(start: nat, end: nat, qs: seq<Request>): nat
  {
    if qs == [] then 0
    else
      var n := |qs| - 1;
      assert qs[..n + 1] == qs;
      Budget(start, end, qs[..n]) + if Granted(start, end, qs, n).Some? then qs[n].size + qs[n].al - 1 else 0
  }

  lemma PrefixRun(start: nat, end: nat, qs: seq<Request>, n: nat)
    requires n <= |qs|
    requires NoWrapRun(start, end, qs)
    ensures NoWrapRun(start, end, qs[..n])
  {
    forall i | 0 <= i < n
      ensures NoWrap(Top(start, end, qs[..n][..i]), qs[..n][i].size, qs[..n][i].al)
    {
      assert qs[..n][..i] == qs[..i];
    }
  }

  lemma {:induction false} TopBounds(start: nat, end: nat, qs: seq<Request>)
    requires start <= end < TWO_64
    requires NoWrapRun(start, end, qs)
    ensures start <= Top(start, end, qs) <= end
    ensures Top(start, end, qs) - start <= Budget(start, end, qs)
  {
    if qs != [] {
      var n := |qs| - 1;
      PrefixRun(start, end, qs, n);
      TopBounds(start, end, qs[..n]);
      assert NoWrap(Top(start, end, qs[..n]), qs[n].size, qs[n].al);
      if Granted(start, end, qs, n).Some? {
        GrantIsSafe(Top(start, end, qs[..n]), end, qs[n].size, qs[n].al);
      }
    }
  }

  lemma {:induction false} TopGrows(start: nat, end: nat, qs: seq<Request>, i: nat, j: nat)
    requires start <= end < TWO_64
    requires NoWrapRun(start, end, qs) && i <= j <= |qs|
    ensures Top(start, end, qs[..i]) <= Top(start, end, qs[..j])
  {
    if i < j {
      TopGrows(start, end, qs, i, j - 1);
      assert qs[..j][..j - 1] == qs[..j - 1];
      PrefixRun(start, end, qs, j - 1);
      TopBounds(start, end, qs[..j - 1]);
      assert NoWrap(Top(start, end, qs[..j - 1]), qs[j - 1].size, qs[j - 1].al);
      if Granted(start, end, qs, j - 1).Some? {
        GrantIsSafe(Top(start, end, qs[..j - 1]), end, qs[j - 1].size, qs[j - 1].al);
      }
    }
  }

  /** Every extent of a run without wrap-around is aligned, inside the heap, and at the least address it could take. */
  lemma GrantsAreInside(start: nat, end: nat, qs: seq<Request>, i: nat)
    requires start <= end < TWO_64
    requires NoWrapRun(start, end, qs) && i < |qs| && Granted(start, end, qs, i).Some?
    ensures var r := Granted(start, end, qs, i).value;
            && r % qs[i].al == 0 && start <= r && r + qs[i].size < end
            && r == AlignUp(Top(start, end, qs[..i]), qs[i].al)
            && Top(start, end, qs[..i + 1]) == r + qs[i].size
  {
    PrefixRun(start, end, qs, i);
    TopBounds(start, end, qs[..i]);
    GrantIsSafe(Top(start, end, qs[..i]), end, qs[i].size, qs[i].al);
    assert qs[..i + 1][..i] == qs[..i];
  }

  /** No two extents of a run overlap, whatever was freed in between. */
  lemma GrantsAreDisjoint(start: nat, end: nat, qs: seq<Request>, i: nat, j: nat)
    requires start <= end < TWO_64
    requires NoWrapRun(start, end, qs) && i < j < |qs|
    requires Granted(start, end, qs, i).Some? && Granted(start, end, qs, j).Some?
    ensures Granted(start, end, qs, i).value + qs[i].size <= Granted(start, end, qs, j).value
  {
    GrantsAreInside(start, end, qs, i);
    GrantsAreInside(start, end, qs, j);
    TopGrows(start, end, qs, i + 1, j);
  }
}
