/**
  The state one machine keeps, and what each system call does to it
  (dmerge/src/shadow_heap/mod.rs, dmerge/src/id_generator.rs, dmerge/src/core_syscall_handler.rs,
  dmerge/src/rpc_service.rs).
 */
module Kernel {
  import opened Words
  import opened Descriptor

  /** A registered heap: its serialised descriptor, and the buffer those bytes were written to. */
  datatype Bundle = Bundle(bytes: seq<Byte>, pa: nat)

  /** Id counter, registry, and the contents of the serialisation buffers by physical address. */
  datatype Node = Node(curId: nat, registry: map<nat, Bundle>, memory: map<nat, seq<Byte>>)

  datatype HeapData = HeapData(id: nat, descriptor: HeapDescriptor)

  /** The descriptors of these heaps, in the order they were pulled. */
  function Descriptors(heaps: seq<HeapData>): (d: seq<HeapDescriptor>)
    ensures |d| == |heaps|
    ensures forall k :: 0 <= k < |heaps| ==> d[k] == heaps[k].descriptor
  {
    seq(|heaps|, k requires 0 <= k < |heaps| => heaps[k].descriptor)
  }

  /** The hint of the one heap a file may register. */
  datatype PrivateHint = NoHint | Hint(id: nat)

  /** What one open file descriptor keeps. */
  datatype Caller = Caller(privateHint: PrivateHint, publicHeaps: seq<HeapData>)

  const FRESH_NODE := Node(0, map[], map[])
  const FRESH_CALLER := Caller(NoHint, [])

  // ---------------------------------------------------------------------------
  // Ids
  // ---------------------------------------------------------------------------

  /** The u64 counter after one more allocation. */
  function NextId(cur: nat): (id: nat)
    ensures cur + 1 < TWO_64 ==> id == cur + 1
  {
    (cur + 1) % TWO_64
  }

  /** The n-th id handed out by a fresh counter. */
  function NthId(n: nat): nat
  {
    if n == 0 then 0 else NextId(NthId(n - 1))
  }

  lemma NextRemainder(m: nat, d: nat)
    requires d >= 1
    ensures (m % d + 1) % d == (m + 1) % d
  {
    var q, r := m / d, m % d;
    assert m == q * d + r;
    if r + 1 < d {
      QuotientIs(r + 1, 0, r + 1, d);
      QuotientIs(m + 1, q, r + 1, d);
    } else {
      QuotientIs(d, 1, 0, d);
      assert (q + 1) * d == q * d + d;
      QuotientIs(m + 1, q + 1, 0, d);
    }
  }

  lemma {:induction false} NthIdValue(n: nat)
    ensures NthId(n) == n % TWO_64
  {
    if n != 0 {
      NthIdValue(n - 1);
      NextRemainder(n - 1, TWO_64);
    }
  }

  lemma Distribute(a: int, b: int, d: int)
    ensures (a - b) * d == a * d - b * d && (a + b) * d == a * d + b * d
  {
  }

  lemma DifferenceOf(i: nat, j: nat, qi: nat, qj: nat, r: nat, d: nat)
    requires i <= j && d >= 1 && i == qi * d + r && j == qj * d + r
    ensures (j - i) % d == 0
  {
    Distribute(qj, qi, d);
    if qj < qi {
      AtLeastOne(qi - qj, d);
      Distribute(qi, qj, d);
    }
    QuotientIs(j - i, qj - qi, 0, d);
  }

  lemma RemainderOf(i: nat, j: nat, qi: nat, t: nat, r: nat, d: nat)
    requires r < d && i == qi * d + r && j == i + t * d
    ensures j % d == r
  {
    Distribute(qi, t, d);
    QuotientIs(j, qi + t, r, d);
  }

  lemma SameRemainder(i: nat, j: nat, d: nat)
    requires i <= j && d >= 1
    ensures i % d == j % d <==> (j - i) % d == 0
  {
    if i % d == j % d {
      DifferenceOf(i, j, i / d, j / d, i % d, d);
    } else if (j - i) % d == 0 {
      RemainderOf(i, j, i / d, (j - i) / d, i % d, d);
    }
  }

  /** Two allocations hand out the same id exactly when a multiple of 2^64 allocations lies between them. */
  lemma IdsRepeat(i: nat, j: nat)
    requires i <= j
    ensures NthId(i) == NthId(j) <==> (j - i) % 0x1_0000_0000_0000_0000 == 0
  {
    NthIdValue(i);
    NthIdValue(j);
    SameRemainder(i, j, TWO_64);
  }

  /** A hint leaves the kernel as a C int. */
  function SignedHint(id: nat): int
  {
    var low := id % TWO_32;
    if low < TWO_32 / 2 then low else low - TWO_32
  }

  const MAX_ERRNO := 4095

  /** The system-call boundary reports the topmost negative results as errors, for which `call_register` gives -1. */
  function CallRegisterResult(id: nat): int
  {
    if -MAX_ERRNO <= SignedHint(id) < 0 then -1 else SignedHint(id)
  }

  /** A C caller that sees no error hands the hint back as an unsigned int. */
  function HintFromC(id: nat): (r: Option<nat>)
    ensures r.Some? ==> r.value < TWO_32
  {
    if CallRegisterResult(id) == -1 then None else Some(CallRegisterResult(id) % TWO_32)
  }

  /** A Python caller hands it back through a binding that refuses negative numbers. */
  function HintFromPython(id: nat): (r: Option<nat>)
    ensures r.Some? ==> r.value < TWO_32 / 2
  {
    if CallRegisterResult(id) < 0 then None else Some(CallRegisterResult(id))
  }

  lemma LowHalf(low: nat)
    requires low < TWO_32
    ensures (low - TWO_32) % TWO_32 == low
  {
  }

  /**
    A pull asks for the id that registration issued exactly below 2^32 - 4095 from C and below 2^31 from Python;
    when C gets a hint for a larger id, it is the hint of another, earlier id.
   */
  lemma HintSurvivesUserSpace(id: nat)
    ensures HintFromC(id) == Some(id) <==> id < 0x1_0000_0000 - 4095
    ensures HintFromPython(id) == Some(id) <==> id < 0x8000_0000
    ensures HintFromC(id).None? <==> id % TWO_32 >= TWO_32 - MAX_ERRNO
    ensures HintFromC(id).Some? ==> HintFromC(id).value == id % TWO_32
    ensures HintFromC(id).Some? ==> if id < TWO_32 then HintFromC(id).value == id else HintFromC(id).value < id
  {
    LowHalf(id % TWO_32);
  }

  // ---------------------------------------------------------------------------
  // Registry
  // ---------------------------------------------------------------------------

  /** Writes the bytes to the buffer at `pa` and files the bundle under `key`. */
  function FileHeap(n: Node, key: nat, bytes: seq<Byte>, pa: nat): Node
  {
    n.(registry := n.registry[key := Bundle(bytes, pa)], memory := n.memory[pa := bytes])
  }

  function Unregister(n: Node, key: nat): Node
  {
    n.(registry := n.registry - {key})
  }

  /** The pool hands out only buffers that no registered heap sits in. */
  ghost predicate FreeBuffer(n: Node, pa: nat)
  {
    forall h :: h in n.registry ==> n.registry[h].pa != pa
  }

  // ---------------------------------------------------------------------------
  // System calls and RPC handlers
  // ---------------------------------------------------------------------------

  /** ioctl 0. */
  function Register(n: Node, c: Caller, bytes: seq<Byte>, pa: nat): (r: (Node, Caller, nat))
  {
    match c.privateHint
    case Hint(hint) => (n, c, hint)
    case NoHint =>
      var id := NextId(n.curId);
      (FileHeap(n.(curId := id), id, bytes, pa), c.(privateHint := Hint(id)), id)
  }

  /** ioctl 5 up to its RPC: a temporary hint is filed. */
  function PushBegin(n: Node, bytes: seq<Byte>, pa: nat): (r: (Node, nat))
  {
    var id := NextId(n.curId);
    (FileHeap(n.(curId := id), id, bytes, pa), id)
  }

  /** ioctl 5 after its RPC: only the successful exit unregisters. */
  function PushEnd(n: Node, tmp: nat, ok: bool): Node
  {
    if ok then Unregister(n, tmp) else n
  }

  /** Closing the file. */
  function Drop(n: Node, c: Caller): Node
  {
    match c.privateHint
    case Hint(hint) => Unregister(n, hint)
    case NoHint => n
  }

  datatype QueryReply = QueryReply(pa: nat, sz: nat, ready: bool)

  /** `handle_query`: an unknown key is answered with zero bytes, so the reply cannot be decoded. */
  function HandleQuery(n: Node, key: nat): Option<QueryReply>
  {
    if key in n.registry then Some(QueryReply(n.registry[key].pa, |n.registry[key].bytes|, true)) else None
  }

  /** A one-sided READ takes whatever the buffer holds at that moment. */
  function ReadBuffer(n: Node, pa: nat, sz: nat): seq<Byte>
  {
    if pa in n.memory && sz <= |n.memory[pa]| then n.memory[pa][..sz] else []
  }

  /** The end of a pull: a decoded heap with usable access info is appended, anything else changes nothing. */
  function Deliver(l: Layout, c: Caller, hint: nat, bytes: seq<Byte>, access: bool): (r: Caller)
    requires l.Valid()
    ensures r.privateHint == c.privateHint
  {
    match Decode(l, bytes)
    case Some(h) => if access then c.(publicHeaps := c.publicHeaps + [HeapData(hint, h)]) else c
    case None => c
  }
}
