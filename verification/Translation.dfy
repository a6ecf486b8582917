/** A pulled heap translates addresses the way the producer's page tables do. */
module Translation {
  import opened Words
  import opened Descriptor
  import opened ShadowHeap

  ghost predicate InChain(chain: seq<Vma>, va: nat)
  {
    exists i :: 0 <= i < |chain| && chain[i].Contains(va)
  }

  /** What the producer's process sees at `va` through the VMAs it shares. */
  ghost function ProducerTranslate(chain: seq<Vma>, frames: Frames, va: nat): Option<nat>
  {
    if InChain(chain, va) && va / 4096 in frames && frames[va / 4096] > 0
    then Some(frames[va / 4096]) else None
  }

  predicate PageAligned(v: Vma) {
    v.start % PAGE == 0 && v.end % PAGE == 0
  }

  /** A process address space: sorted disjoint page-aligned VMAs below 2^64, and u64 frames. */
  ghost predicate AddressSpace(l: Layout, vmas: seq<Vma>, frames: Frames)
  {
    && SortedDisjoint(vmas)
    && (forall i :: 0 <= i < |vmas| ==> PageAligned(vmas[i]) && FitsVma(l, vmas[i]))
    && (forall p :: p in frames ==> frames[p] < TWO_64)
  }

  /** The address lies in a present page of this VMA, 4 GiB or more above its start. */
  predicate FarAt(v: Vma, frames: Frames, va: nat) {
    v.Contains(va) && va / 4096 in frames && frames[va / 4096] > 0 && va - v.start >= 0x1_0000_0000
  }

  /** No present page of a shared VMA lies 4 GiB or more above the start of that VMA. */
  ghost predicate NoFarPage(chain: seq<Vma>, frames: Frames)
  {
    forall i, va: nat :: 0 <= i < |chain| ==> !FarAt(chain[i], frames, va)
  }

  ghost predicate Agrees(h: HeapDescriptor, chain: seq<Vma>, frames: Frames)
  {
    forall va: nat :: Lookup(h, va) == ProducerTranslate(chain, frames, va)
  }

  // ---------------------------------------------------------------------------
  // One VMA
  // ---------------------------------------------------------------------------

  function Get(pt: PageTable, page: nat): Option<nat>
  {
    if page in pt then Some(pt[page]) else None
  }

  lemma NextPage(addr: nat, va: nat)
    requires addr % PAGE == 0
    ensures addr <= va < addr + PAGE <==> va / PAGE == addr / PAGE
    ensures addr + PAGE <= va <==> addr / PAGE < va / PAGE
  {
  }

  /** The address that a walked page is mapped at by the reader. */
  function MappedAt(v: Vma, addr: nat): nat
    requires v.start <= addr
  {
    ((addr - v.start) % TWO_32 + v.start) % TWO_64
  }

  lemma MappedAtBounds(v: Vma, addr: nat)
    requires PageAligned(v) && v.start <= addr < v.end < TWO_64 && addr % PAGE == 0
    ensures MappedAt(v, addr) == (addr - v.start) % TWO_32 + v.start
    ensures v.start <= MappedAt(v, addr) <= addr
    ensures MappedAt(v, addr) - v.start < TWO_32
    ensures addr - v.start < TWO_32 ==> MappedAt(v, addr) == addr
  {
    assert (addr - v.start) % TWO_32 <= addr - v.start;
  }

  /** The table after one page of the walk has been read back. */
  function WalkPage(v: Vma, addr: nat, frames: Frames, pt: PageTable): PageTable
    requires v.start <= addr
  {
    if FrameAt(frames, addr) > 0 then MapPage(pt, MappedAt(v, addr), FrameAt(frames, addr)) else pt
  }

  lemma WalkStep(v: Vma, addr: nat, frames: Frames, pt: PageTable)
    requires v.start <= addr < v.end
    ensures MapEntries(pt, v.start, Walk(v, addr, frames))
            == MapEntries(WalkPage(v, addr, frames, pt), v.start, Walk(v, addr + PAGE, frames))
  {
    if FrameAt(frames, addr) > 0 {
      assert Walk(v, addr, frames)[1..] == Walk(v, addr + PAGE, frames);
    }
  }

  lemma Untouched(v: Vma, at: nat, va: nat)
    requires PageAligned(v) && v.Contains(at) && at - v.start < TWO_32
    requires !v.Contains(va) || va - v.start >= TWO_32
    ensures at / PAGE != va / PAGE
  {
  }

  lemma PageLeavesAlone(v: Vma, addr: nat, frames: Frames, pt: PageTable, va: nat)
    requires PageAligned(v) && v.start <= addr < v.end < TWO_64 && addr % PAGE == 0
    requires !v.Contains(va) || va - v.start >= TWO_32
    ensures Get(WalkPage(v, addr, frames, pt), va / PAGE) == Get(pt, va / PAGE)
  {
    MappedAtBounds(v, addr);
    Untouched(v, MappedAt(v, addr), va);
  }

  /** Pages outside the VMA, and pages 4 GiB or more into it, are never written. */
  lemma {:induction false} WalkLeavesAlone(v: Vma, addr: nat, frames: Frames, pt: PageTable, va: nat)
    requires PageAligned(v) && v.start <= addr && v.end < TWO_64 && addr % PAGE == 0
    requires !v.Contains(va) || va - v.start >= TWO_32
    ensures Get(MapEntries(pt, v.start, Walk(v, addr, frames)), va / PAGE) == Get(pt, va / PAGE)
    decreases v.end - addr
  {
    if addr < v.end {
      PageLeavesAlone(v, addr, frames, pt, va);
      WalkStep(v, addr, frames, pt);
      WalkLeavesAlone(v, addr + PAGE, frames, WalkPage(v, addr, frames, pt), va);
    }
  }

  /** A present near page is mapped at its own address. */
  lemma PageMaps(v: Vma, addr: nat, frames: Frames, pt: PageTable, va: nat)
    requires PageAligned(v) && v.start <= addr < v.end < TWO_64 && addr % PAGE == 0
    requires FrameAt(frames, addr) > 0 ==> addr - v.start < TWO_32
    ensures Get(WalkPage(v, addr, frames, pt), va / PAGE)
            == if addr <= va < addr + PAGE && FrameAt(frames, va) > 0 then Some(FrameAt(frames, va)) else Get(pt, va / PAGE)
  {
    NextPage(addr, va);
    MappedAtBounds(v, addr);
  }

  lemma EndsOnPage(v: Vma, addr: nat, va: nat)
    requires PageAligned(v) && addr % PAGE == 0 && addr < v.end
    ensures va / PAGE == addr / PAGE ==> va < v.end
  {
    assert v.end == PAGE * (v.end / PAGE);
    NextPage(addr, v.end);
  }

  /** When every present page is near, the walk maps exactly the present pages from `addr` on. */
  lemma {:induction false} WalkMaps(v: Vma, addr: nat, frames: Frames, pt: PageTable, va: nat)
    requires PageAligned(v) && v.start <= addr && v.end < TWO_64 && addr % PAGE == 0
    requires forall a: nat :: v.Contains(a) && FrameAt(frames, a) > 0 ==> a - v.start < TWO_32
    ensures Get(MapEntries(pt, v.start, Walk(v, addr, frames)), va / PAGE)
            == if addr <= va < v.end && FrameAt(frames, va) > 0 then Some(FrameAt(frames, va)) else Get(pt, va / PAGE)
    decreases v.end - addr
  {
    if addr < v.end {
      assert v.Contains(addr);
      PageMaps(v, addr, frames, pt, va);
      WalkStep(v, addr, frames, pt);
      WalkMaps(v, addr + PAGE, frames, WalkPage(v, addr, frames, pt), va);
      NextPage(addr, va);
      EndsOnPage(v, addr, va);
    }
  }

  // ---------------------------------------------------------------------------
  // The whole chain
  // ---------------------------------------------------------------------------

  ghost predicate ChainOk(chain: seq<Vma>)
  {
    SortedDisjoint(chain) && forall i :: 0 <= i < |chain| ==> PageAligned(chain[i]) && chain[i].end < TWO_64
  }

  /** The first VMA of a chain is mapped, then the rest. */
  lemma ChainStep(chain: seq<Vma>, frames: Frames, pt: PageTable)
    requires chain != []
    ensures MapTables(pt, chain, WalkAll(chain, frames))
            == MapTables(MapEntries(pt, chain[0].start, Walk(chain[0], chain[0].start, frames)), chain[1..],
                         WalkAll(chain[1..], frames))
  {
    assert WalkAll(chain, frames)[1..] == WalkAll(chain[1..], frames);
  }

  lemma ChainRest(chain: seq<Vma>)
    requires ChainOk(chain) && chain != []
    ensures ChainOk(chain[1..])
  {
  }

  lemma {:induction false} ChainLeavesAlone(chain: seq<Vma>, frames: Frames, pt: PageTable, va: nat)
    requires ChainOk(chain)
    requires forall i :: 0 <= i < |chain| ==> !chain[i].Contains(va) || va - chain[i].start >= TWO_32
    ensures Get(MapTables(pt, chain, WalkAll(chain, frames)), va / PAGE) == Get(pt, va / PAGE)
    decreases |chain|
  {
    if chain != [] {
      WalkLeavesAlone(chain[0], chain[0].start, frames, pt, va);
      var pt' := MapEntries(pt, chain[0].start, Walk(chain[0], chain[0].start, frames));
      ChainStep(chain, frames, pt);
      ChainRest(chain);
      ChainLeavesAlone(chain[1..], frames, pt', va);
    }
  }

  lemma InChainSplits(chain: seq<Vma>, va: nat)
    requires chain != []
    ensures InChain(chain, va) <==> chain[0].Contains(va) || InChain(chain[1..], va)
  {
    var rest := chain[1..];
    if InChain(chain, va) && !chain[0].Contains(va) {
      var i :| 0 <= i < |chain| && chain[i].Contains(va);
      assert rest[i - 1].Contains(va);
    }
    if j :| 0 <= j < |rest| && rest[j].Contains(va) {
      assert chain[j + 1].Contains(va);
    }
  }

  lemma NearRest(chain: seq<Vma>, frames: Frames)
    requires NoFarPage(chain, frames) && chain != []
    ensures NoFarPage(chain[1..], frames)
    ensures forall a: nat :: chain[0].Contains(a) && FrameAt(frames, a) > 0 ==> a - chain[0].start < TWO_32
  {
    forall i, va: nat | 0 <= i < |chain[1..]|
      ensures !FarAt(chain[1..][i], frames, va)
    {
      assert !FarAt(chain[i + 1], frames, va);
    }
    forall a: nat | chain[0].Contains(a) && FrameAt(frames, a) > 0
      ensures a - chain[0].start < TWO_32
    {
      assert !FarAt(chain[0], frames, a);
    }
  }

  lemma {:induction false} ChainMaps(chain: seq<Vma>, frames: Frames, pt: PageTable, va: nat)
    requires ChainOk(chain) && NoFarPage(chain, frames)
    ensures Get(MapTables(pt, chain, WalkAll(chain, frames)), va / PAGE)
            == if InChain(chain, va) && FrameAt(frames, va) > 0 then Some(FrameAt(frames, va)) else Get(pt, va / PAGE)
    decreases |chain|
  {
    if chain != [] {
      var v, rest := chain[0], chain[1..];
      NearRest(chain, frames);
      WalkMaps(v, v.start, frames, pt, va);
      var pt' := MapEntries(pt, v.start, Walk(v, v.start, frames));
      ChainStep(chain, frames, pt);
      ChainRest(chain);
      ChainMaps(rest, frames, pt', va);
      InChainSplits(chain, va);
    }
  }

  // ---------------------------------------------------------------------------
  // Registration produces a descriptor that fits the layout
  // ---------------------------------------------------------------------------

  lemma {:induction false} ChainIsSubsequence(vmas: seq<Vma>, next: nat)
    ensures forall v :: v in Chain(vmas, next) ==> v in vmas
    decreases |vmas|
  {
    if vmas != [] {
      ChainIsSubsequence(vmas[1..], if vmas[0].Contains(next) then vmas[0].end else next);
    }
  }

  lemma SliceIsSorted(vmas: seq<Vma>, i: nat, j: nat)
    requires SortedDisjoint(vmas) && i <= j <= |vmas|
    ensures SortedDisjoint(vmas[i..j])
  {
  }

  lemma ChainIsSorted(vmas: seq<Vma>, base: nat)
    requires SortedDisjoint(vmas)
    ensures SortedDisjoint(Chain(vmas, base))
  {
    if i :| 0 <= i < |vmas| && vmas[i].Contains(base) {
      ChainIsMaximalRun(vmas, base, i);
      SliceIsSorted(vmas, i, RunEnd(vmas, i));
    } else {
      ChainIsEmpty(vmas, base);
    }
  }

  lemma {:induction false} WalkFits(v: Vma, addr: nat, frames: Frames)
    requires v.start <= addr && v.end < TWO_64 && forall p :: p in frames ==> frames[p] < TWO_64
    ensures forall k :: 0 <= k < |Walk(v, addr, frames)| ==> FitsEntry(Walk(v, addr, frames)[k])
    ensures addr < v.end ==> |Walk(v, addr, frames)| <= v.end - addr
    decreases v.end - addr
  {
    if addr < v.end {
      WalkFits(v, addr + PAGE, frames);
    }
  }

  lemma {:induction false} SortedIsShort(vmas: seq<Vma>)
    requires SortedDisjoint(vmas) && vmas != []
    ensures vmas[|vmas| - 1].end >= |vmas|
  {
    if |vmas| > 1 {
      SortedIsShort(vmas[..|vmas| - 1]);
    }
  }

  lemma ChainIsShort(vmas: seq<Vma>, base: nat)
    requires SortedDisjoint(vmas) && forall i :: 0 <= i < |vmas| ==> vmas[i].end < TWO_64
    ensures |Chain(vmas, base)| < TWO_64
  {
    if vmas != [] {
      SortedIsShort(vmas);
    }
  }

  lemma ShadowIsWellFormed(l: Layout, vmas: seq<Vma>, base: nat, frames: Frames, regs: seq<Byte>, rdma: seq<Byte>)
    requires AddressSpace(l, vmas, frames) && |regs| == l.regs && |rdma| == l.rdma
    ensures WellFormed(l, Shadow(vmas, base, frames, regs, rdma))
    ensures ChainOk(Chain(vmas, base))
  {
    var chain := Chain(vmas, base);
    ChainIsSubsequence(vmas, base);
    ChainIsSorted(vmas, base);
    ChainIsShort(vmas, base);
    forall k | 0 <= k < |chain|
      ensures FitsVma(l, chain[k]) && PageAligned(chain[k]) && FitsTable(Walk(chain[k], chain[k].start, frames))
    {
      assert chain[k] in vmas;
      WalkFits(chain[k], chain[k].start, frames);
    }
  }

  // ---------------------------------------------------------------------------
  // End to end
  // ---------------------------------------------------------------------------

  lemma AgreementNeedsNear(chain: seq<Vma>, frames: Frames, i: nat, va: nat)
    requires ChainOk(chain)
    requires i < |chain| && FarAt(chain[i], frames, va)
    ensures va / PAGE !in MapTables(map[], chain, WalkAll(chain, frames))
    ensures ProducerTranslate(chain, frames, va).Some?
  {
    forall j | 0 <= j < |chain| && j != i
      ensures !chain[j].Contains(va)
    {
      if j < i {
        assert chain[j].end <= chain[i].start;
      } else {
        assert chain[i].end <= chain[j].start;
      }
    }
    ChainLeavesAlone(chain, frames, map[], va);
  }

  lemma ExpandedTranslation(d: ParentDescriptor, frames: Frames)
    requires ChainOk(d.vma) && d.pageTable == WalkAll(d.vma, frames)
    ensures Agrees(Expand(d), d.vma, frames) <==> NoFarPage(d.vma, frames)
  {
    var h, chain := Expand(d), d.vma;
    if NoFarPage(chain, frames) {
      forall va: nat
        ensures Lookup(h, va) == ProducerTranslate(chain, frames, va)
      {
        ChainMaps(chain, frames, map[], va);
      }
    } else {
      var i, va: nat :| 0 <= i < |chain| && FarAt(chain[i], frames, va);
      AgreementNeedsNear(chain, frames, i, va);
      assert Lookup(h, va) != ProducerTranslate(chain, frames, va);
    }
  }

  /**
    The bytes a producer serves decode on the consumer to a heap whose lookups agree with the producer's
    page tables at every address, if and only if no present page is 4 GiB or more into its VMA.
   */
  lemma TranslationAgreement(l: Layout, vmas: seq<Vma>, base: nat, frames: Frames, regs: seq<Byte>, rdma: seq<Byte>)
    requires l.Valid() && AddressSpace(l, vmas, frames) && |regs| == l.regs && |rdma| == l.rdma
    ensures var chain := Chain(vmas, base);
            var got := Decode(l, Encode(Shadow(vmas, base, frames, regs, rdma)));
            && got.Some?
            && got.value.regs == regs && got.value.vma == chain && got.value.machineInfo == rdma
            && (Agrees(got.value, chain, frames) <==> NoFarPage(chain, frames))
  {
    var chain, d := Chain(vmas, base), Shadow(vmas, base, frames, regs, rdma);
    ShadowIsWellFormed(l, vmas, base, frames, regs, rdma);
    RoundTrip(l, d, []);
    ExpandedTranslation(d, frames);
  }

  /** A VMA chain is safe for whatever its pages hold exactly when each of its VMAs spans at most 2^32 bytes. */
  lemma SafeSpans(chain: seq<Vma>)
    requires ChainOk(chain)
    ensures (forall frames: Frames :: NoFarPage(chain, frames))
            <==> (forall i :: 0 <= i < |chain| ==> chain[i].end - chain[i].start <= TWO_32)
  {
    if i :| 0 <= i < |chain| && chain[i].end - chain[i].start > TWO_32 {
      var far := chain[i].start + TWO_32;
      var frames: Frames := map[far / PAGE := 1];
      assert FarAt(chain[i], frames, far);
      assert !NoFarPage(chain, frames);
    }
  }

  // ---------------------------------------------------------------------------
  // Page by page: what the consumer's table holds, in terms of the producer's frames alone
  // ---------------------------------------------------------------------------

  /** Page q of this VMA is present, and its offset, cut to 32 bits, is that of page p. */
  ghost predicate FiledUnder(v: Vma, frames: Frames, p: nat, q: nat)
  {
    && v.start <= 4096 * q < v.end
    && q in frames && frames[q] > 0
    && (4096 * q - v.start) % 0x1_0000_0000 == 4096 * p - v.start
  }

  /** A page of this VMA less than 4 GiB into it. */
  predicate NearPage(v: Vma, p: nat) {
    v.start <= 4096 * p < v.end && 4096 * p - v.start < 0x1_0000_0000
  }

  lemma PageOf(p: nat)
    ensures 4096 * p / PAGE == p && 4096 * p % PAGE == 0
  {
  }

  lemma AlignedIsPage(addr: nat)
    requires addr % PAGE == 0
    ensures addr == 4096 * (addr / 4096)
  {
  }

  lemma SameAlignedPage(v: Vma, at: nat, p: nat, q: nat)
    requires PageAligned(v) && v.start <= 4096 * q && at == (4096 * q - v.start) % 0x1_0000_0000 + v.start
    ensures at % PAGE == 0
    ensures at / PAGE == p <==> at == 4096 * p
  {
    var d, k := 4096 * q - v.start, v.start / 4096;
    assert v.start == 4096 * k && d == 4096 * (q - k);
    assert d % 0x1_0000_0000 == d - 0x1_0000_0000 * (d / 0x1_0000_0000);
    assert at == 4096 * (q - 1048576 * (d / 0x1_0000_0000));
  }

  /** One page of the walk is filed under p exactly if it is present and its offset is that of p. */
  lemma PageFiled(v: Vma, q: nat, frames: Frames, pt: PageTable, p: nat)
    requires PageAligned(v) && v.start <= 4096 * q < v.end < TWO_64 && NearPage(v, p)
    ensures Get(WalkPage(v, 4096 * q, frames, pt), p)
            == if FiledUnder(v, frames, p, q) then Some(frames[q]) else Get(pt, p)
  {
    PageOf(q);
    PageOf(p);
    MappedAtBounds(v, 4096 * q);
    SameAlignedPage(v, MappedAt(v, 4096 * q), p, q);
  }

  /** From q on, nothing more is filed under p. */
  ghost predicate NoneFrom(v: Vma, frames: Frames, p: nat, q: nat)
  {
    forall r: nat :: q <= r ==> !FiledUnder(v, frames, p, r)
  }

  lemma {:induction false} WalkFilesNothing(v: Vma, q: nat, frames: Frames, pt: PageTable, p: nat)
    requires PageAligned(v) && v.start <= 4096 * q && v.end < TWO_64 && NearPage(v, p) && NoneFrom(v, frames, p, q)
    ensures Get(MapEntries(pt, v.start, Walk(v, 4096 * q, frames)), p) == Get(pt, p)
    decreases v.end - 4096 * q
  {
    if 4096 * q < v.end {
      PageFiled(v, q, frames, pt, p);
      WalkStep(v, 4096 * q, frames, pt);
      WalkFilesNothing(v, q + 1, frames, WalkPage(v, 4096 * q, frames, pt), p);
    }
  }

  /** The last page filed under p wins. */
  lemma {:induction false} WalkFilesLast(v: Vma, q: nat, frames: Frames, pt: PageTable, p: nat, last: nat)
    requires PageAligned(v) && v.start <= 4096 * q && v.end < TWO_64 && NearPage(v, p)
    requires q <= last && FiledUnder(v, frames, p, last) && NoneFrom(v, frames, p, last + 1)
    ensures Get(MapEntries(pt, v.start, Walk(v, 4096 * q, frames)), p) == Some(frames[last])
    decreases last - q
  {
    PageFiled(v, q, frames, pt, p);
    WalkStep(v, 4096 * q, frames, pt);
    if q == last {
      WalkFilesNothing(v, q + 1, frames, WalkPage(v, 4096 * q, frames, pt), p);
    } else {
      WalkFilesLast(v, q + 1, frames, WalkPage(v, 4096 * q, frames, pt), p, last);
    }
  }

  lemma {:induction false} ChainLeavesPage(chain: seq<Vma>, frames: Frames, pt: PageTable, p: nat)
    requires ChainOk(chain) && forall i :: 0 <= i < |chain| ==> !NearPage(chain[i], p)
    ensures Get(MapTables(pt, chain, WalkAll(chain, frames)), p) == Get(pt, p)
  {
    PageOf(p);
    ChainLeavesAlone(chain, frames, pt, 4096 * p);
  }

  lemma OthersDoNotHold(chain: seq<Vma>, i: nat, p: nat)
    requires ChainOk(chain) && i < |chain| && NearPage(chain[i], p)
    ensures forall j :: 0 <= j < |chain| && j != i ==> !NearPage(chain[j], p)
  {
    forall j | 0 <= j < |chain| && j != i
      ensures !NearPage(chain[j], p)
    {
      if j < i {
        assert chain[j].end <= chain[i].start;
      } else {
        assert chain[i].end <= chain[j].start;
      }
    }
  }

  /** The last page filed under p, if any is. */
  ghost predicate LastOf(v: Vma, frames: Frames, p: nat, last: Option<nat>)
  {
    match last
    case Some(q) => FiledUnder(v, frames, p, q) && NoneFrom(v, frames, p, q + 1)
    case None => NoneFrom(v, frames, p, 0)
  }

  lemma FirstFiles(v: Vma, frames: Frames, pt: PageTable, p: nat, last: Option<nat>)
    requires PageAligned(v) && v.end < TWO_64 && NearPage(v, p)
    requires LastOf(v, frames, p, last)
    ensures Get(MapEntries(pt, v.start, Walk(v, v.start, frames)), p)
            == if last.Some? then Some(frames[last.value]) else Get(pt, p)
  {
    AlignedIsPage(v.start);
    if last.Some? {
      WalkFilesLast(v, v.start / 4096, frames, pt, p, last.value);
    } else {
      WalkFilesNothing(v, v.start / 4096, frames, pt, p);
    }
  }

  lemma HeadFiles(chain: seq<Vma>, frames: Frames, pt: PageTable, p: nat, last: Option<nat>)
    requires ChainOk(chain) && chain != [] && NearPage(chain[0], p) && LastOf(chain[0], frames, p, last)
    ensures Get(MapTables(pt, chain, WalkAll(chain, frames)), p)
            == if last.Some? then Some(frames[last.value]) else Get(pt, p)
  {
    var v := chain[0];
    ChainStep(chain, frames, pt);
    ChainRest(chain);
    OthersDoNotHold(chain, 0, p);
    FirstFiles(v, frames, pt, p, last);
    ChainLeavesPage(chain[1..], frames, MapEntries(pt, v.start, Walk(v, v.start, frames)), p);
  }

  /** A VMA in front of the one that holds p files nothing under it. */
  lemma HeadPasses(chain: seq<Vma>, frames: Frames, pt: PageTable, i: nat, p: nat)
    requires ChainOk(chain) && 0 < i < |chain| && NearPage(chain[i], p)
    ensures var next := MapEntries(pt, chain[0].start, Walk(chain[0], chain[0].start, frames));
            && Get(next, p) == Get(pt, p)
            && MapTables(pt, chain, WalkAll(chain, frames)) == MapTables(next, chain[1..], WalkAll(chain[1..], frames))
  {
    ChainStep(chain, frames, pt);
    OthersDoNotHold(chain, i, p);
    PageOf(p);
    WalkLeavesAlone(chain[0], chain[0].start, frames, pt, 4096 * p);
  }

  /** A near page of VMA i is looked up in what that VMA's walk files. */
  lemma {:induction false} ChainFiles(chain: seq<Vma>, frames: Frames, pt: PageTable, i: nat, p: nat, last: Option<nat>)
    requires ChainOk(chain) && i < |chain| && NearPage(chain[i], p)
    requires LastOf(chain[i], frames, p, last)
    ensures Get(MapTables(pt, chain, WalkAll(chain, frames)), p)
            == if last.Some? then Some(frames[last.value]) else Get(pt, p)
    decreases |chain|
  {
    if i == 0 {
      HeadFiles(chain, frames, pt, p, last);
    } else {
      HeadPasses(chain, frames, pt, i, p);
      ChainRest(chain);
      ChainFiles(chain[1..], frames, MapEntries(pt, chain[0].start, Walk(chain[0], chain[0].start, frames)), i - 1, p, last);
    }
  }

  /** The last page below `bound` that is filed under p. */
  lemma {:induction false} LastBelow(v: Vma, frames: Frames, p: nat, bound: nat) returns (last: Option<nat>)
    requires NoneFrom(v, frames, p, bound)
    ensures LastOf(v, frames, p, last)
  {
    if bound == 0 {
      last := None;
    } else if FiledUnder(v, frames, p, bound - 1) {
      last := Some(bound - 1);
    } else {
      assert NoneFrom(v, frames, p, bound - 1);
      last := LastBelow(v, frames, p, bound - 1);
    }
  }

  /** What the consumer's page table holds at p. */
  ghost predicate HoldsLastFiled(pt: PageTable, v: Vma, frames: Frames, p: nat)
  {
    && (p in pt <==> exists q: nat :: FiledUnder(v, frames, p, q))
    && (p in pt ==> exists q: nat :: FiledUnder(v, frames, p, q) && NoneFrom(v, frames, p, q + 1) && pt[p] == frames[q])
  }

  lemma HoldsIt(pt: PageTable, v: Vma, frames: Frames, p: nat, last: Option<nat>)
    requires LastOf(v, frames, p, last) && Get(pt, p) == if last.Some? then Some(frames[last.value]) else None
    ensures HoldsLastFiled(pt, v, frames, p)
  {
  }

  lemma TableHoldsLastFiled(chain: seq<Vma>, frames: Frames, i: nat, p: nat)
    requires ChainOk(chain) && i < |chain| && NearPage(chain[i], p)
    ensures HoldsLastFiled(MapTables(map[], chain, WalkAll(chain, frames)), chain[i], frames, p)
  {
    var last := LastBelow(chain[i], frames, p, chain[i].end);
    ChainFiles(chain, frames, map[], i, p, last);
    HoldsIt(MapTables(map[], chain, WalkAll(chain, frames)), chain[i], frames, p, last);
  }

  /** Every near page of a VMA of the chain holds what its VMA filed last; every other page holds nothing. */
  ghost predicate PageByPage(pt: PageTable, chain: seq<Vma>, frames: Frames, p: nat)
  {
    && (forall i :: 0 <= i < |chain| && NearPage(chain[i], p) ==> HoldsLastFiled(pt, chain[i], frames, p))
    && ((forall i :: 0 <= i < |chain| ==> !NearPage(chain[i], p)) ==> p !in pt)
  }

  lemma TablePageByPage(chain: seq<Vma>, frames: Frames, p: nat)
    requires ChainOk(chain)
    ensures PageByPage(MapTables(map[], chain, WalkAll(chain, frames)), chain, frames, p)
  {
    forall i | 0 <= i < |chain| && NearPage(chain[i], p)
      ensures HoldsLastFiled(MapTables(map[], chain, WalkAll(chain, frames)), chain[i], frames, p)
    {
      TableHoldsLastFiled(chain, frames, i, p);
    }
    if forall i :: 0 <= i < |chain| ==> !NearPage(chain[i], p) {
      ChainLeavesPage(chain, frames, map[], p);
    }
  }

  /** The page table that the consumer decodes from the registered bytes. */
  ghost function ConsumerTable(l: Layout, vmas: seq<Vma>, base: nat, frames: Frames, regs: seq<Byte>, rdma: seq<Byte>): PageTable
    requires l.Valid()
  {
    match Decode(l, Encode(Shadow(vmas, base, frames, regs, rdma)))
    case Some(h) => h.pageTable
    case None => map[]
  }

  lemma ConsumerTableIs(l: Layout, vmas: seq<Vma>, base: nat, frames: Frames, regs: seq<Byte>, rdma: seq<Byte>)
    requires l.Valid() && AddressSpace(l, vmas, frames) && |regs| == l.regs && |rdma| == l.rdma
    ensures var chain := Chain(vmas, base);
            && ChainOk(chain)
            && ConsumerTable(l, vmas, base, frames, regs, rdma) == MapTables(map[], chain, WalkAll(chain, frames))
  {
    ShadowIsWellFormed(l, vmas, base, frames, regs, rdma);
    RoundTrip(l, Shadow(vmas, base, frames, regs, rdma), []);
  }

  /**
    Page by page, for every content of the page tables: the consumer finds under a near page of a shared VMA
    the frame of the last present page of that VMA whose offset, cut to 32 bits, is the same, and nothing if
    there is none; outside the near pages of the shared VMAs it finds nothing.
   */
  lemma ConsumerPages(l: Layout, vmas: seq<Vma>, base: nat, frames: Frames, regs: seq<Byte>, rdma: seq<Byte>, p: nat)
    requires l.Valid() && AddressSpace(l, vmas, frames) && |regs| == l.regs && |rdma| == l.rdma
    ensures PageByPage(ConsumerTable(l, vmas, base, frames, regs, rdma), Chain(vmas, base), frames, p)
  {
    ConsumerTableIs(l, vmas, base, frames, regs, rdma);
    TablePageByPage(Chain(vmas, base), frames, p);
  }

  lemma SmallOffset(x: nat)
    requires x < 0x1_0000_0000
    ensures x % 0x1_0000_0000 == x
  {
  }

  /** No present page of this VMA lies 4 GiB or more into it. */
  ghost predicate PresentNear(v: Vma, frames: Frames)
  {
    forall q: nat :: v.start <= 4096 * q < v.end && q in frames && frames[q] > 0 ==> 4096 * q - v.start < 0x1_0000_0000
  }

  lemma FiledUnderItself(v: Vma, frames: Frames, p: nat)
    requires NearPage(v, p) && PresentNear(v, frames)
    ensures forall q: nat :: FiledUnder(v, frames, p, q) <==> q == p && p in frames && frames[p] > 0
  {
    SmallOffset(4096 * p - v.start);
    forall q: nat | FiledUnder(v, frames, p, q)
      ensures q == p
    {
      SmallOffset(4096 * q - v.start);
    }
  }

  lemma OwnFrame(pt: PageTable, v: Vma, frames: Frames, p: nat)
    requires NearPage(v, p) && PresentNear(v, frames) && HoldsLastFiled(pt, v, frames, p)
    ensures p in pt <==> p in frames && frames[p] > 0
    ensures p in pt ==> pt[p] == frames[p]
  {
    FiledUnderItself(v, frames, p);
    if p in frames && frames[p] > 0 {
      assert FiledUnder(v, frames, p, p);
    }
    if p in pt {
      var q: nat :| FiledUnder(v, frames, p, q) && NoneFrom(v, frames, p, q + 1) && pt[p] == frames[q];
      assert q == p;
    }
  }

  /** A VMA none of whose present pages is 4 GiB or more into it: the consumer has exactly its present pages, frame
      by frame. */
  lemma NearPagesArrive(l: Layout, vmas: seq<Vma>, base: nat, frames: Frames, regs: seq<Byte>, rdma: seq<Byte>,
                        i: nat, p: nat)
    requires l.Valid() && AddressSpace(l, vmas, frames) && |regs| == l.regs && |rdma| == l.rdma
    requires i < |Chain(vmas, base)|
    requires NearPage(Chain(vmas, base)[i], p) && PresentNear(Chain(vmas, base)[i], frames)
    ensures var pt := ConsumerTable(l, vmas, base, frames, regs, rdma);
            && (p in pt <==> p in frames && frames[p] > 0)
            && (p in pt ==> pt[p] == frames[p])
  {
    ConsumerPages(l, vmas, base, frames, regs, rdma, p);
    OwnFrame(ConsumerTable(l, vmas, base, frames, regs, rdma), Chain(vmas, base)[i], frames, p);
  }

  lemma LaterWins(v: Vma, frames: Frames, p: nat, q: nat, r: nat)
    requires NoneFrom(v, frames, p, q + 1) && FiledUnder(v, frames, p, r)
    ensures r <= q
  {
  }

  /** Otherwise a far page may take a near one's place: here page 2^20 is found under page 0. */
  lemma FarPageTakesPlace(l: Layout, regs: seq<Byte>, rdma: seq<Byte>, rest: seq<Byte>)
    requires l.Valid() && |regs| == l.regs && |rdma| == l.rdma && |rest| == l.vma - 16
    ensures var v := Vma(0, 0x1_0000_0000 + 4096, rest);
            var pt := ConsumerTable(l, [v], 0, map[0 := 5, 1048576 := 9], regs, rdma);
            0 in pt && pt[0] == 9
  {
    var v := Vma(0, 0x1_0000_0000 + 4096, rest);
    var frames: Frames := map[0 := 5, 1048576 := 9];
    assert [v][0] == v && v.Contains(0);
    assert Chain([v], 0) == [v] + Chain([], v.end);
    ConsumerPages(l, [v], 0, frames, regs, rdma, 0);
    var pt := ConsumerTable(l, [v], 0, frames, regs, rdma);
    assert Chain([v], 0)[0] == v && HoldsLastFiled(pt, v, frames, 0);
    assert FiledUnder(v, frames, 0, 1048576);
    var q: nat :| FiledUnder(v, frames, 0, q) && NoneFrom(v, frames, 0, q + 1) && pt[0] == frames[q];
    LaterWins(v, frames, 0, q, 1048576);
    assert q in {0, 1048576};
  }
}
