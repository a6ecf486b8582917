/**
  Registering a heap: choosing the chain of VMAs that starts at the heap base and walking their page
  tables into compact ones (dmerge/src/shadow_heap/heap.rs, dmerge/src/shadow_heap/vma.rs).
 */
module ShadowHeap {
  import opened Words
  import opened Descriptor

  /** The producer's present frames, keyed by virtual page number; a missing or zero frame is not present. */
  type Frames = map<nat, nat>

  function FrameAt(frames: Frames, va: nat): nat
  {
    if va / PAGE in frames then frames[va / PAGE] else 0
  }

  /** What the kernel's VMA iterator yields: non-empty ranges, sorted and disjoint. */
  ghost predicate SortedDisjoint(vmas: seq<Vma>)
  {
    && (forall i :: 0 <= i < |vmas| ==> vmas[i].start < vmas[i].end)
    && (forall i, j :: 0 <= i < j < |vmas| ==> vmas[i].end <= vmas[j].start)
  }

  // ---------------------------------------------------------------------------
  // VMA-chain selection
  // ---------------------------------------------------------------------------

  /** The chain picked by one pass over the VMAs when the next address looked for is `next`. */
  function Chain(vmas: seq<Vma>, next: nat): (c: seq<Vma>)
    ensures |c| <= |vmas|
    decreases |vmas|
  {
    if vmas == [] then []
    else if vmas[0].Contains(next) then [vmas[0]] + Chain(vmas[1..], vmas[0].end)
    else Chain(vmas[1..], next)
  }

  /** The end of the longest gap-free run that starts at index i. */
  function RunEnd(vmas: seq<Vma>, i: nat): (j: nat)
    requires i < |vmas|
    ensures i < j <= |vmas|
    ensures forall k :: i < k < j ==> vmas[k].start == vmas[k - 1].end
    ensures j < |vmas| ==> vmas[j].start != vmas[j - 1].end
    decreases |vmas| - i
  {
    if i + 1 < |vmas| && vmas[i + 1].start == vmas[i].end then RunEnd(vmas, i + 1) else i + 1
  }

  lemma {:induction false} NothingBelow(vmas: seq<Vma>, next: nat)
    requires forall k :: 0 <= k < |vmas| ==> !vmas[k].Contains(next)
    ensures Chain(vmas, next) == []
  {
    if vmas != [] {
      NothingBelow(vmas[1..], next);
    }
  }

  /** Skipping VMAs in front of the run does not change it. */
  lemma {:induction false} ChainSkips(vmas: seq<Vma>, next: nat, i: nat)
    requires i <= |vmas|
    requires forall k :: 0 <= k < i ==> !vmas[k].Contains(next)
    ensures Chain(vmas, next) == Chain(vmas[i..], next)
  {
    if i != 0 {
      ChainSkips(vmas[1..], next, i - 1);
      assert vmas[1..][i - 1..] == vmas[i..];
    } else {
      assert vmas[0..] == vmas;
    }
  }

  lemma {:induction false} ChainFollowsRun(vmas: seq<Vma>, next: nat, i: nat)
    requires SortedDisjoint(vmas) && i < |vmas| && vmas[i].Contains(next)
    ensures Chain(vmas[i..], next) == vmas[i..RunEnd(vmas, i)]
    decreases |vmas| - i
  {
    var j := RunEnd(vmas, i);
    assert vmas[i..][1..] == vmas[i + 1..];
    assert vmas[i..j] == [vmas[i]] + vmas[i + 1..j];
    if j == i + 1 {
      assert Chain(vmas[i + 1..], vmas[i].end) == [] by {
        NothingBelow(vmas[i + 1..], vmas[i].end);
      }
    } else {
      ChainFollowsRun(vmas, vmas[i].end, i + 1);
    }
  }

  /** Selection picks, from the VMA that holds the base, exactly the maximal gap-free run. */
  lemma ChainIsMaximalRun(vmas: seq<Vma>, base: nat, i: nat)
    requires SortedDisjoint(vmas) && i < |vmas| && vmas[i].Contains(base)
    ensures Chain(vmas, base) == vmas[i..RunEnd(vmas, i)]
  {
    ChainSkips(vmas, base, i);
    ChainFollowsRun(vmas, base, i);
  }

  lemma {:induction false} ChainStarts(vmas: seq<Vma>, base: nat, k: nat)
    requires k < |vmas| && vmas[k].Contains(base)
    ensures Chain(vmas, base) != []
  {
    if !vmas[0].Contains(base) {
      ChainStarts(vmas[1..], base, k - 1);
    }
  }

  /** It picks nothing exactly when no VMA holds the base. */
  lemma {:induction false} ChainIsEmpty(vmas: seq<Vma>, base: nat)
    ensures Chain(vmas, base) == [] <==> forall k :: 0 <= k < |vmas| ==> !vmas[k].Contains(base)
  {
    if k :| 0 <= k < |vmas| && vmas[k].Contains(base) {
      ChainStarts(vmas, base, k);
    } else {
      NothingBelow(vmas, base);
    }
  }

  // ---------------------------------------------------------------------------
  // Page-table generation
  // ---------------------------------------------------------------------------

  /** The entries appended while the walk goes from `addr` to the end of the VMA; the offset is cut to 32 bits. */
  function Walk(v: Vma, addr: nat, frames: Frames): seq<Entry>
    requires v.start <= addr
    decreases v.end - addr
  {
    if addr >= v.end then []
    else if FrameAt(frames, addr) > 0 then
      [Entry((addr - v.start) % TWO_32, FrameAt(frames, addr))] + Walk(v, addr + PAGE, frames)
    else Walk(v, addr + PAGE, frames)
  }

  function WalkAll(chain: seq<Vma>, frames: Frames): (tables: seq<seq<Entry>>)
    ensures |tables| == |chain|
    ensures forall k :: 0 <= k < |chain| ==> tables[k] == Walk(chain[k], chain[k].start, frames)
  {
    if chain == [] then []
    else [Walk(chain[0], chain[0].start, frames)] + WalkAll(chain[1..], frames)
  }

  /** The descriptor that registration files. */
  function Shadow(vmas: seq<Vma>, base: nat, frames: Frames, regs: seq<Byte>, rdma: seq<Byte>): (d: ParentDescriptor)
    ensures |d.vma| == |d.pageTable|
  {
    var chain := Chain(vmas, base);
    ParentDescriptor(regs, WalkAll(chain, frames), chain, rdma)
  }

  /** These pages of the VMA, in rising order, are the ones present, and the entries describe them. */
  ghost predicate Describes(table: seq<Entry>, pages: seq<nat>, v: Vma, frames: Frames, addr: nat)
  {
    && |pages| == |table|
    && (forall k :: 0 <= k < |pages| ==> addr <= 4096 * pages[k] < v.end)
    && (forall j, k :: 0 <= j < k < |pages| ==> pages[j] < pages[k])
    && (forall p :: p in pages <==> p in frames && frames[p] > 0 && addr <= 4096 * p < v.end)
    && (forall k :: 0 <= k < |pages| ==>
          pages[k] in frames && v.start <= 4096 * pages[k]
          && table[k] == Entry((4096 * pages[k] - v.start) % 0x1_0000_0000, frames[pages[k]]))
  }

  lemma OnePageLess(v: Vma, addr: nat, p: nat)
    requires addr % 4096 == 0
    ensures addr <= 4096 * p < v.end <==> (4096 * p == addr && addr < v.end) || addr + 4096 <= 4096 * p < v.end
    ensures 4096 * (addr / 4096) == addr
  {
  }

  /** One page in front of the pages described. */
  lemma DescribesOneMore(table: seq<Entry>, pages: seq<nat>, v: Vma, frames: Frames, addr: nat)
    requires v.start <= addr < v.end && addr % 4096 == 0 && Describes(table, pages, v, frames, addr + 4096)
    ensures var p := addr / 4096;
            if p in frames && frames[p] > 0
            then Describes([Entry((addr - v.start) % 0x1_0000_0000, frames[p])] + table, [p] + pages, v, frames, addr)
            else Describes(table, pages, v, frames, addr)
  {
    var here := addr / 4096;
    forall p
      ensures p in frames && frames[p] > 0 && addr <= 4096 * p < v.end
              <==> (p == here && p in frames && frames[p] > 0) || p in pages
    {
      if p in frames {
        OnePageLess(v, addr, p);
      }
    }
    forall k | 0 <= k < |pages|
      ensures here < pages[k]
    {
      assert pages[k] in pages;
      OnePageLess(v, addr, pages[k]);
    }
  }

  lemma NothingDescribed(v: Vma, addr: nat, frames: Frames)
    requires addr >= v.end
    ensures Describes([], [], v, frames, addr)
  {
  }

  lemma WalkOnePage(v: Vma, addr: nat, frames: Frames)
    requires v.start <= addr < v.end
    ensures var p, rest := addr / 4096, Walk(v, addr + 4096, frames);
            Walk(v, addr, frames)
            == if p in frames && frames[p] > 0 then [Entry((addr - v.start) % 0x1_0000_0000, frames[p])] + rest else rest
  {
  }

  /** The walk's entries are the present pages of the VMA, in order, with their frames. */
  lemma {:induction false} WalkDescribes(v: Vma, addr: nat, frames: Frames) returns (pages: seq<nat>)
    requires v.start <= addr && addr % 4096 == 0
    ensures Describes(Walk(v, addr, frames), pages, v, frames, addr)
    decreases v.end - addr
  {
    if addr >= v.end {
      pages := [];
      NothingDescribed(v, addr, frames);
    } else {
      pages := WalkDescribes(v, addr + 4096, frames);
      DescribesOneMore(Walk(v, addr + 4096, frames), pages, v, frames, addr);
      WalkOnePage(v, addr, frames);
      if addr / 4096 in frames && frames[addr / 4096] > 0 {
        pages := [addr / 4096] + pages;
      }
    }
  }

  /** `VMAPTGenerator::generate`: the walk calls back once per page and appends the present ones. */
  method GenerateTable(v: Vma, frames: Frames) returns (table: seq<Entry>, ghost pages: seq<nat>)
    ensures table == Walk(v, v.start, frames)
    ensures v.start % 4096 == 0 ==> Describes(table, pages, v, frames, v.start)
  {
    table, pages := [], [];
    var addr := v.start;
    while addr < v.end
      invariant v.start <= addr
      invariant Walk(v, v.start, frames) == table + Walk(v, addr, frames)
    {
      var phys := FrameAt(frames, addr);
      if phys > 0 {
        table := table + [Entry((addr - v.start) % TWO_32, phys)];
      }
      addr := addr + PAGE;
    }
    if v.start % 4096 == 0 {
      pages := WalkDescribes(v, v.start, frames);
    }
  }

  /** `ShadowHeap::new`: one loop selects VMAs and pushes empty tables, a second one fills the tables by index. */
  method NewShadowHeap(vmas: seq<Vma>, base: nat, frames: Frames, regs: seq<Byte>, rdma: seq<Byte>)
    returns (d: ParentDescriptor)
    ensures d == Shadow(vmas, base, frames, regs, rdma)
  {
    var heapStart: nat := base;
    var vmaDescriptors: seq<Vma>, vmaPageTable: seq<seq<Entry>> := [], [];
    for i := 0 to |vmas|
      invariant |vmaDescriptors| == |vmaPageTable|
      invariant Chain(vmas, base) == vmaDescriptors + Chain(vmas[i..], heapStart)
    {
      assert vmas[i..][1..] == vmas[i + 1..];
      var v := vmas[i];
      if !(v.start <= heapStart < v.end) {
        continue;
      }
      vmaDescriptors := vmaDescriptors + [v];
      vmaPageTable := vmaPageTable + [[]];
      heapStart := v.end;
    }
    assert vmaDescriptors == Chain(vmas, base);
    for idx := 0 to |vmaDescriptors|
      invariant |vmaPageTable| == |vmaDescriptors|
      invariant forall k :: 0 <= k < idx ==> vmaPageTable[k] == Walk(vmaDescriptors[k], vmaDescriptors[k].start, frames)
    {
      var table, _ := GenerateTable(vmaDescriptors[idx], frames);
      vmaPageTable := vmaPageTable[idx := table];
    }
    assert vmaPageTable == WalkAll(vmaDescriptors, frames);
    d := ParentDescriptor(regs, vmaPageTable, vmaDescriptors, rdma);
  }
}
