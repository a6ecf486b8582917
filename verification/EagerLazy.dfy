/**
  Eager and lazy pulls compared on a well-behaved network, and the pages an eager pull loses
  (dmerge/src/descriptors/heap.rs).
 */
module EagerLazy {
  import opened Words
  import opened Descriptor
  import opened RemotePaging
  import opened BatchRead
  import opened EagerFetch

  // ---------------------------------------------------------------------------
  // One batch on a well-behaved network
  // ---------------------------------------------------------------------------

  function MappedPages(d: HeapDescriptor, addrs: seq<nat>): set<nat>
  {
    set i | 0 <= i < |addrs| && Lookup(d, addrs[i]).Some? :: addrs[i] / PAGE
  }

  predicate LastMapped(d: HeapDescriptor, addrs: seq<nat>) {
    addrs != [] && Lookup(d, addrs[|addrs| - 1]).Some?
  }

  /** The data the READs of these pages deliver. */
  function DataOf(d: HeapDescriptor, pages: set<nat>, remote: RemoteMemory): map<nat, Data>
  {
    map q | q in pages && q in d.pageTable :: RemoteData(d, q, remote)
  }

  /** New pages come in with their READs under way; all READs under way arrive exactly if the last address is mapped. */
  function WellFetch(d: HeapDescriptor, addrs: seq<nat>, remote: RemoteMemory, m: Memory): Memory
  {
    var added := MappedPages(d, addrs) - m.live.Keys;
    var live, flying := WithPages(m.live, added), m.queue.open + DataOf(d, added, remote);
    if LastMapped(d, addrs) then Memory(Completed(live, flying), IDLE) else Memory(live, SendQueue([], flying))
  }

  lemma WellSlots(d: HeapDescriptor, addrs: seq<nat>, a: BatchAnswer, remote: RemoteMemory, q: SendQueue)
    requires BatchWell(a, |addrs|) && q.groups == []
    ensures var w := WantAll(d, addrs, remote);
            && Signals(w, a) == Confirmed(w, a, q) == LastMapped(d, addrs)
            && PagesAt(addrs, FilledSlots(w, Confirmed(w, a, q))) == MappedPages(d, addrs)
  {
    var w := WantAll(d, addrs, remote);
    var slots := FilledSlots(w, Confirmed(w, a, q));
    forall i | 0 <= i < |addrs|
      ensures i in slots <==> Lookup(d, addrs[i]).Some?
    {
      assert w[i] == Want(d, addrs[i], remote);
    }
  }

  lemma WellRequests(d: HeapDescriptor, addrs: seq<nat>, a: BatchAnswer, added: set<nat>, remote: RemoteMemory)
    requires BatchWell(a, |addrs|) && added <= MappedPages(d, addrs)
    ensures Requests(d, addrs, added, a.posted, remote) == DataOf(d, added, remote)
  {
    forall q | q in added
      ensures q in PagesAt(addrs, a.posted)
    {
      var i :| 0 <= i < |addrs| && Lookup(d, addrs[i]).Some? && addrs[i] / PAGE == q;
      assert i in a.posted;
    }
  }

  lemma WellAfter(m: Memory, added: set<nat>, requests: map<nat, Data>, awaited: bool)
    requires m.queue.groups == []
    ensures var live, flying := WithPages(m.live, added), m.queue.open + requests;
            AfterBatch(m, added, requests, awaited, awaited)
            == if awaited then Memory(Completed(live, flying), IDLE) else Memory(live, SendQueue([], flying))
  {
    var queue := WithPosts(m.queue, requests, awaited);
    if awaited {
      assert queue.groups == [m.queue.open + requests] && queue.groups[1..] == [];
    }
  }

  lemma WellStep(d: HeapDescriptor, addrs: seq<nat>, a: BatchAnswer, remote: RemoteMemory, s: Fetched)
    requires BatchWell(a, |addrs|) && s.seen.queue.groups == []
    ensures FetchStep(d, addrs, a, remote, s)
            == Fetched(WellFetch(d, addrs, remote, s.seen), s.leaked + |MappedPages(d, addrs) * s.seen.live.Keys|)
  {
    var added := MappedPages(d, addrs) - s.seen.live.Keys;
    WellSlots(d, addrs, a, remote, s.seen.queue);
    WellRequests(d, addrs, a, added, remote);
    WellAfter(s.seen, added, DataOf(d, added, remote), LastMapped(d, addrs));
  }

  // ---------------------------------------------------------------------------
  // One VMA
  // ---------------------------------------------------------------------------

  ghost predicate EachWell(answers: seq<BatchAnswer>) {
    forall k :: 0 <= k < |answers| ==> BatchWell(answers[k], BATCH)
  }

  lemma WellTwice(d: HeapDescriptor, addrs: seq<nat>, remote: RemoteMemory, m: Memory)
    requires m.queue.groups == []
    ensures var once := WellFetch(d, addrs, remote, m);
            && once.queue.groups == []
            && MappedPages(d, addrs) <= once.live.Keys
            && WellFetch(d, addrs, remote, once) == once
  {
    var once := WellFetch(d, addrs, remote, m);
    assert MappedPages(d, addrs) - once.live.Keys == {};
    assert DataOf(d, {}, remote) == map[];
    assert WithPages(once.live, {}) == once.live;
    assert once.queue.open + map[] == once.queue.open;
    assert Completed(once.live, map[]) == once.live;
  }

  /** n times x. */
  function Times(n: nat, x: nat): nat
  {
    if n == 0 then 0 else Times(n - 1, x) + x
  }

  lemma OnceMoreLoses(d: HeapDescriptor, addrs: seq<nat>, a: BatchAnswer, remote: RemoteMemory, m: Memory, once: Fetched)
    requires BatchWell(a, |addrs|) && m.queue.groups == [] && once.seen == WellFetch(d, addrs, remote, m)
    ensures FetchStep(d, addrs, a, remote, once) == Fetched(once.seen, once.leaked + |MappedPages(d, addrs)|)
  {
    WellTwice(d, addrs, remote, m);
    WellStep(d, addrs, a, remote, once);
    assert MappedPages(d, addrs) * once.seen.live.Keys == MappedPages(d, addrs);
  }

  /** What n readings of the same addresses have done: brought what one does, and lost all pages of the later ones. */
  ghost predicate ReadTimes(d: HeapDescriptor, addrs: seq<nat>, remote: RemoteMemory, s: Fetched, t: Fetched, n: nat)
    requires n >= 1
  {
    && t.seen == WellFetch(d, addrs, remote, s.seen)
    && t.leaked == s.leaked + |MappedPages(d, addrs) * s.seen.live.Keys| + Times(n - 1, |MappedPages(d, addrs)|)
  }

  lemma ReadFirst(d: HeapDescriptor, addrs: seq<nat>, a: BatchAnswer, remote: RemoteMemory, s: Fetched, t: Fetched)
    requires BatchWell(a, |addrs|) && s.seen.queue.groups == [] && t == FetchStep(d, addrs, a, remote, s)
    ensures ReadTimes(d, addrs, remote, s, t, 1)
  {
    WellStep(d, addrs, a, remote, s);
  }

  lemma ReadNext(d: HeapDescriptor, addrs: seq<nat>, a: BatchAnswer, remote: RemoteMemory, s: Fetched, before: Fetched,
                 t: Fetched, n: nat)
    requires BatchWell(a, |addrs|) && s.seen.queue.groups == [] && t == FetchStep(d, addrs, a, remote, before)
    requires n >= 1 && ReadTimes(d, addrs, remote, s, before, n)
    ensures ReadTimes(d, addrs, remote, s, t, n + 1)
  {
    OnceMoreLoses(d, addrs, a, remote, s.seen, before);
  }

  lemma LastReading(d: HeapDescriptor, addrs: seq<nat>, answers: seq<BatchAnswer>, remote: RemoteMemory, s: Fetched)
    requires answers != []
    ensures var n := |answers| - 1;
            FetchAgain(d, addrs, answers, remote, s)
            == FetchStep(d, addrs, answers[n], remote, if n == 0 then s else FetchAgain(d, addrs, answers[..n], remote, s))
  {
  }

  /** Reading the same addresses n times brings what reading them once does, and loses all pages of the later readings. */
  lemma {:induction false} WellAgain(d: HeapDescriptor, addrs: seq<nat>, answers: seq<BatchAnswer>,
                                     remote: RemoteMemory, s: Fetched)
    requires EachWell(answers) && |addrs| <= BATCH && s.seen.queue.groups == [] && answers != []
    ensures ReadTimes(d, addrs, remote, s, FetchAgain(d, addrs, answers, remote, s), |answers|)
    decreases |answers|
  {
    var n, t := |answers| - 1, FetchAgain(d, addrs, answers, remote, s);
    LastReading(d, addrs, answers, remote, s);
    if n == 0 {
      ReadFirst(d, addrs, answers[0], remote, s, t);
    } else {
      WellAgain(d, addrs, answers[..n], remote, s);
      ReadNext(d, addrs, answers[n], remote, s, FetchAgain(d, addrs, answers[..n], remote, s), t, n);
    }
  }

  lemma EmptyPrefix(d: HeapDescriptor, v: Vma, remote: RemoteMemory, m: Memory)
    requires PageCount(v) == 0 && m.queue.groups == []
    ensures MappedPages(d, Prefix(v)) == {} && !LastMapped(d, Prefix(v))
    ensures WellFetch(d, Prefix(v), remote, m) == m
  {
    assert DataOf(d, {}, remote) == map[];
    assert WithPages(m.live, {}) == m.live;
    assert m.queue.open + map[] == m.queue.open;
  }

  /** A well-behaved prefetch of a VMA, as far as its process can see, is a single reading of its prefix. */
  lemma WellVma(d: HeapDescriptor, v: Vma, answers: seq<BatchAnswer>, remote: RemoteMemory, s: Fetched)
    requires EachWell(answers) && |answers| == BatchCount(v) && s.seen.queue.groups == []
    ensures FetchAgain(d, Prefix(v), answers, remote, s).seen == WellFetch(d, Prefix(v), remote, s.seen)
  {
    if PageCount(v) == 0 {
      EmptyPrefix(d, v, remote, s.seen);
    } else {
      WellAgain(d, Prefix(v), answers, remote, s);
    }
  }

  lemma {:induction false} TimesZero(n: nat, x: nat)
    ensures Times(n, x) == 0 <==> n == 0 || x == 0
  {
    if n != 0 {
      TimesZero(n - 1, x);
    }
  }

  lemma LostNone(n: nat, all: nat, there: nat)
    requires n >= 1 && there <= all
    ensures there + Times(n - 1, all) == Times(n, all) - (all - there)
    ensures there + Times(n - 1, all) == 0 <==> all == 0 || (n == 1 && there == 0)
  {
    TimesZero(n - 1, all);
  }

  lemma LeakInTimes(d: HeapDescriptor, v: Vma, answers: seq<BatchAnswer>, remote: RemoteMemory, s: Fetched)
    requires EachWell(answers) && |answers| == BatchCount(v) && s.seen.queue.groups == []
    ensures var pages := MappedPages(d, Prefix(v));
            FetchAgain(d, Prefix(v), answers, remote, s).leaked
            == s.leaked + if PageCount(v) == 0 then 0 else |pages * s.seen.live.Keys| + Times(BatchCount(v) - 1, |pages|)
    ensures PageCount(v) == 0 ==> MappedPages(d, Prefix(v)) == {}
  {
    if PageCount(v) == 0 {
      EmptyPrefix(d, v, remote, s.seen);
    } else {
      WellAgain(d, Prefix(v), answers, remote, s);
    }
  }

  /**
    What a fully successful prefetch of one VMA loses: the pages of all its readings but those inserted. It
    loses none exactly when nothing of the prefix is mapped, or the VMA has fewer than twelve pages and none of
    those read was there before.
   */
  lemma PrefetchLeak(d: HeapDescriptor, v: Vma, answers: seq<BatchAnswer>, remote: RemoteMemory, s: Fetched)
    requires EachWell(answers) && |answers| == BatchCount(v) && s.seen.queue.groups == []
    ensures var t, pages := FetchAgain(d, Prefix(v), answers, remote, s), MappedPages(d, Prefix(v));
            && t.leaked == s.leaked + Times(BatchCount(v), |pages|) - |pages - s.seen.live.Keys|
            && (t.leaked == s.leaked <==> pages == {} || (PageCount(v) < BATCH && pages !! s.seen.live.Keys))
  {
    var pages, there := MappedPages(d, Prefix(v)), s.seen.live.Keys;
    LeakInTimes(d, v, answers, remote, s);
    SizeOfParts(pages, there);
    if PageCount(v) != 0 {
      LostNone(BatchCount(v), |pages|, |pages * there|);
    }
  }

  // ---------------------------------------------------------------------------
  // One VMA prefetched into an empty address space, in numbers
  // ---------------------------------------------------------------------------

  /** The VMA has n pages. */
  predicate HasPages(v: Vma, n: nat) {
    if n == 0 then v.end <= v.start else v.start + 4096 * (n - 1) < v.end <= v.start + 4096 * n
  }

  lemma CountsOf(v: Vma, n: nat)
    requires HasPages(v, n)
    ensures PageCount(v) == n
    ensures BatchCount(v) == if n >= 12 then n - 10 else if n >= 1 then 1 else 0
    ensures |Prefix(v)| == if n >= 12 then 12 else n
    ensures forall i :: 0 <= i < |Prefix(v)| ==> Prefix(v)[i] == v.start + 4096 * i
  {
    if n >= 1 {
      PageCountBound(v, n - 1);
      PageCountBound(v, n);
    }
  }

  lemma PageAfter(start: nat, i: nat)
    ensures (start + 4096 * i) / 4096 == start / 4096 + i
  {
  }

  /** The pages of the prefix, by number. */
  lemma PrefixPages(d: HeapDescriptor, v: Vma, n: nat, i: nat)
    requires HasPages(v, n)
    ensures v.start / 4096 + i in MappedPages(d, Prefix(v))
            <==> i < 12 && v.start + 4096 * i < v.end && v.start / 4096 + i in d.pageTable
  {
    CountsOf(v, n);
    PageAfter(v.start, i);
    PageCountBound(v, i);
    if v.start / 4096 + i in MappedPages(d, Prefix(v)) {
      var j :| 0 <= j < |Prefix(v)| && Lookup(d, Prefix(v)[j]).Some? && Prefix(v)[j] / PAGE == v.start / 4096 + i;
      PageAfter(v.start, j);
    }
    if i < |Prefix(v)| && v.start / 4096 + i in d.pageTable {
      assert Lookup(d, Prefix(v)[i]).Some?;
    }
  }

  lemma NoPageBelow(d: HeapDescriptor, v: Vma, n: nat, q: nat)
    requires HasPages(v, n) && q in MappedPages(d, Prefix(v))
    ensures q >= v.start / 4096
  {
    CountsOf(v, n);
    var j :| 0 <= j < |Prefix(v)| && Lookup(d, Prefix(v)[j]).Some? && Prefix(v)[j] / PAGE == q;
    PageAfter(v.start, j);
  }

  /** The number of the last page that a prefetch asks for. */
  function LastAsked(v: Vma, n: nat): nat
    requires n >= 1
  {
    v.start / 4096 + if n >= 12 then 11 else n - 1
  }

  lemma LastAskedMapped(d: HeapDescriptor, v: Vma, n: nat)
    requires HasPages(v, n) && n >= 1
    ensures LastMapped(d, Prefix(v)) <==> LastAsked(v, n) in d.pageTable
  {
    CountsOf(v, n);
    PageAfter(v.start, |Prefix(v)| - 1);
  }

  const EMPTY := Memory(map[], IDLE)

  lemma FreshFetch(d: HeapDescriptor, v: Vma, n: nat, remote: RemoteMemory)
    requires HasPages(v, n)
    ensures var t, pages := WellFetch(d, Prefix(v), remote, EMPTY), MappedPages(d, Prefix(v));
            && t.live.Keys == pages
            && (forall q :: q in pages ==>
                  && n >= 1 && q in d.pageTable
                  && t.live[q] == if LastAsked(v, n) in d.pageTable then Filled(remote(d.machineInfo, d.pageTable[q])) else Unfilled)
  {
    CountsOf(v, n);
    if n >= 1 {
      LastAskedMapped(d, v, n);
    }
    var pages := MappedPages(d, Prefix(v));
    assert pages - EMPTY.live.Keys == pages;
    forall q | q in pages
      ensures n >= 1 && q in d.pageTable
    {
      var j :| 0 <= j < |Prefix(v)| && Lookup(d, Prefix(v)[j]).Some? && Prefix(v)[j] / PAGE == q;
    }
  }

  lemma FreshReadings(d: HeapDescriptor, v: Vma, n: nat, answers: seq<BatchAnswer>, remote: RemoteMemory)
    requires HasPages(v, n) && EachWell(answers) && |answers| == BatchCount(v)
    ensures var t := FetchAgain(d, Prefix(v), answers, remote, Fetched(EMPTY, 0));
            && t.seen == WellFetch(d, Prefix(v), remote, EMPTY)
            && t.leaked == if n >= 12 then Times(n - 11, |t.seen.live|) else 0
  {
    CountsOf(v, n);
    WellVma(d, v, answers, remote, Fetched(EMPTY, 0));
    FreshFetch(d, v, n, remote);
    var t := FetchAgain(d, Prefix(v), answers, remote, Fetched(EMPTY, 0));
    assert |t.seen.live| == |t.seen.live.Keys|;
    if n >= 1 {
      WellAgain(d, Prefix(v), answers, remote, Fetched(EMPTY, 0));
      assert MappedPages(d, Prefix(v)) * {} == {};
    }
  }

  lemma AllWell12(answers: seq<BatchAnswer>)
    requires forall k :: 0 <= k < |answers| ==> answers[k].waitOk && forall i :: 0 <= i < 12 ==> i in answers[k].posted
    ensures EachWell(answers)
  {
  }

  lemma NothingYet(space: AddressSpace, pool: PagePool)
    requires space.ptes == map[] && pool.live == map[] && pool.queue == IDLE
    ensures FetchedOf(space.ptes, pool.State()) == Fetched(EMPTY, 0)
  {
    assert Unreferenced(space.ptes, pool.live) == {};
    assert QueueOf(space.ptes, IDLE) == IDLE;
  }

  lemma SeenInNumbers(d: HeapDescriptor, v: Vma, n: nat, remote: RemoteMemory, ptes: map<nat, nat>, m: Memory)
    requires HasPages(v, n) && Backed(ptes, m.live)
    requires ViewOf(ptes, m.live) == WellFetch(d, Prefix(v), remote, EMPTY).live
    ensures |ptes| == |WellFetch(d, Prefix(v), remote, EMPTY).live|
    ensures forall i: nat :: v.start / 4096 + i in ptes
                             <==> i < 12 && v.start + 4096 * i < v.end && v.start / 4096 + i in d.pageTable
    ensures forall q :: q in ptes ==>
              && v.start / 4096 <= q && n >= 1 && q in d.pageTable && ptes[q] in m.live
              && m.live[ptes[q]]
                 == if LastAsked(v, n) in d.pageTable then Filled(remote(d.machineInfo, d.pageTable[q])) else Unfilled
  {
    var seen := ViewOf(ptes, m.live);
    FreshFetch(d, v, n, remote);
    assert seen.Keys == ptes.Keys;
    assert |seen| == |seen.Keys| && |ptes| == |ptes.Keys|;
    forall i: nat
      ensures v.start / 4096 + i in ptes
              <==> i < 12 && v.start + 4096 * i < v.end && v.start / 4096 + i in d.pageTable
    {
      PrefixPages(d, v, n, i);
      assert v.start / 4096 + i in ptes.Keys <==> v.start / 4096 + i in seen.Keys;
    }
    forall q | q in ptes
      ensures v.start / 4096 <= q && seen[q] == m.live[ptes[q]] && q in MappedPages(d, Prefix(v))
    {
      assert q in seen.Keys;
      NoPageBelow(d, v, n, q);
    }
  }

  /**
    A well-behaved prefetch of a VMA of n pages into an empty address space: its first twelve pages, as far as
    they are mapped, become visible and no others; they hold the remote frames exactly if the last of those
    twelve (or fewer) is mapped; the buffer is read n - 10 times for twelve pages or more and once for fewer,
    and every reading but the first leaves its pages behind.
   */
  method PrefetchFresh(d: HeapDescriptor, v: Vma, ghost n: nat, answers: seq<BatchAnswer>, remote: RemoteMemory)
    returns (pool: PagePool, space: AddressSpace)
    requires HasPages(v, n)
    requires |answers| == if n >= 12 then n - 10 else if n >= 1 then 1 else 0
    requires forall k :: 0 <= k < |answers| ==> answers[k].waitOk && forall i :: 0 <= i < 12 ==> i in answers[k].posted
    ensures forall i: nat :: v.start / 4096 + i in space.ptes
                             <==> i < 12 && v.start + 4096 * i < v.end && v.start / 4096 + i in d.pageTable
    ensures forall q :: q in space.ptes ==>
              && v.start / 4096 <= q && n >= 1 && q in d.pageTable && space.ptes[q] in pool.live
              && pool.live[space.ptes[q]]
                 == if LastAsked(v, n) in d.pageTable then Filled(remote(d.machineInfo, d.pageTable[q])) else Unfilled
    ensures |Unreferenced(space.ptes, pool.live)| == if n >= 12 then Times(n - 11, |space.ptes|) else 0
  {
    pool := new PagePool();
    space := new AddressSpace();
    NothingYet(space, pool);
    CountsOf(v, n);
    AllWell12(answers);
    EagerFetchVma(d, v, answers, remote, pool, space);
    FreshReadings(d, v, n, answers, remote);
    FreshFetch(d, v, n, remote);
    SeenInNumbers(d, v, n, remote, space.ptes, pool.State());
  }

  // ---------------------------------------------------------------------------
  // The whole heap
  // ---------------------------------------------------------------------------

  /** Requests under way concern visible pages without content. */
  ghost predicate Consistent(m: Memory)
  {
    m.queue.groups == [] && forall q :: q in m.queue.open ==> q in m.live && m.live[q].Unfilled?
  }

  ghost predicate Settled(m: Memory, q: nat, c: Content)
  {
    q in m.live && m.live[q] == c && q !in m.queue.open
  }

  ghost predicate Flies(m: Memory, q: nat, data: Data)
  {
    q in m.live && m.live[q] == Unfilled && q in m.queue.open && m.queue.open[q] == data
  }

  ghost predicate Absent(m: Memory, q: nat)
  {
    q !in m.live && q !in m.queue.open
  }

  lemma FetchConsistent(d: HeapDescriptor, addrs: seq<nat>, remote: RemoteMemory, m: Memory)
    requires Consistent(m)
    ensures Consistent(WellFetch(d, addrs, remote, m))
  {
  }

  lemma FetchKeepsSettled(d: HeapDescriptor, addrs: seq<nat>, remote: RemoteMemory, m: Memory, q: nat, c: Content)
    requires Settled(m, q, c)
    ensures Settled(WellFetch(d, addrs, remote, m), q, c)
  {
  }

  lemma FetchOfFlying(d: HeapDescriptor, addrs: seq<nat>, remote: RemoteMemory, m: Memory, q: nat, x: Data)
    requires Flies(m, q, x)
    ensures var t := WellFetch(d, addrs, remote, m);
            if LastMapped(d, addrs) then Settled(t, q, Filled(x)) else Flies(t, q, x)
  {
  }

  lemma FetchOfAbsent(d: HeapDescriptor, addrs: seq<nat>, remote: RemoteMemory, m: Memory, q: nat)
    requires Absent(m, q)
    ensures var t := WellFetch(d, addrs, remote, m);
            if q !in MappedPages(d, addrs) then Absent(t, q)
            else
              && q in d.pageTable
              && if LastMapped(d, addrs) then Settled(t, q, Filled(RemoteData(d, q, remote)))
                 else Flies(t, q, RemoteData(d, q, remote))
  {
  }

  /** What the first k VMAs make visible. */
  function WellHeap(d: HeapDescriptor, mapped: seq<bool>, k: nat, remote: RemoteMemory, m: Memory): Memory
    requires k <= |d.vma| == |mapped|
  {
    if k == 0 then m
    else
      var before := WellHeap(d, mapped, k - 1, remote, m);
      if mapped[k - 1] then WellFetch(d, Prefix(d.vma[k - 1]), remote, before) else before
  }

  /** All batches of all VMAs meet a well-behaved network. */
  ghost predicate NetworkWell(answers: seq<seq<BatchAnswer>>)
  {
    forall i :: 0 <= i < |answers| ==> EachWell(answers[i])
  }

  lemma {:induction false} StaysConsistent(d: HeapDescriptor, mapped: seq<bool>, k: nat, remote: RemoteMemory, m: Memory)
    requires k <= |d.vma| == |mapped| && Consistent(m)
    ensures Consistent(WellHeap(d, mapped, k, remote, m))
  {
    if k != 0 {
      StaysConsistent(d, mapped, k - 1, remote, m);
      FetchConsistent(d, Prefix(d.vma[k - 1]), remote, WellHeap(d, mapped, k - 1, remote, m));
    }
  }

  lemma {:induction false} HeapIsWell(d: HeapDescriptor, mapped: seq<bool>, answers: seq<seq<BatchAnswer>>, k: nat,
                                      remote: RemoteMemory, s: Fetched)
    requires k <= |d.vma| && Outcomes(d, mapped, answers) && NetworkWell(answers) && Consistent(s.seen)
    ensures FetchHeap(d, mapped, answers, k, remote, s).seen == WellHeap(d, mapped, k, remote, s.seen)
  {
    if k != 0 {
      HeapIsWell(d, mapped, answers, k - 1, remote, s);
      StaysConsistent(d, mapped, k - 1, remote, s.seen);
      WellVma(d, d.vma[k - 1], answers[k - 1], remote, FetchHeap(d, mapped, answers, k - 1, remote, s));
    }
  }

  // ---------------------------------------------------------------------------
  // One page through the whole heap
  // ---------------------------------------------------------------------------

  /** Some VMA from i on, below k, is mapped and its batches are awaited. */
  ghost predicate Confirms(d: HeapDescriptor, mapped: seq<bool>, i: nat, k: nat)
    requires k <= |d.vma| == |mapped|
  {
    exists j :: i <= j < k && mapped[j] && LastMapped(d, Prefix(d.vma[j]))
  }

  lemma ConfirmsMore(d: HeapDescriptor, mapped: seq<bool>, i: nat, k: nat)
    requires i <= k < |d.vma| == |mapped|
    ensures Confirms(d, mapped, i, k + 1) <==> Confirms(d, mapped, i, k) || (mapped[k] && LastMapped(d, Prefix(d.vma[k])))
  {
  }

  lemma {:induction false} SettledStays(d: HeapDescriptor, mapped: seq<bool>, i: nat, k: nat,
                                        remote: RemoteMemory, m: Memory, q: nat, c: Content)
    requires i <= k <= |d.vma| == |mapped|
    requires Settled(WellHeap(d, mapped, i, remote, m), q, c)
    ensures Settled(WellHeap(d, mapped, k, remote, m), q, c)
  {
    if i < k {
      SettledStays(d, mapped, i, k - 1, remote, m, q, c);
      FetchKeepsSettled(d, Prefix(d.vma[k - 1]), remote, WellHeap(d, mapped, k - 1, remote, m), q, c);
    }
  }

  /** A READ under way arrives with the next awaited batch, whichever VMA that belongs to. */
  lemma {:induction false} FliesOn(d: HeapDescriptor, mapped: seq<bool>, i: nat, k: nat,
                                   remote: RemoteMemory, m: Memory, q: nat, x: Data)
    requires i <= k <= |d.vma| == |mapped|
    requires Flies(WellHeap(d, mapped, i, remote, m), q, x)
    ensures var t := WellHeap(d, mapped, k, remote, m);
            if Confirms(d, mapped, i, k) then Settled(t, q, Filled(x)) else Flies(t, q, x)
  {
    if i < k {
      FliesOn(d, mapped, i, k - 1, remote, m, q, x);
      ConfirmsMore(d, mapped, i, k - 1);
      if Confirms(d, mapped, i, k - 1) {
        FetchKeepsSettled(d, Prefix(d.vma[k - 1]), remote, WellHeap(d, mapped, k - 1, remote, m), q, Filled(x));
      } else {
        FetchOfFlying(d, Prefix(d.vma[k - 1]), remote, WellHeap(d, mapped, k - 1, remote, m), q, x);
      }
    }
  }

  lemma {:induction false} AbsentStays(d: HeapDescriptor, mapped: seq<bool>, k: nat, remote: RemoteMemory,
                                       m: Memory, q: nat)
    requires k <= |d.vma| == |mapped| && Absent(m, q)
    requires forall j :: 0 <= j < k && mapped[j] ==> q !in MappedPages(d, Prefix(d.vma[j]))
    ensures Absent(WellHeap(d, mapped, k, remote, m), q)
  {
    if k != 0 {
      AbsentStays(d, mapped, k - 1, remote, m, q);
      FetchOfAbsent(d, Prefix(d.vma[k - 1]), remote, WellHeap(d, mapped, k - 1, remote, m), q);
    }
  }

  /** The VMAs of a registered heap: aligned, sorted, disjoint. */
  ghost predicate ProperVmas(vmas: seq<Vma>)
  {
    && (forall i :: 0 <= i < |vmas| ==> vmas[i].start % PAGE == 0 && vmas[i].end % PAGE == 0)
    && (forall i, j :: 0 <= i < j < |vmas| ==> vmas[i].end <= vmas[j].start)
  }

  lemma PrefixInside(d: HeapDescriptor, v: Vma, q: nat)
    requires v.start % PAGE == 0 && v.end % PAGE == 0 && q in MappedPages(d, Prefix(v))
    ensures v.start / PAGE <= q < v.end / PAGE && q in d.pageTable
  {
    var addrs := Prefix(v);
    var i :| 0 <= i < |addrs| && Lookup(d, addrs[i]).Some? && addrs[i] / PAGE == q;
    PageCountBound(v, i);
  }

  lemma OnePrefixOnly(d: HeapDescriptor, i: nat, j: nat, q: nat)
    requires ProperVmas(d.vma) && i < j < |d.vma|
    requires q in MappedPages(d, Prefix(d.vma[i]))
    ensures q !in MappedPages(d, Prefix(d.vma[j]))
  {
    PrefixInside(d, d.vma[i], q);
    if q in MappedPages(d, Prefix(d.vma[j])) {
      PrefixInside(d, d.vma[j], q);
      assert false;
    }
  }

  /** A new page stays away until its own VMA is prefetched. */
  lemma AbsentBefore(d: HeapDescriptor, mapped: seq<bool>, i: nat, remote: RemoteMemory, m: Memory, q: nat)
    requires i < |d.vma| == |mapped| && ProperVmas(d.vma)
    requires q in MappedPages(d, Prefix(d.vma[i])) && Absent(m, q)
    ensures Absent(WellHeap(d, mapped, i, remote, m), q)
  {
    forall j | 0 <= j < i
      ensures q !in MappedPages(d, Prefix(d.vma[j]))
    {
      if q in MappedPages(d, Prefix(d.vma[j])) {
        OnePrefixOnly(d, j, i, q);
      }
    }
    AbsentStays(d, mapped, i, remote, m, q);
  }

  /** From its own VMA on a page has arrived, or its READ is under way. */
  lemma PageFrom(d: HeapDescriptor, mapped: seq<bool>, i: nat, remote: RemoteMemory, m: Memory, q: nat, x: Data)
    requires i < |d.vma| == |mapped| && mapped[i]
    requires var t := WellHeap(d, mapped, i + 1, remote, m);
             if LastMapped(d, Prefix(d.vma[i])) then Settled(t, q, Filled(x)) else Flies(t, q, x)
    ensures var n := |d.vma|;
            var t := WellHeap(d, mapped, n, remote, m);
            q in t.live && t.live[q] == if Confirms(d, mapped, i, n) then Filled(x) else Unfilled
  {
    var n := |d.vma|;
    if LastMapped(d, Prefix(d.vma[i])) {
      SettledStays(d, mapped, i + 1, n, remote, m, q, Filled(x));
    } else {
      FliesOn(d, mapped, i + 1, n, remote, m, q, x);
      assert Confirms(d, mapped, i, n) <==> Confirms(d, mapped, i + 1, n);
    }
  }

  /** A page in the prefix of a VMA has arrived exactly if a batch of this VMA or a later one is awaited. */
  lemma NewPage(d: HeapDescriptor, mapped: seq<bool>, i: nat, remote: RemoteMemory, m: Memory, q: nat)
    requires i < |d.vma| == |mapped| && ProperVmas(d.vma)
    requires mapped[i] && q in MappedPages(d, Prefix(d.vma[i])) && Absent(m, q)
    ensures q in d.pageTable
    ensures var n := |d.vma|;
            var t := WellHeap(d, mapped, n, remote, m);
            q in t.live && t.live[q] == if Confirms(d, mapped, i, n) then Filled(RemoteData(d, q, remote)) else Unfilled
  {
    AbsentBefore(d, mapped, i, remote, m, q);
    FetchOfAbsent(d, Prefix(d.vma[i]), remote, WellHeap(d, mapped, i, remote, m), q);
    PageFrom(d, mapped, i, remote, m, q, RemoteData(d, q, remote));
  }

  // ---------------------------------------------------------------------------
  // Pages lost by a whole eager apply
  // ---------------------------------------------------------------------------

  /** Prefetching VMA i loses nothing. */
  predicate LosesNothing(d: HeapDescriptor, v: Vma, m: Memory) {
    var pages := MappedPages(d, Prefix(v));
    pages == {} || (PageCount(v) < BATCH && pages !! m.live.Keys)
  }

  /** Whether a page of VMA i was there is the same before the call and when its VMA is reached. */
  lemma ThereBefore(d: HeapDescriptor, mapped: seq<bool>, i: nat, remote: RemoteMemory, m: Memory, q: nat)
    requires i < |d.vma| == |mapped| && ProperVmas(d.vma) && Consistent(m)
    requires q in MappedPages(d, Prefix(d.vma[i]))
    ensures q in WellHeap(d, mapped, i, remote, m).live <==> q in m.live
  {
    if q in m.queue.open {
      FliesOn(d, mapped, 0, i, remote, m, q, m.queue.open[q]);
    } else if q in m.live {
      SettledStays(d, mapped, 0, i, remote, m, q, m.live[q]);
    } else {
      AbsentBefore(d, mapped, i, remote, m, q);
    }
  }

  lemma SameLoss(d: HeapDescriptor, mapped: seq<bool>, i: nat, remote: RemoteMemory, m: Memory)
    requires i < |d.vma| == |mapped| && ProperVmas(d.vma) && Consistent(m)
    ensures LosesNothing(d, d.vma[i], WellHeap(d, mapped, i, remote, m)) <==> LosesNothing(d, d.vma[i], m)
  {
    forall q | q in MappedPages(d, Prefix(d.vma[i]))
      ensures q in WellHeap(d, mapped, i, remote, m).live <==> q in m.live
    {
      ThereBefore(d, mapped, i, remote, m, q);
    }
  }

  lemma VmaLeak(d: HeapDescriptor, v: Vma, answers: seq<BatchAnswer>, remote: RemoteMemory, s: Fetched)
    requires EachWell(answers) && |answers| == BatchCount(v) && s.seen.queue.groups == []
    ensures FetchAgain(d, Prefix(v), answers, remote, s).leaked >= s.leaked
    ensures FetchAgain(d, Prefix(v), answers, remote, s).leaked == s.leaked <==> LosesNothing(d, v, s.seen)
  {
    PrefetchLeak(d, v, answers, remote, s);
    LeakInTimes(d, v, answers, remote, s);
  }

  ghost function LeakedAfter(d: HeapDescriptor, mapped: seq<bool>, answers: seq<seq<BatchAnswer>>, k: nat,
                             remote: RemoteMemory, s: Fetched): nat
    requires k <= |d.vma| && Outcomes(d, mapped, answers)
  {
    FetchHeap(d, mapped, answers, k, remote, s).leaked
  }

  /** One more VMA adds to the loss unless it is skipped or loses nothing by itself. */
  lemma ApplyLeakStep(d: HeapDescriptor, mapped: seq<bool>, answers: seq<seq<BatchAnswer>>, k: nat,
                      remote: RemoteMemory, s: Fetched)
    requires k < |d.vma| && ProperVmas(d.vma)
    requires Outcomes(d, mapped, answers) && NetworkWell(answers) && Consistent(s.seen)
    ensures var before := LeakedAfter(d, mapped, answers, k, remote, s);
            var after := LeakedAfter(d, mapped, answers, k + 1, remote, s);
            after >= before && (after == before <==> !mapped[k] || LosesNothing(d, d.vma[k], s.seen))
  {
    if mapped[k] {
      HeapIsWell(d, mapped, answers, k, remote, s);
      StaysConsistent(d, mapped, k, remote, s.seen);
      SameLoss(d, mapped, k, remote, s.seen);
      VmaLeak(d, d.vma[k], answers[k], remote, FetchHeap(d, mapped, answers, k, remote, s));
    }
  }

  /** Numbers that never fall end where they started exactly if they never rose. */
  lemma {:induction false} NeverRose(numbers: seq<nat>, still: seq<bool>)
    requires |numbers| == |still| + 1
    requires forall k :: 0 <= k < |still| ==>
               numbers[k + 1] >= numbers[k] && (numbers[k + 1] == numbers[k] <==> still[k])
    ensures numbers[|still|] >= numbers[0]
    ensures numbers[|still|] == numbers[0] <==> forall k :: 0 <= k < |still| ==> still[k]
    decreases |still|
  {
    if still != [] {
      NeverRose(numbers[..|still|], still[..|still| - 1]);
    }
  }

  /** A fully successful eager apply loses no page exactly when no mapped VMA does. */
  lemma ApplyLeak(d: HeapDescriptor, mapped: seq<bool>, answers: seq<seq<BatchAnswer>>, remote: RemoteMemory, s: Fetched)
    requires ProperVmas(d.vma)
    requires Outcomes(d, mapped, answers) && NetworkWell(answers) && Consistent(s.seen)
    ensures LeakedAfter(d, mapped, answers, |d.vma|, remote, s) >= s.leaked
    ensures LeakedAfter(d, mapped, answers, |d.vma|, remote, s) == s.leaked
            <==> forall i :: 0 <= i < |d.vma| && mapped[i] ==> LosesNothing(d, d.vma[i], s.seen)
  {
    var n := |d.vma|;
    var numbers := seq(n + 1, k requires 0 <= k <= n => LeakedAfter(d, mapped, answers, k, remote, s));
    var still := seq(n, k requires 0 <= k < n => !mapped[k] || LosesNothing(d, d.vma[k], s.seen));
    forall k | 0 <= k < n
      ensures numbers[k + 1] >= numbers[k] && (numbers[k + 1] == numbers[k] <==> still[k])
    {
      ApplyLeakStep(d, mapped, answers, k, remote, s);
    }
    NeverRose(numbers, still);
    assert numbers[0] == s.leaked && numbers[n] == LeakedAfter(d, mapped, answers, n, remote, s);
    assert forall k :: 0 <= k < n ==> still[k] == (!mapped[k] || LosesNothing(d, d.vma[k], s.seen));
  }

  // ---------------------------------------------------------------------------
  // Eager and lazy compared
  // ---------------------------------------------------------------------------

  datatype Observation = Sees(data: Data) | Garbage | Killed

  /** What a load at `va` gives: the page already there, or the outcome of the fault. */
  function Observe(m: Memory, heaps: seq<HeapDescriptor>, va: nat, remote: RemoteMemory): Observation
  {
    if va / PAGE in m.live then
      match m.live[va / PAGE]
      case Filled(data) => Sees(data)
      case Unfilled => Garbage
    else
      match Served(heaps, va, remote)
      case Some(data) => Sees(data)
      case None => Killed
  }

  ghost predicate SameObservations(heaps: seq<HeapDescriptor>, one: Memory, other: Memory, remote: RemoteMemory)
  {
    forall va: nat :: Observe(one, heaps, va, remote) == Observe(other, heaps, va, remote)
  }

  /** The pages that prefetching VMA i brings. */
  function Brought(d: HeapDescriptor, mapped: seq<bool>, i: nat, m: Memory): set<nat>
    requires i < |d.vma| == |mapped|
  {
    if mapped[i] then MappedPages(d, Prefix(d.vma[i])) - m.live.Keys else {}
  }

  /** The first heap to map this page maps it to the frame that d maps it to. */
  predicate SameFrame(heaps: seq<HeapDescriptor>, d: HeapDescriptor, q: nat)
    requires q in d.pageTable
  {
    match FirstServing(heaps, AllWell(|heaps|), q * PAGE)
    case None => false
    case Some(k) => heaps[k].machineInfo == d.machineInfo && Lookup(heaps[k], q * PAGE) == Some(d.pageTable[q])
  }

  lemma SamePageSameServed(heaps: seq<HeapDescriptor>, va: nat, remote: RemoteMemory)
    ensures Served(heaps, va, remote) == Served(heaps, va / PAGE * PAGE, remote)
  {
    var q := va / PAGE * PAGE;
    assert q / PAGE == va / PAGE;
    var x, y := FirstServing(heaps, AllWell(|heaps|), va), FirstServing(heaps, AllWell(|heaps|), q);
    forall k | 0 <= k < |heaps|
      ensures Serves(heaps[k], AllWell(|heaps|)[k], va) <==> Serves(heaps[k], AllWell(|heaps|)[k], q)
    {
    }
  }

  lemma ServedBySome(heaps: seq<HeapDescriptor>, d: HeapDescriptor, va: nat, remote: RemoteMemory)
    requires d in heaps && Lookup(d, va).Some?
    ensures Served(heaps, va, remote).Some?
  {
    var i :| 0 <= i < |heaps| && heaps[i] == d;
    assert Serves(heaps[i], AllWell(|heaps|)[i], va);
  }

  /** An address whose page the eager mode brings. */
  lemma PageCompared(heaps: seq<HeapDescriptor>, d: HeapDescriptor, mapped: seq<bool>, remote: RemoteMemory,
                     m: Memory, i: nat, va: nat)
    requires i < |d.vma| == |mapped| && ProperVmas(d.vma) && Consistent(m)
    requires d in heaps && va / PAGE in Brought(d, mapped, i, m)
    ensures va / PAGE in d.pageTable
    ensures var n := |d.vma|;
            Observe(WellHeap(d, mapped, n, remote, m), heaps, va, remote) == Observe(m, heaps, va, remote)
            <==> Confirms(d, mapped, i, n) && Served(heaps, va, remote) == Some(RemoteData(d, va / PAGE, remote))
  {
    NewPage(d, mapped, i, remote, m, va / PAGE);
    ServedBySome(heaps, d, va, remote);
  }

  /** Any other address. */
  lemma OtherPage(heaps: seq<HeapDescriptor>, d: HeapDescriptor, mapped: seq<bool>, remote: RemoteMemory,
                  m: Memory, va: nat)
    requires |d.vma| == |mapped| && Consistent(m)
    requires forall i :: 0 <= i < |d.vma| ==> va / PAGE !in Brought(d, mapped, i, m)
    ensures var n := |d.vma|;
            Observe(WellHeap(d, mapped, n, remote, m), heaps, va, remote) == Observe(m, heaps, va, remote)
            <==> va / PAGE !in m.queue.open || !Confirms(d, mapped, 0, n)
  {
    var q, n := va / PAGE, |d.vma|;
    if q in m.queue.open {
      FliesOn(d, mapped, 0, n, remote, m, q, m.queue.open[q]);
    } else if q in m.live {
      SettledStays(d, mapped, 0, n, remote, m, q, m.live[q]);
    } else {
      forall j | 0 <= j < n && mapped[j]
        ensures q !in MappedPages(d, Prefix(d.vma[j]))
      {
        assert q !in Brought(d, mapped, j, m);
      }
      AbsentStays(d, mapped, n, remote, m, q);
    }
  }

  /** If this page is brought with VMA i, it arrives before the call ends, with the data that a fault would get. */
  ghost predicate RightAt(heaps: seq<HeapDescriptor>, d: HeapDescriptor, mapped: seq<bool>, m: Memory,
                          remote: RemoteMemory, i: nat, q: nat)
    requires i < |d.vma| == |mapped|
  {
    q in Brought(d, mapped, i, m) ==>
      && q in d.pageTable
      && Confirms(d, mapped, i, |d.vma|)
      && Served(heaps, q * PAGE, remote) == Some(RemoteData(d, q, remote))
  }

  ghost predicate BroughtRight(heaps: seq<HeapDescriptor>, d: HeapDescriptor, mapped: seq<bool>, m: Memory,
                               remote: RemoteMemory)
    requires |d.vma| == |mapped|
  {
    forall i: nat, q: nat :: i < |d.vma| ==> RightAt(heaps, d, mapped, m, remote, i, q)
  }

  /** No READ of an earlier call is completed by this one. */
  ghost predicate NothingElseArrives(d: HeapDescriptor, mapped: seq<bool>, m: Memory)
    requires |d.vma| == |mapped|
  {
    m.queue.open == map[] || !Confirms(d, mapped, 0, |d.vma|)
  }

  lemma LooksAlike(heaps: seq<HeapDescriptor>, d: HeapDescriptor, mapped: seq<bool>, remote: RemoteMemory,
                   m: Memory, va: nat)
    requires d in heaps && ProperVmas(d.vma) && |d.vma| == |mapped| && Consistent(m)
    requires BroughtRight(heaps, d, mapped, m, remote) && NothingElseArrives(d, mapped, m)
    ensures Observe(WellHeap(d, mapped, |d.vma|, remote, m), heaps, va, remote) == Observe(m, heaps, va, remote)
  {
    if i: nat :| i < |d.vma| && va / PAGE in Brought(d, mapped, i, m) {
      assert RightAt(heaps, d, mapped, m, remote, i, va / PAGE);
      PageCompared(heaps, d, mapped, remote, m, i, va);
      SamePageSameServed(heaps, va, remote);
    } else {
      OtherPage(heaps, d, mapped, remote, m, va);
    }
  }

  /** An address that tells the two modes apart. */
  lemma LooksDifferent(heaps: seq<HeapDescriptor>, d: HeapDescriptor, mapped: seq<bool>, remote: RemoteMemory, m: Memory)
    returns (va: nat)
    requires d in heaps && ProperVmas(d.vma) && |d.vma| == |mapped| && Consistent(m)
    requires !BroughtRight(heaps, d, mapped, m, remote) || !NothingElseArrives(d, mapped, m)
    ensures Observe(WellHeap(d, mapped, |d.vma|, remote, m), heaps, va, remote) != Observe(m, heaps, va, remote)
  {
    var n := |d.vma|;
    if i: nat, q: nat :| i < n && !RightAt(heaps, d, mapped, m, remote, i, q) {
      va := q * PAGE;
      assert va / PAGE == q;
      PageCompared(heaps, d, mapped, remote, m, i, va);
    } else {
      assert BroughtRight(heaps, d, mapped, m, remote);
      var q :| q in m.queue.open;
      va := q * PAGE;
      assert va / PAGE == q;
      assert forall i :: 0 <= i < n ==> q !in Brought(d, mapped, i, m);
      OtherPage(heaps, d, mapped, remote, m, va);
    }
  }

  /** For one content of the remote memory. */
  lemma EagerEqualsLazyOn(heaps: seq<HeapDescriptor>, d: HeapDescriptor, mapped: seq<bool>, remote: RemoteMemory,
                          m: Memory)
    requires d in heaps && ProperVmas(d.vma) && |d.vma| == |mapped| && Consistent(m)
    ensures SameObservations(heaps, WellHeap(d, mapped, |d.vma|, remote, m), m, remote)
            <==> BroughtRight(heaps, d, mapped, m, remote) && NothingElseArrives(d, mapped, m)
  {
    if BroughtRight(heaps, d, mapped, m, remote) && NothingElseArrives(d, mapped, m) {
      forall va: nat
        ensures Observe(WellHeap(d, mapped, |d.vma|, remote, m), heaps, va, remote) == Observe(m, heaps, va, remote)
      {
        LooksAlike(heaps, d, mapped, remote, m, va);
      }
    } else {
      var va := LooksDifferent(heaps, d, mapped, remote, m);
    }
  }

  lemma FrameServed(heaps: seq<HeapDescriptor>, d: HeapDescriptor, q: nat)
    requires d in heaps && q in d.pageTable
    ensures SameFrame(heaps, d, q) ==>
              forall remote: RemoteMemory :: Served(heaps, q * PAGE, remote) == Some(RemoteData(d, q, remote))
  {
    assert q * PAGE / PAGE == q;
  }

  /** Two different frames can hold different data. */
  lemma TellsApart(heaps: seq<HeapDescriptor>, d: HeapDescriptor, q: nat) returns (remote: RemoteMemory)
    requires d in heaps
    ensures q in d.pageTable && !SameFrame(heaps, d, q) ==>
              Served(heaps, q * PAGE, remote) != Some(RemoteData(d, q, remote))
  {
    remote := (_, _) => [];
    if q in d.pageTable && !SameFrame(heaps, d, q) {
      var info, pa := d.machineInfo, d.pageTable[q];
      remote := (m: seq<Byte>, at: nat) => if m == info && at == pa then [] else [0];
      assert q * PAGE / PAGE == q;
      ServedBySome(heaps, d, q * PAGE, remote);
    }
  }

  /** If this page is brought with VMA i, some batch is awaited from there on, and the first heap to map it maps it alike. */
  ghost predicate SafeAt(heaps: seq<HeapDescriptor>, d: HeapDescriptor, mapped: seq<bool>, m: Memory, i: nat, q: nat)
    requires i < |d.vma| == |mapped|
  {
    q in Brought(d, mapped, i, m) ==>
      q in d.pageTable && Confirms(d, mapped, i, |d.vma|) && SameFrame(heaps, d, q)
  }

  ghost predicate BroughtSafely(heaps: seq<HeapDescriptor>, d: HeapDescriptor, mapped: seq<bool>, m: Memory)
    requires |d.vma| == |mapped|
  {
    forall i: nat, q: nat :: i < |d.vma| ==> SafeAt(heaps, d, mapped, m, i, q)
  }

  lemma SafeIsRight(heaps: seq<HeapDescriptor>, d: HeapDescriptor, mapped: seq<bool>, m: Memory, remote: RemoteMemory)
    requires |d.vma| == |mapped| && d in heaps && BroughtSafely(heaps, d, mapped, m)
    ensures BroughtRight(heaps, d, mapped, m, remote)
  {
    forall i: nat, q: nat | i < |d.vma|
      ensures RightAt(heaps, d, mapped, m, remote, i, q)
    {
      assert SafeAt(heaps, d, mapped, m, i, q);
      if q in Brought(d, mapped, i, m) {
        FrameServed(heaps, d, q);
      }
    }
  }

  lemma UnsafeGoesWrong(heaps: seq<HeapDescriptor>, d: HeapDescriptor, mapped: seq<bool>, m: Memory)
    returns (remote: RemoteMemory)
    requires |d.vma| == |mapped| && d in heaps
    ensures BroughtRight(heaps, d, mapped, m, remote) ==> BroughtSafely(heaps, d, mapped, m)
  {
    remote := (_, _) => [];
    if i: nat, q: nat :| i < |d.vma| && !SafeAt(heaps, d, mapped, m, i, q) {
      remote := TellsApart(heaps, d, q);
      assert !RightAt(heaps, d, mapped, m, remote, i, q);
    }
  }

  /**
    On a well-behaved network and with unchanged producer frames, an eager pull cannot be told from a lazy one at
    any address, whatever the remote memory holds, if and only if: every page it brings belongs to a VMA from
    which on some batch is awaited; the first pulled heap to map that page maps it to the same frame; and
    no earlier call left READs under way that an awaited batch completes.
   */
  lemma EagerEqualsLazy(heaps: seq<HeapDescriptor>, d: HeapDescriptor, mapped: seq<bool>,
                        answers: seq<seq<BatchAnswer>>, s: Fetched)
    requires d in heaps && ProperVmas(d.vma)
    requires Outcomes(d, mapped, answers) && NetworkWell(answers) && Consistent(s.seen)
    ensures (forall remote: RemoteMemory ::
               SameObservations(heaps, FetchHeap(d, mapped, answers, |d.vma|, remote, s).seen, s.seen, remote))
            <==> BroughtSafely(heaps, d, mapped, s.seen) && NothingElseArrives(d, mapped, s.seen)
  {
    var m, n := s.seen, |d.vma|;
    if BroughtSafely(heaps, d, mapped, m) && NothingElseArrives(d, mapped, m) {
      forall remote: RemoteMemory
        ensures SameObservations(heaps, FetchHeap(d, mapped, answers, n, remote, s).seen, m, remote)
      {
        HeapIsWell(d, mapped, answers, n, remote, s);
        SafeIsRight(heaps, d, mapped, m, remote);
        EagerEqualsLazyOn(heaps, d, mapped, remote, m);
      }
    } else {
      var remote := UnsafeGoesWrong(heaps, d, mapped, m);
      HeapIsWell(d, mapped, answers, n, remote, s);
      EagerEqualsLazyOn(heaps, d, mapped, remote, m);
      assert !SameObservations(heaps, FetchHeap(d, mapped, answers, n, remote, s).seen, m, remote);
    }
  }
}
