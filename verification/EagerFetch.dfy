/**
  The eager prefetch of a pulled heap (`eager_fetch_vma` and `apply_to`, dmerge/src/descriptors/heap.rs), under
  every outcome of posts and waits, as it is seen through the consumer's page table.
 */
module EagerFetch {
  import opened Words
  import opened Descriptor
  import opened RemotePaging
  import opened BatchRead

  const BATCH: nat := 12

  /** The consumer's page-table entries that point at prefetched pages, keyed by virtual page number. */
  class AddressSpace {
    var ptes: map<nat, nat>

    constructor ()
      ensures ptes == map[]
    {
      ptes := map[];
    }

    /** `vm_insert_page` refuses an address that already has a page; its caller ignores that. */
    method InsertPage(va: nat, page: nat)
      modifies this
      ensures ptes == if va / PAGE in old(ptes) then old(ptes) else old(ptes)[va / PAGE := page]
    {
      if va / PAGE !in ptes {
        ptes := ptes[va / PAGE := page];
      }
    }
  }

  // ---------------------------------------------------------------------------
  // Memory seen through the page table
  // ---------------------------------------------------------------------------

  ghost predicate Backed(ptes: map<nat, nat>, live: map<nat, Content>)
  {
    forall q :: q in ptes ==> ptes[q] in live
  }

  function ViewOf(ptes: map<nat, nat>, live: map<nat, Content>): map<nat, Content>
  {
    map q | q in ptes && ptes[q] in live :: live[ptes[q]]
  }

  function FlyingOf(ptes: map<nat, nat>, flying: map<nat, Data>): map<nat, Data>
  {
    map q | q in ptes && ptes[q] in flying :: flying[ptes[q]]
  }

  function QueueOf(ptes: map<nat, nat>, q: SendQueue): SendQueue
  {
    SendQueue(seq(|q.groups|, i requires 0 <= i < |q.groups| => FlyingOf(ptes, q.groups[i])), FlyingOf(ptes, q.open))
  }

  /** Pages in use that no page-table entry points at. */
  ghost function Unreferenced(ptes: map<nat, nat>, live: map<nat, Content>): set<nat>
  {
    live.Keys - ptes.Values
  }

  /** What the process has: visible pages and READs under way into them, by virtual page number, and lost pages. */
  datatype Fetched = Fetched(seen: Memory, leaked: nat)

  ghost function FetchedOf(ptes: map<nat, nat>, m: Memory): Fetched
  {
    Fetched(Memory(ViewOf(ptes, m.live), QueueOf(ptes, m.queue)), |Unreferenced(ptes, m.live)|)
  }

  // ---------------------------------------------------------------------------
  // What a batch does to it
  // ---------------------------------------------------------------------------

  ghost predicate DistinctPages(addrs: seq<nat>)
  {
    forall i, j :: 0 <= i < j < |addrs| ==> addrs[i] / PAGE != addrs[j] / PAGE
  }

  function PagesAt(addrs: seq<nat>, slots: set<nat>): set<nat>
  {
    set k | k in slots && k < |addrs| :: addrs[k] / PAGE
  }

  function RemoteData(d: HeapDescriptor, q: nat, remote: RemoteMemory): Data
    requires q in d.pageTable
  {
    remote(d.machineInfo, d.pageTable[q])
  }

  /** The requests of the pages in `added` whose slots are in `slots`. */
  function Requests(d: HeapDescriptor, addrs: seq<nat>, added: set<nat>, slots: set<nat>,
                    remote: RemoteMemory): map<nat, Data>
  {
    map q | q in added && q in PagesAt(addrs, slots) && q in d.pageTable :: RemoteData(d, q, remote)
  }

  /** The batch brings each page that was not there, and loses the pages it read for those that were. */
  function FetchStep(d: HeapDescriptor, addrs: seq<nat>, a: BatchAnswer, remote: RemoteMemory, s: Fetched): Fetched
  {
    var w := WantAll(d, addrs, remote);
    var confirmed := Confirmed(w, a, s.seen.queue);
    var slots := FilledSlots(w, confirmed);
    var added := PagesAt(addrs, slots) - s.seen.live.Keys;
    var refused := PagesAt(addrs, slots) * s.seen.live.Keys;
    Fetched(AfterBatch(s.seen, added, Requests(d, addrs, added, a.posted, remote), Signals(w, a), confirmed),
            s.leaked + |refused|)
  }

  /** The first j slots have been offered to the page table. */
  ghost predicate Inserted(old0: map<nat, nat>, ptes: map<nat, nat>, addrs: seq<nat>, res: seq<Option<nat>>, j: nat)
    requires j <= |res| == |addrs|
  {
    && (forall q :: q in old0 ==> q in ptes && ptes[q] == old0[q])
    && (forall q :: q in ptes && q !in old0 ==>
          exists k :: 0 <= k < j && addrs[k] / PAGE == q && res[k] == Some(ptes[q]))
    && (forall k :: 0 <= k < j && res[k].Some? ==> addrs[k] / PAGE in ptes)
  }

  method InsertPages(addrs: seq<nat>, pageList: seq<Option<nat>>, space: AddressSpace)
    requires |addrs| == |pageList|
    modifies space
    ensures Inserted(old(space.ptes), space.ptes, addrs, pageList, |pageList|)
  {
    for i := 0 to |pageList|
      invariant Inserted(old(space.ptes), space.ptes, addrs, pageList, i)
    {
      if pageList[i].Some? {
        space.InsertPage(addrs[i], pageList[i].value);
      }
    }
  }

  /** The new entries: one for each page of a filled slot that was not there, pointing at the page in that slot. */
  ghost predicate Extends(ptes0: map<nat, nat>, ptes: map<nat, nat>, added: set<nat>, addrs: seq<nat>, owner: Owner)
  {
    && ptes.Keys == ptes0.Keys + added
    && added !! ptes0.Keys
    && (forall q :: q in ptes0 ==> ptes[q] == ptes0[q])
    && forall q :: q in added ==> ptes[q] in owner && owner[ptes[q]] < |addrs| && addrs[owner[ptes[q]]] / PAGE == q
  }

  lemma InsertedExtends(ptes0: map<nat, nat>, ptes: map<nat, nat>, w: Wants, confirmed: bool, addrs: seq<nat>,
                        owner: Owner, res: seq<Option<nat>>)
    requires |res| == |addrs| == |w| && SlotsRight(w, confirmed, res) && Owns(owner, res)
    requires Inserted(ptes0, ptes, addrs, res, |res|)
    ensures Extends(ptes0, ptes, PagesAt(addrs, FilledSlots(w, confirmed)) - ptes0.Keys, addrs, owner)
  {
    var slots := FilledSlots(w, confirmed);
    forall q | q in ptes && q !in ptes0
      ensures q in PagesAt(addrs, slots)
      ensures ptes[q] in owner && addrs[owner[ptes[q]]] / PAGE == q
    {
      var k :| 0 <= k < |res| && addrs[k] / PAGE == q && res[k] == Some(ptes[q]);
      assert k in slots;
    }
    forall q | q in PagesAt(addrs, slots)
      ensures q in ptes
    {
      var k :| k in slots && k < |addrs| && addrs[k] / PAGE == q;
      assert res[k].Some?;
    }
  }

  // ---------------------------------------------------------------------------
  // Contents and requests after a batch
  // ---------------------------------------------------------------------------

  /** Requests posted before the batch concern old pages only. */
  lemma OldFlying(ptes0: map<nat, nat>, ptes: map<nat, nat>, added: set<nat>, addrs: seq<nat>, owner: Owner,
                  flying: map<nat, Data>)
    requires Extends(ptes0, ptes, added, addrs, owner)
    requires forall p :: p in owner ==> p !in flying
    ensures FlyingOf(ptes, flying) == FlyingOf(ptes0, flying)
  {
    assert forall q :: q in ptes && q !in ptes0 ==> q in added;
  }

  lemma RequestOf(d: HeapDescriptor, q: nat, addrs: seq<nat>, added: set<nat>, a: BatchAnswer, remote: RemoteMemory,
                  owner: Owner, posts: map<nat, Data>, first: nat, next: nat, p: nat)
    requires DistinctPages(addrs) && Sends(WantAll(d, addrs, remote), a, owner, posts, first, next)
    requires q in added && p in owner && owner[p] < |addrs| && addrs[owner[p]] / PAGE == q
    ensures q in d.pageTable
    ensures p in posts <==> q in PagesAt(addrs, a.posted)
    ensures p in posts ==> posts[p] == RemoteData(d, q, remote)
  {
    var k := owner[p];
    assert WantAll(d, addrs, remote)[k] == Want(d, addrs[k], remote);
    if q in PagesAt(addrs, a.posted) {
      var j :| j in a.posted && j < |addrs| && addrs[j] / PAGE == q;
      assert j == k;
    }
  }

  /** Requests of the batch concern new pages only, and deliver what those pages want. */
  lemma NewFlying(d: HeapDescriptor, ptes0: map<nat, nat>, ptes: map<nat, nat>, added: set<nat>, addrs: seq<nat>,
                  a: BatchAnswer, remote: RemoteMemory, owner: Owner, posts: map<nat, Data>, first: nat, next: nat)
    requires Extends(ptes0, ptes, added, addrs, owner) && DistinctPages(addrs)
    requires Sends(WantAll(d, addrs, remote), a, owner, posts, first, next)
    requires forall q :: q in ptes0 ==> ptes0[q] < first
    ensures FlyingOf(ptes, posts) == Requests(d, addrs, added, a.posted, remote)
  {
    var flying, requests := FlyingOf(ptes, posts), Requests(d, addrs, added, a.posted, remote);
    forall q | q in ptes
      ensures q in flying <==> q in requests
      ensures q in flying ==> flying[q] == requests[q]
    {
      if q in added {
        RequestOf(d, q, addrs, added, a, remote, owner, posts, first, next, ptes[q]);
      } else {
        assert q in ptes0;
      }
    }
  }

  lemma FlyingUnion(ptes: map<nat, nat>, f: map<nat, Data>, g: map<nat, Data>)
    ensures FlyingOf(ptes, f + g) == FlyingOf(ptes, f) + FlyingOf(ptes, g)
  {
  }

  lemma QueueSeen(ptes0: map<nat, nat>, ptes: map<nat, nat>, added: set<nat>, addrs: seq<nat>, owner: Owner,
                  queue: SendQueue, first: nat, m: Memory)
    requires Extends(ptes0, ptes, added, addrs, owner)
    requires m.queue == queue && Bounded(m, first) && forall p :: p in owner ==> first <= p
    ensures QueueOf(ptes, queue) == QueueOf(ptes0, queue)
  {
    OldFlying(ptes0, ptes, added, addrs, owner, queue.open);
    forall i | 0 <= i < |queue.groups|
      ensures FlyingOf(ptes, queue.groups[i]) == FlyingOf(ptes0, queue.groups[i])
    {
      OldFlying(ptes0, ptes, added, addrs, owner, queue.groups[i]);
    }
  }

  lemma PostsSeen(ptes: map<nat, nat>, queue: SendQueue, posts: map<nat, Data>, signalled: bool)
    ensures QueueOf(ptes, WithPosts(queue, posts, signalled))
            == WithPosts(QueueOf(ptes, queue), FlyingOf(ptes, posts), signalled)
  {
    FlyingUnion(ptes, queue.open, posts);
  }

  lemma PagesSeen(ptes0: map<nat, nat>, ptes: map<nat, nat>, added: set<nat>, addrs: seq<nat>, owner: Owner,
                  live: map<nat, Content>)
    requires Extends(ptes0, ptes, added, addrs, owner) && Backed(ptes0, live)
    requires forall p :: p in owner ==> p !in live
    ensures ViewOf(ptes, WithPages(live, owner.Keys)) == WithPages(ViewOf(ptes0, live), added)
    ensures Backed(ptes, WithPages(live, owner.Keys))
  {
    assert forall q :: q in ptes ==> q in ptes0 || q in added;
  }

  lemma ArrivalSeen(ptes: map<nat, nat>, live: map<nat, Content>, done: map<nat, Data>)
    requires Backed(ptes, live)
    ensures ViewOf(ptes, Completed(live, done)) == Completed(ViewOf(ptes, live), FlyingOf(ptes, done))
  {
  }

  /** Seen through the page table, a batch of pages is a batch of virtual pages. */
  lemma BatchSeen(ptes: map<nat, nat>, live: map<nat, Content>, queue: SendQueue, confirmed: bool)
    requires Backed(ptes, live)
    ensures var m := if confirmed && queue.groups != []
                     then Memory(Completed(live, queue.groups[0]), queue.(groups := queue.groups[1..]))
                     else Memory(live, queue);
            var seen, q := ViewOf(ptes, live), QueueOf(ptes, queue);
            Memory(ViewOf(ptes, m.live), QueueOf(ptes, m.queue))
            == if confirmed && q.groups != []
               then Memory(Completed(seen, q.groups[0]), q.(groups := q.groups[1..]))
               else Memory(seen, q)
  {
    if confirmed && queue.groups != [] {
      ArrivalSeen(ptes, live, queue.groups[0]);
    }
  }

  // ---------------------------------------------------------------------------
  // Lost pages
  // ---------------------------------------------------------------------------

  function Image(m: map<nat, nat>, keys: set<nat>): set<nat>
    requires keys <= m.Keys
  {
    set x | x in keys :: m[x]
  }

  lemma {:induction false} ImageSize(m: map<nat, nat>, keys: set<nat>)
    requires keys <= m.Keys
    requires forall x, y :: x in keys && y in keys && x != y ==> m[x] != m[y]
    ensures |Image(m, keys)| == |keys|
  {
    if keys == {} {
      assert Image(m, keys) == {};
    } else {
      var x :| x in keys;
      var rest := keys - {x};
      ImageSize(m, rest);
      assert Image(m, keys) == Image(m, rest) + {m[x]};
    }
  }

  lemma ValuesSplit(ptes0: map<nat, nat>, ptes: map<nat, nat>, added: set<nat>)
    requires ptes.Keys == ptes0.Keys + added && forall q :: q in ptes0 ==> ptes[q] == ptes0[q]
    ensures ptes.Values == ptes0.Values + Image(ptes, added)
  {
    var gained := Image(ptes, added);
    forall v | v in ptes.Values
      ensures v in ptes0.Values + gained
    {
      var q :| q in ptes && ptes[q] == v;
      assert q in ptes0.Keys || q in added;
    }
    forall v | v in ptes0.Values
      ensures v in ptes.Values
    {
      var q :| q in ptes0 && ptes0[q] == v;
      assert q in ptes;
    }
  }

  lemma GainedAreNew(ptes0: map<nat, nat>, ptes: map<nat, nat>, added: set<nat>, addrs: seq<nat>, owner: Owner,
                     live0: map<nat, Content>)
    requires Extends(ptes0, ptes, added, addrs, owner) && Backed(ptes0, live0)
    requires forall p :: p in owner ==> p !in live0
    ensures Image(ptes, added) !! ptes0.Values
    ensures |Image(ptes, added)| == |added|
  {
    ImageSize(ptes, added);
    forall v | v in ptes0.Values
      ensures v !in Image(ptes, added)
    {
      var q :| q in ptes0 && ptes0[q] == v;
    }
  }

  lemma SizeOfUnion(a: set<nat>, b: set<nat>)
    requires a !! b
    ensures |a + b| == |a| + |b|
  {
  }

  /** Each new entry takes one page of the batch out of the unreferenced ones. */
  lemma ReferencedGrow(ptes0: map<nat, nat>, ptes: map<nat, nat>, added: set<nat>, addrs: seq<nat>, owner: Owner,
                       live0: map<nat, Content>)
    requires Extends(ptes0, ptes, added, addrs, owner) && Backed(ptes0, live0)
    requires forall p :: p in owner ==> p !in live0
    ensures |ptes.Values| == |ptes0.Values| + |added|
  {
    ValuesSplit(ptes0, ptes, added);
    GainedAreNew(ptes0, ptes, added, addrs, owner, live0);
    SizeOfUnion(ptes0.Values, Image(ptes, added));
  }

  lemma UnreferencedCount(ptes: map<nat, nat>, live: map<nat, Content>)
    requires Backed(ptes, live)
    ensures |Unreferenced(ptes, live)| == |live| - |ptes.Values|
  {
    assert ptes.Values <= live.Keys;
    assert live.Keys == Unreferenced(ptes, live) + ptes.Values;
    assert |live| == |live.Keys|;
  }

  lemma {:induction false} CountIsSize(w: Wants)
    ensures MappedCount(w) == |FilledSlots(w, true)|
  {
    if w == [] {
      assert FilledSlots(w, true) == {};
    } else {
      var n := |w| - 1;
      var shorter := FilledSlots(w[..n], true);
      CountIsSize(w[..n]);
      assert FilledSlots(w, true) == if w[n].Some? then shorter + {n} else shorter;
    }
  }

  lemma KeptIsSize(w: Wants, confirmed: bool)
    ensures KeptCount(w, confirmed) == |FilledSlots(w, confirmed)|
  {
    CountIsSize(w);
    if Waits(w) && !confirmed {
      assert FilledSlots(w, true) == FilledSlots(w, false) + {|w| - 1};
    } else {
      assert FilledSlots(w, true) == FilledSlots(w, confirmed);
    }
  }

  lemma PagesSize(addrs: seq<nat>, slots: set<nat>)
    requires DistinctPages(addrs) && forall k :: k in slots ==> k < |addrs|
    ensures |PagesAt(addrs, slots)| == |slots|
  {
    var m := map k | k in slots :: addrs[k] / PAGE;
    ImageSize(m, slots);
    assert PagesAt(addrs, slots) == Image(m, slots);
  }

  lemma SizeOfParts(a: set<nat>, b: set<nat>)
    ensures |a * b| + |a - b| == |a|
    ensures |a - b| == 0 <==> a <= b
    ensures |a * b| == 0 <==> a !! b
  {
    SizeOfUnion(a * b, a - b);
    assert a == (a * b) + (a - b);
  }

  /** Of the pages a batch keeps, those offered for a virtual page that is already there are lost. */
  lemma LeakGrows(ptes0: map<nat, nat>, ptes: map<nat, nat>, w: Wants, confirmed: bool, addrs: seq<nat>, owner: Owner,
                  live0: map<nat, Content>, live: map<nat, Content>)
    requires |w| == |addrs| && DistinctPages(addrs)
    requires Extends(ptes0, ptes, PagesAt(addrs, FilledSlots(w, confirmed)) - ptes0.Keys, addrs, owner)
    requires Backed(ptes0, live0) && Backed(ptes, live) && forall p :: p in owner ==> p !in live0
    requires |live| == |live0| + KeptCount(w, confirmed)
    ensures |Unreferenced(ptes, live)|
            == |Unreferenced(ptes0, live0)| + |PagesAt(addrs, FilledSlots(w, confirmed)) * ptes0.Keys|
  {
    var pages := PagesAt(addrs, FilledSlots(w, confirmed));
    ReferencedGrow(ptes0, ptes, pages - ptes0.Keys, addrs, owner, live0);
    UnreferencedCount(ptes0, live0);
    UnreferencedCount(ptes, live);
    KeptIsSize(w, confirmed);
    PagesSize(addrs, FilledSlots(w, confirmed));
    SizeOfParts(pages, ptes0.Keys);
  }

  // ---------------------------------------------------------------------------
  // One batch put into the page table
  // ---------------------------------------------------------------------------

  /** Contents and requests: the batch of pages, seen through the page table. */
  lemma MemorySeen(d: HeapDescriptor, addrs: seq<nat>, a: BatchAnswer, remote: RemoteMemory, confirmed: bool,
                   added: set<nat>,
                   before: Memory, first: nat, next: nat, owner: Owner, posts: map<nat, Data>,
                   ptes0: map<nat, nat>, ptes: map<nat, nat>)
    requires DistinctPages(addrs) && Bounded(before, first) && Backed(ptes0, before.live)
    requires Sends(WantAll(d, addrs, remote), a, owner, posts, first, next)
    requires Extends(ptes0, ptes, added, addrs, owner)
    ensures var w := WantAll(d, addrs, remote);
            var after := AfterBatch(before, owner.Keys, posts, Signals(w, a), confirmed);
            && Backed(ptes, after.live)
            && Memory(ViewOf(ptes, after.live), QueueOf(ptes, after.queue))
               == AfterBatch(Memory(ViewOf(ptes0, before.live), QueueOf(ptes0, before.queue)), added,
                             Requests(d, addrs, added, a.posted, remote), Signals(w, a), confirmed)
  {
    var w := WantAll(d, addrs, remote);
    NewFlying(d, ptes0, ptes, added, addrs, a, remote, owner, posts, first, next);
    QueueSeen(ptes0, ptes, added, addrs, owner, before.queue, first, before);
    PostsSeen(ptes, before.queue, posts, Signals(w, a));
    PagesSeen(ptes0, ptes, added, addrs, owner, before.live);
    BatchSeen(ptes, WithPages(before.live, owner.Keys), WithPosts(before.queue, posts, Signals(w, a)), confirmed);
  }

  lemma StepSeen(d: HeapDescriptor, addrs: seq<nat>, a: BatchAnswer, remote: RemoteMemory, s: Fetched,
                 there: set<nat>, confirmed: bool)
    requires s.seen.live.Keys == there && Confirmed(WantAll(d, addrs, remote), a, s.seen.queue) == confirmed
    ensures var w := WantAll(d, addrs, remote);
            var pages := PagesAt(addrs, FilledSlots(w, confirmed));
            FetchStep(d, addrs, a, remote, s)
            == Fetched(AfterBatch(s.seen, pages - there, Requests(d, addrs, pages - there, a.posted, remote),
                                  Signals(w, a), confirmed),
                       s.leaked + |pages * there|)
  {
  }

  lemma NewPages(w: Wants, a: BatchAnswer, owner: Owner, posts: map<nat, Data>, m: Memory, first: nat, next: nat)
    requires Bounded(m, first) && Sends(w, a, owner, posts, first, next)
    ensures forall p :: p in owner ==> p !in m.live
  {
  }

  lemma BatchSeenThrough(d: HeapDescriptor, addrs: seq<nat>, a: BatchAnswer, remote: RemoteMemory, pages: set<nat>,
                         before: Memory, first: nat, after: Memory, next: nat, owner: Owner, posts: map<nat, Data>,
                         ptes0: map<nat, nat>, ptes: map<nat, nat>)
    requires DistinctPages(addrs) && Bounded(before, first) && Backed(ptes0, before.live)
    requires Sends(WantAll(d, addrs, remote), a, owner, posts, first, next)
    requires Extends(ptes0, ptes, pages - ptes0.Keys, addrs, owner)
    requires var w := WantAll(d, addrs, remote);
             after == AfterBatch(before, owner.Keys, posts, Signals(w, a), Confirmed(w, a, before.queue))
    ensures Backed(ptes, after.live)
    ensures var w := WantAll(d, addrs, remote);
            FetchedOf(ptes, after).seen
            == AfterBatch(FetchedOf(ptes0, before).seen, pages - ptes0.Keys,
                          Requests(d, addrs, pages - ptes0.Keys, a.posted, remote), Signals(w, a),
                          Confirmed(w, a, before.queue))
  {
    var confirmed := Confirmed(WantAll(d, addrs, remote), a, before.queue);
    MemorySeen(d, addrs, a, remote, confirmed, pages - ptes0.Keys, before, first, next, owner, posts, ptes0, ptes);
  }

  lemma SameKeysSeen(d: HeapDescriptor, addrs: seq<nat>, a: BatchAnswer, remote: RemoteMemory, ptes0: map<nat, nat>, m: Memory)
    requires Backed(ptes0, m.live)
    ensures FetchedOf(ptes0, m).seen.live.Keys == ptes0.Keys
    ensures var w := WantAll(d, addrs, remote);
            Confirmed(w, a, FetchedOf(ptes0, m).seen.queue) == Confirmed(w, a, m.queue)
  {
  }

  lemma BatchFetches(d: HeapDescriptor, addrs: seq<nat>, a: BatchAnswer, remote: RemoteMemory,
                     before: Memory, first: nat, after: Memory, next: nat, owner: Owner, posts: map<nat, Data>,
                     res: seq<Option<nat>>, ptes0: map<nat, nat>, ptes: map<nat, nat>)
    requires DistinctPages(addrs) && Bounded(before, first) && Backed(ptes0, before.live)
    requires BatchDone(WantAll(d, addrs, remote), a, before, first, after, next, owner, posts, res)
    requires Inserted(ptes0, ptes, addrs, res, |res|)
    ensures Backed(ptes, after.live)
    ensures FetchedOf(ptes, after) == FetchStep(d, addrs, a, remote, FetchedOf(ptes0, before))
  {
    var w, confirmed := WantAll(d, addrs, remote), Confirmed(WantAll(d, addrs, remote), a, before.queue);
    var pages := PagesAt(addrs, FilledSlots(w, confirmed));
    InsertedExtends(ptes0, ptes, w, confirmed, addrs, owner, res);
    BatchSeenThrough(d, addrs, a, remote, pages, before, first, after, next, owner, posts, ptes0, ptes);
    NewPages(w, a, owner, posts, before, first, next);
    LeakGrows(ptes0, ptes, w, confirmed, addrs, owner, before.live, after.live);
    SameKeysSeen(d, addrs, a, remote, ptes0, before);
    StepSeen(d, addrs, a, remote, FetchedOf(ptes0, before), ptes0.Keys, confirmed);
  }

  /** Reads one batch and offers each page to the page table, as both blocks of `eager_fetch_vma` do. */
  method FetchBatch(d: HeapDescriptor, addrs: seq<nat>, a: BatchAnswer, remote: RemoteMemory, pool: PagePool,
                    space: AddressSpace)
    requires pool.Valid() && Backed(space.ptes, pool.live) && DistinctPages(addrs)
    modifies pool, space
    ensures pool.Valid() && Backed(space.ptes, pool.live)
    ensures FetchedOf(space.ptes, pool.State())
            == FetchStep(d, addrs, a, remote, FetchedOf(old(space.ptes), old(pool.State())))
  {
    ghost var ptes, before, first := space.ptes, pool.State(), pool.next;
    var pageList, owner, posts := BatchReadRemotePages(d, addrs, a, remote, pool);
    InsertPages(addrs, pageList, space);
    BatchFetches(d, addrs, a, remote, before, first, pool.State(), pool.next, owner, posts, pageList, ptes, space.ptes);
  }

  // ---------------------------------------------------------------------------
  // One VMA
  // ---------------------------------------------------------------------------

  /** The number of pages of a VMA, and the first k of their addresses. */
  function PageCount(v: Vma): nat
  {
    if v.end <= v.start then 0 else (v.end - v.start + PAGE - 1) / PAGE
  }

  function PageList(v: Vma, k: nat): (s: seq<nat>)
    ensures |s| == k
    ensures forall i :: 0 <= i < k ==> s[i] == v.start + PAGE * i
  {
    if k == 0 then [] else PageList(v, k - 1) + [v.start + PAGE * (k - 1)]
  }

  /** The addresses a prefetch of this VMA ever asks for: the buffer fills once and is never cleared. */
  function Prefix(v: Vma): seq<nat>
  {
    PageList(v, if PageCount(v) < BATCH then PageCount(v) else BATCH)
  }

  /** How often that same buffer is read. */
  function BatchCount(v: Vma): nat
  {
    if PageCount(v) == 0 then 0
    else if PageCount(v) < BATCH then 1
    else PageCount(v) - (BATCH - 2)
  }

  lemma PageCountBound(v: Vma, k: nat)
    ensures v.start + PAGE * k < v.end <==> k < PageCount(v)
  {
  }

  lemma PrefixDistinct(v: Vma)
    ensures DistinctPages(Prefix(v))
  {
    forall i, j | 0 <= i < j < |Prefix(v)|
      ensures Prefix(v)[i] / PAGE != Prefix(v)[j] / PAGE
    {
      assert v.start + PAGE * j >= v.start + PAGE * i + PAGE;
    }
  }

  /** The same buffer read once for every answer. */
  function FetchAgain(d: HeapDescriptor, addrs: seq<nat>, answers: seq<BatchAnswer>, remote: RemoteMemory,
                      s: Fetched): Fetched
  {
    if answers == [] then s
    else FetchStep(d, addrs, answers[|answers| - 1], remote, FetchAgain(d, addrs, answers[..|answers| - 1], remote, s))
  }

  lemma FetchOnceMore(d: HeapDescriptor, addrs: seq<nat>, answers: seq<BatchAnswer>, k: nat, remote: RemoteMemory,
                      s: Fetched)
    requires k < |answers|
    ensures FetchAgain(d, addrs, answers[..k + 1], remote, s)
            == FetchStep(d, addrs, answers[k], remote, FetchAgain(d, addrs, answers[..k], remote, s))
  {
    assert answers[..k + 1][..k] == answers[..k];
  }

  /** How things stand when the buffer has been read once for each of the first `batches` answers. */
  ghost predicate FetchedSoFar(d: HeapDescriptor, v: Vma, answers: seq<BatchAnswer>, batches: nat, remote: RemoteMemory,
                               s: Fetched, now: Fetched)
  {
    batches <= |answers| && now == FetchAgain(d, Prefix(v), answers[..batches], remote, s)
  }

  /** After k pages the buffer holds the first of them, up to twelve, and was read once per page from the twelfth on. */
  ghost predicate LoopAt(v: Vma, k: nat, addr: nat, addrBuf: seq<nat>, batches: nat)
  {
    && k <= PageCount(v) && addr == v.start + PAGE * k
    && addrBuf == PageList(v, if k < BATCH then k else BATCH)
    && batches == if k < BATCH then 0 else k - (BATCH - 1)
  }

  lemma LoopStarts(d: HeapDescriptor, v: Vma, answers: seq<BatchAnswer>, remote: RemoteMemory, s: Fetched)
    ensures LoopAt(v, 0, v.start, [], 0) && FetchedSoFar(d, v, answers, 0, remote, s, s)
  {
    assert answers[..0] == [];
  }

  lemma AllFetched(d: HeapDescriptor, v: Vma, answers: seq<BatchAnswer>, batches: nat, remote: RemoteMemory,
                   s: Fetched, now: Fetched)
    requires FetchedSoFar(d, v, answers, batches, remote, s, now) && batches == |answers|
    ensures now == FetchAgain(d, Prefix(v), answers, remote, s)
  {
    assert answers[..batches] == answers;
  }

  lemma LoopTurn(v: Vma, k: nat, addr: nat, addrBuf: seq<nat>, batches: nat)
    requires LoopAt(v, k, addr, addrBuf, batches) && addr < v.end
    ensures k < PageCount(v) && |addrBuf| <= BATCH
    ensures var more := if |addrBuf| < BATCH then addrBuf + [addr] else addrBuf;
            && LoopAt(v, k + 1, addr + PAGE, more, if |more| == BATCH then batches + 1 else batches)
            && (|more| == BATCH ==> more == Prefix(v) && batches < BatchCount(v))
  {
    PageCountBound(v, k);
  }

  lemma LoopEnds(v: Vma, k: nat, addr: nat, addrBuf: seq<nat>, batches: nat)
    requires LoopAt(v, k, addr, addrBuf, batches) && addr >= v.end
    ensures addrBuf == Prefix(v)
    ensures BatchCount(v) == if addrBuf == [] then batches else batches + 1
  {
    PageCountBound(v, k);
  }

  method ReadAgain(d: HeapDescriptor, ghost v: Vma, addrBuf: seq<nat>, answers: seq<BatchAnswer>, batches: nat,
                   remote: RemoteMemory, pool: PagePool, space: AddressSpace, ghost s: Fetched)
    requires pool.Valid() && Backed(space.ptes, pool.live) && batches < |answers| && addrBuf == Prefix(v)
    requires FetchedSoFar(d, v, answers, batches, remote, s, FetchedOf(space.ptes, pool.State()))
    modifies pool, space
    ensures pool.Valid() && Backed(space.ptes, pool.live)
    ensures FetchedSoFar(d, v, answers, batches + 1, remote, s, FetchedOf(space.ptes, pool.State()))
  {
    PrefixDistinct(v);
    FetchOnceMore(d, addrBuf, answers, batches, remote, s);
    FetchBatch(d, addrBuf, answers[batches], remote, pool, space);
  }

  /**
    `eager_fetch_vma`: the buffer is filled with the first twelve addresses and read again for every further
    page, under every outcome of every batch.
   */
  method EagerFetchVma(d: HeapDescriptor, v: Vma, answers: seq<BatchAnswer>, remote: RemoteMemory,
                       pool: PagePool, space: AddressSpace)
    requires |answers| == BatchCount(v)
    requires pool.Valid() && Backed(space.ptes, pool.live)
    modifies pool, space
    ensures pool.Valid() && Backed(space.ptes, pool.live)
    ensures FetchedOf(space.ptes, pool.State())
            == FetchAgain(d, Prefix(v), answers, remote, FetchedOf(old(space.ptes), old(pool.State())))
  {
    var addrBuf: seq<nat> := [];
    var addr: nat := v.start;
    var batches := 0;
    ghost var k, s := 0, FetchedOf(space.ptes, pool.State());
    LoopStarts(d, v, answers, remote, s);
    while addr < v.end
      invariant LoopAt(v, k, addr, addrBuf, batches)
      invariant pool.Valid() && Backed(space.ptes, pool.live)
      invariant FetchedSoFar(d, v, answers, batches, remote, s, FetchedOf(space.ptes, pool.State()))
      decreases v.end - addr
    {
      LoopTurn(v, k, addr, addrBuf, batches);
      if |addrBuf| < BATCH {
        addrBuf := addrBuf + [addr];
      }
      assert LoopAt(v, k + 1, addr + PAGE, addrBuf, if |addrBuf| == BATCH then batches + 1 else batches);
      if |addrBuf| == BATCH {
        ReadAgain(d, v, addrBuf, answers, batches, remote, pool, space, s);
        batches := batches + 1;
      }
      addr, k := addr + PAGE, k + 1;
    }
    LoopEnds(v, k, addr, addrBuf, batches);
    if addrBuf != [] {
      ReadAgain(d, v, addrBuf, answers, batches, remote, pool, space, s);
      batches := batches + 1;
    }
    AllFetched(d, v, answers, batches, remote, s, FetchedOf(space.ptes, pool.State()));
  }

  // ---------------------------------------------------------------------------
  // The whole heap
  // ---------------------------------------------------------------------------

  /** How the first k VMAs of an eager apply come out; a VMA that cannot be mapped is skipped. */
  function FetchHeap(d: HeapDescriptor, mapped: seq<bool>, answers: seq<seq<BatchAnswer>>, k: nat, remote: RemoteMemory,
                     s: Fetched): Fetched
    requires k <= |d.vma| == |mapped| == |answers|
  {
    if k == 0 then s
    else
      var before := FetchHeap(d, mapped, answers, k - 1, remote, s);
      if mapped[k - 1] then FetchAgain(d, Prefix(d.vma[k - 1]), answers[k - 1], remote, before) else before
  }

  /** One mapping outcome for each VMA, and one answer for each of its batches. */
  ghost predicate Outcomes(d: HeapDescriptor, mapped: seq<bool>, answers: seq<seq<BatchAnswer>>)
  {
    && |mapped| == |d.vma| == |answers|
    && forall i :: 0 <= i < |answers| ==> |answers[i]| == BatchCount(d.vma[i])
  }

  /** One VMA of an eager apply has taken x to y. */
  ghost predicate VmaDone(d: HeapDescriptor, mapped: seq<bool>, answers: seq<seq<BatchAnswer>>, i: nat, remote: RemoteMemory,
                          x: Fetched, y: Fetched)
    requires Outcomes(d, mapped, answers) && i < |d.vma|
  {
    y == if mapped[i] then FetchAgain(d, Prefix(d.vma[i]), answers[i], remote, x) else x
  }

  lemma {:induction false} VmasDone(d: HeapDescriptor, mapped: seq<bool>, answers: seq<seq<BatchAnswer>>, k: nat,
                                    remote: RemoteMemory, states: seq<Fetched>)
    requires Outcomes(d, mapped, answers) && k <= |d.vma| && k < |states|
    requires forall i :: 0 <= i < k ==> VmaDone(d, mapped, answers, i, remote, states[i], states[i + 1])
    ensures states[k] == FetchHeap(d, mapped, answers, k, remote, states[0])
  {
    if k != 0 {
      VmasDone(d, mapped, answers, k - 1, remote, states);
      assert VmaDone(d, mapped, answers, k - 1, remote, states[k - 1], states[k - 1 + 1]);
    }
  }

  /** One VMA: mapped and prefetched, or skipped. */
  method ApplyVma(d: HeapDescriptor, mapped: seq<bool>, answers: seq<seq<BatchAnswer>>, i: nat, remote: RemoteMemory,
                  pool: PagePool, space: AddressSpace)
    requires Outcomes(d, mapped, answers) && i < |d.vma|
    requires pool.Valid() && Backed(space.ptes, pool.live)
    modifies pool, space
    ensures pool.Valid() && Backed(space.ptes, pool.live)
    ensures VmaDone(d, mapped, answers, i, remote, FetchedOf(old(space.ptes), old(pool.State())),
                    FetchedOf(space.ptes, pool.State()))
  {
    if mapped[i] {
      EagerFetchVma(d, d.vma[i], answers[i], remote, pool, space);
    }
  }

  /** `apply_to` in both modes. */
  method ApplyTo(d: HeapDescriptor, eager: bool, mapped: seq<bool>, answers: seq<seq<BatchAnswer>>, remote: RemoteMemory,
                 pool: PagePool, space: AddressSpace)
    requires Outcomes(d, mapped, answers)
    requires pool.Valid() && Backed(space.ptes, pool.live)
    modifies pool, space
    ensures pool.Valid() && Backed(space.ptes, pool.live)
    ensures !eager ==> space.ptes == old(space.ptes) && pool.State() == old(pool.State())
    ensures eager ==>
              FetchedOf(space.ptes, pool.State())
              == FetchHeap(d, mapped, answers, |d.vma|, remote, FetchedOf(old(space.ptes), old(pool.State())))
  {
    if eager {
      ghost var states := [FetchedOf(space.ptes, pool.State())];
      for i := 0 to |d.vma|
        invariant pool.Valid() && Backed(space.ptes, pool.live)
        invariant |states| == i + 1 && states[0] == FetchedOf(old(space.ptes), old(pool.State()))
        invariant states[i] == FetchedOf(space.ptes, pool.State())
        invariant forall j :: 0 <= j < i ==> VmaDone(d, mapped, answers, j, remote, states[j], states[j + 1])
      {
        ApplyVma(d, mapped, answers, i, remote, pool, space);
        states := states + [FetchedOf(space.ptes, pool.State())];
      }
      VmasDone(d, mapped, answers, |d.vma|, remote, states);
    }
  }
}
