/**
  Serving a pulled heap page by page: single reads and the page-fault path
  (dmerge/src/descriptors/heap.rs, dmerge/src/core_syscall_handler.rs).
 */
module RemotePaging {
  import opened Words
  import opened Descriptor

  type Data = seq<Byte>

  /** A local page either holds the data of a completed remote read, or nothing that can be relied on. */
  datatype Content = Filled(data: Data) | Unfilled

  /** The frame at a physical address of the machine that an RDMA descriptor names, at read time. */
  type RemoteMemory = (seq<Byte>, nat) -> Data

  function RemoteFrame(d: HeapDescriptor, va: nat, remote: RemoteMemory): Data
    requires Lookup(d, va).Some?
  {
    remote(d.machineInfo, Lookup(d, va).value)
  }

  /**
    The READs posted on this CPU's send queue and not yet known to be done, each with the data it delivers.
    A group ends with a signalled request, whose completion tells that the whole group and all before it are
    done; `open` are the requests posted since the last signalled one.
   */
  datatype SendQueue = SendQueue(groups: seq<map<nat, Data>>, open: map<nat, Data>)

  const IDLE := SendQueue([], map[])

  function WithPost(q: SendQueue, page: nat, data: Data, signalled: bool): SendQueue
  {
    var open := q.open[page := data];
    if signalled then SendQueue(q.groups + [open], map[]) else q.(open := open)
  }

  /** Pages in use with their contents, and the READs under way into them. */
  datatype Memory = Memory(live: map<nat, Content>, queue: SendQueue)

  /** No page from `next` on was ever handed out. */
  ghost predicate Bounded(m: Memory, next: nat)
  {
    && (forall p :: p in m.live ==> p < next)
    && (forall p :: p in m.queue.open ==> p < next)
    && (forall i, p :: 0 <= i < |m.queue.groups| && p in m.queue.groups[i] ==> p < next)
  }

  function Completed(live: map<nat, Content>, done: map<nat, Data>): map<nat, Content>
  {
    map p | p in live :: if p in done then Filled(done[p]) else live[p]
  }

  /** The kernel's pages in use by this module, and the READs under way into them. */
  class PagePool {
    var live: map<nat, Content>
    var queue: SendQueue
    var next: nat

    ghost function State(): Memory
      reads this
    {
      Memory(live, queue)
    }

    ghost predicate Valid()
      reads this
    {
      Bounded(State(), next)
    }

    constructor ()
      ensures Valid() && live == map[] && queue == IDLE
    {
      live, queue, next := map[], IDLE, 0;
    }

    method Alloc() returns (p: nat)
      requires Valid()
      modifies this
      ensures Valid()
      ensures p == old(next) && next == p + 1
      ensures State() == Memory(old(live)[p := Unfilled], old(queue))
    {
      p := next;
      live := live[p := Unfilled];
      next := next + 1;
    }

    method Free(p: nat)
      requires Valid() && p in live
      modifies this`live
      ensures Valid()
      ensures live == old(live) - {p}
    {
      live := live - {p};
    }

    /** A single awaited READ has written this page. */
    method Fill(p: nat, data: Data)
      requires Valid() && p in live
      modifies this`live
      ensures Valid()
      ensures live == old(live)[p := Filled(data)]
    {
      live := live[p := Filled(data)];
    }

    method Post(page: nat, data: Data, signalled: bool)
      requires Valid() && page < next
      modifies this`queue
      ensures Valid()
      ensures queue == WithPost(old(queue), page, data, signalled)
    {
      queue := WithPost(queue, page, data, signalled);
    }

    /** Polls for one completion: the oldest one that is signalled. Without one the wait times out. */
    method Wait(ok: bool) returns (confirmed: bool)
      requires Valid()
      modifies this`live, this`queue
      ensures Valid()
      ensures confirmed == (ok && old(queue).groups != [])
      ensures confirmed ==>
                && live == Completed(old(live), old(queue).groups[0])
                && queue == old(queue).(groups := old(queue).groups[1..])
      ensures !confirmed ==> live == old(live) && queue == old(queue)
    {
      confirmed := ok && queue.groups != [];
      if confirmed {
        live := Completed(live, queue.groups[0]);
        queue := queue.(groups := queue.groups[1..]);
      }
    }
  }

  // ---------------------------------------------------------------------------
  // One page
  // ---------------------------------------------------------------------------

  /** `read_remote_page`: a page is kept exactly when the address is mapped and the read succeeds. */
  method ReadRemotePage(d: HeapDescriptor, va: nat, readOk: bool, remote: RemoteMemory, pool: PagePool)
    returns (page: Option<nat>)
    requires pool.Valid()
    modifies pool
    ensures pool.Valid() && pool.queue == old(pool.queue)
    ensures page.Some? <==> Lookup(d, va).Some? && readOk
    ensures page.Some? ==>
              page.value !in old(pool.live) && pool.live == old(pool.live)[page.value := Filled(RemoteFrame(d, va, remote))]
    ensures page.None? ==> pool.live == old(pool.live)
    ensures page.Some? ==>
              && va / 4096 in d.pageTable
              && pool.live[page.value] == Filled(remote(d.machineInfo, d.pageTable[va / 4096]))
  {
    var pa := Lookup(d, va);
    if pa.None? {
      return None;
    }
    var p := pool.Alloc();
    if readOk {
      pool.Fill(p, remote(d.machineInfo, pa.value));
      return Some(p);
    }
    pool.Free(p);
    return None;
  }

  // ---------------------------------------------------------------------------
  // Page faults
  // ---------------------------------------------------------------------------

  /** How the network answers for one heap: access info can be built, and the read completes. */
  datatype Answer = Answer(access: bool, read: bool)

  predicate Serves(d: HeapDescriptor, a: Answer, va: nat) {
    Lookup(d, va).Some? && a.access && a.read
  }

  /** The earliest-pulled heap that maps the address and reads successfully. */
  function FirstServing(heaps: seq<HeapDescriptor>, answers: seq<Answer>, va: nat): (r: Option<nat>)
    requires |heaps| == |answers|
    ensures r.Some? ==> r.value < |heaps| && Serves(heaps[r.value], answers[r.value], va)
    ensures r.Some? ==> forall k :: 0 <= k < r.value ==> !Serves(heaps[k], answers[k], va)
    ensures r.None? ==> forall k :: 0 <= k < |heaps| ==> !Serves(heaps[k], answers[k], va)
    decreases |heaps|
  {
    if heaps == [] then None
    else if Serves(heaps[0], answers[0], va) then Some(0)
    else match FirstServing(heaps[1..], answers[1..], va)
      case None => None
      case Some(k) =>
        assert forall j :: 1 <= j <= k ==> heaps[j] == heaps[1..][j - 1] && answers[j] == answers[1..][j - 1];
        Some(k + 1)
  }

  /** Heap k has the page, can be reached and is read, and no heap before it is all of that. */
  ghost predicate IsEarliest(heaps: seq<HeapDescriptor>, answers: seq<Answer>, va: nat, k: nat)
    requires k < |heaps| == |answers|
  {
    && va / 4096 in heaps[k].pageTable && answers[k].access && answers[k].read
    && forall j :: 0 <= j < k ==> va / 4096 !in heaps[j].pageTable || !answers[j].access || !answers[j].read
  }

  datatype FaultResult = Page(page: nat) | Sigsegv

  /**
    `handle_page_fault`: the page comes from the earliest heap that maps the address and reads; the fault is
    fatal exactly when there is none. One page more is live when the fault is served, none otherwise.
   */
  method HandlePageFault(heaps: seq<HeapDescriptor>, answers: seq<Answer>, va: nat, remote: RemoteMemory, pool: PagePool)
    returns (r: FaultResult)
    requires |heaps| == |answers| && pool.Valid()
    modifies pool
    ensures pool.Valid() && pool.queue == old(pool.queue)
    ensures r.Sigsegv? <==> forall k :: 0 <= k < |heaps| ==> !Serves(heaps[k], answers[k], va)
    ensures r.Sigsegv? ==> pool.live == old(pool.live)
    ensures r.Sigsegv? <==>
              forall k :: 0 <= k < |heaps| ==> va / 4096 !in heaps[k].pageTable || !answers[k].access || !answers[k].read
    ensures r.Page? ==>
              exists k :: 0 <= k < |heaps| && IsEarliest(heaps, answers, va, k)
                && pool.live == old(pool.live)[r.page := Filled(remote(heaps[k].machineInfo, heaps[k].pageTable[va / 4096]))]
    ensures r.Page? ==>
              && FirstServing(heaps, answers, va).Some?
              && r.page !in old(pool.live)
              && pool.live == old(pool.live)[r.page :=
                   Filled(RemoteFrame(heaps[FirstServing(heaps, answers, va).value], va, remote))]
  {
    var newPage: Option<nat> := None;
    for i := 0 to |heaps|
      invariant pool.Valid() && newPage.None? && pool.live == old(pool.live) && pool.queue == old(pool.queue)
      invariant forall k :: 0 <= k < i ==> !Serves(heaps[k], answers[k], va)
    {
      var curPage: Option<nat> := None;
      if Lookup(heaps[i], va).Some? && answers[i].access {
        curPage := ReadRemotePage(heaps[i], va, answers[i].read, remote, pool);
      }
      if curPage.Some? {
        newPage := curPage;
        assert FirstServing(heaps, answers, va) == Some(i);
        assert IsEarliest(heaps, answers, va, i);
        break;
      }
    }
    match newPage
    case Some(p) => return Page(p);
    case None => return Sigsegv;
  }

  function AllWell(n: nat): (a: seq<Answer>)
    ensures |a| == n
  {
    seq(n, _ => Answer(true, true))
  }

  /** The data a fault delivers when the network is well. */
  function Served(heaps: seq<HeapDescriptor>, va: nat, remote: RemoteMemory): Option<Data>
  {
    match FirstServing(heaps, AllWell(|heaps|), va)
    case None => None
    case Some(i) => Some(RemoteFrame(heaps[i], va, remote))
  }

  /** A heap that cannot be reached or read, or does not have the page, is never served from. */
  lemma ServesOnlyReachable(heaps: seq<HeapDescriptor>, answers: seq<Answer>, va: nat)
    requires |heaps| == |answers|
    ensures match FirstServing(heaps, answers, va)
            case Some(k) => k < |heaps| && IsEarliest(heaps, answers, va, k)
            case None =>
               forall k :: 0 <= k < |heaps| ==> va / 4096 !in heaps[k].pageTable || !answers[k].access || !answers[k].read
  {
    if FirstServing(heaps, answers, va).Some? {
      var k := FirstServing(heaps, answers, va).value;
      assert Serves(heaps[k], answers[k], va);
      forall j | 0 <= j < k
        ensures va / 4096 !in heaps[j].pageTable || !answers[j].access || !answers[j].read
      {
        assert !Serves(heaps[j], answers[j], va);
      }
    } else {
      forall k | 0 <= k < |heaps|
        ensures va / 4096 !in heaps[k].pageTable || !answers[k].access || !answers[k].read
      {
        assert !Serves(heaps[k], answers[k], va);
      }
    }
  }

  /** When the network is well, the data are those of the frame that the first heap with the page names. */
  lemma ServedIsFirstFrame(heaps: seq<HeapDescriptor>, va: nat, remote: RemoteMemory)
    ensures match Served(heaps, va, remote)
            case None => forall k :: 0 <= k < |heaps| ==> va / 4096 !in heaps[k].pageTable
            case Some(data) =>
              exists k :: 0 <= k < |heaps| && va / 4096 in heaps[k].pageTable
                && (forall j :: 0 <= j < k ==> va / 4096 !in heaps[j].pageTable)
                && data == remote(heaps[k].machineInfo, heaps[k].pageTable[va / 4096])
  {
    ServesOnlyReachable(heaps, AllWell(|heaps|), va);
    if Served(heaps, va, remote).Some? {
      var k := FirstServing(heaps, AllWell(|heaps|), va).value;
      assert IsEarliest(heaps, AllWell(|heaps|), va, k);
      assert forall j :: 0 <= j < k ==> AllWell(|heaps|)[j].access && AllWell(|heaps|)[j].read;
    }
  }

  /** No address is mapped by two different descriptors. */
  ghost predicate DisjointHeaps(heaps: seq<HeapDescriptor>)
  {
    forall d, e, p :: d in heaps && e in heaps && p in d.pageTable && p in e.pageTable ==> d == e
  }

  lemma ServedByMapping(heaps: seq<HeapDescriptor>, d: HeapDescriptor, va: nat, remote: RemoteMemory)
    requires DisjointHeaps(heaps) && d in heaps && Lookup(d, va).Some?
    ensures Served(heaps, va, remote) == Some(RemoteFrame(d, va, remote))
  {
    var i :| 0 <= i < |heaps| && heaps[i] == d;
    assert Serves(heaps[i], AllWell(|heaps|)[i], va);
    var k := FirstServing(heaps, AllWell(|heaps|), va).value;
    assert heaps[k] in heaps && va / PAGE in heaps[k].pageTable;
  }

  /** With disjoint heaps the data served depends neither on pull order nor on repeated pulls. */
  lemma PullOrderIsIrrelevant(heaps: seq<HeapDescriptor>, others: seq<HeapDescriptor>, va: nat, remote: RemoteMemory)
    requires DisjointHeaps(heaps)
    requires forall d :: d in heaps <==> d in others
    ensures Served(heaps, va, remote) == Served(others, va, remote)
  {
    if k :| 0 <= k < |heaps| && Lookup(heaps[k], va).Some? {
      assert heaps[k] in heaps;
      ServedByMapping(heaps, heaps[k], va, remote);
      ServedByMapping(others, heaps[k], va, remote);
    } else {
      forall k | 0 <= k < |others|
        ensures Lookup(others[k], va).None?
      {
        assert others[k] in others;
        var j :| 0 <= j < |heaps| && heaps[j] == others[k];
      }
    }
  }
}
