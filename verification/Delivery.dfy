/**
  What pulls deliver over all runs, and what the delivered heap then does: translation, page faults, and the
  exact limits of both.
 */
module Delivery {
  import opened Words
  import opened Descriptor
  import opened ShadowHeap
  import opened Translation
  import opened Kernel
  import opened RemotePaging
  import opened Protocol

  // ---------------------------------------------------------------------------
  // Descriptor delivery
  // ---------------------------------------------------------------------------

  /** The bytes behind a hint that is still live never changed. */
  lemma LiveBytesAreStable(l: Layout, s: System, es: seq<Event>, m: nat, h: nat)
    requires l.Valid() && Inv(s) && ValidRun(l, s, es)
    requires Resolves(s, m, h) && Resolves(Run(l, s, es), m, h)
    ensures var t, b := Run(l, s, es), s.nodes[m].registry[h];
            && t.nodes[m].registry[h] == b
            && ReadBuffer(t.nodes[m], b.pa, |b.bytes|) == ReadBuffer(s.nodes[m], b.pa, |b.bytes|) == b.bytes
  {
    RunKeeps(l, s, es);
    var t := Run(l, s, es);
    assert NodeOk(s.nodes[m]) && NodeOk(t.nodes[m]);
    assert Evolves(s.nodes[m], t.nodes[m]);
  }

  /** A READ that happens while the queried hint is registered returns the registered bytes. */
  lemma ReadReturnsRegistered(s: System, p: Pull)
    requires Inv(s) && PullOk(s, p) && p.hint in s.nodes[p.source].registry
    ensures ReadBuffer(s.nodes[p.source], p.pa, p.sz) == s.nodes[p.source].registry[p.hint].bytes
  {
    assert NodeOk(s.nodes[p.source]);
  }

  /** The descriptor `d` is what was registered under (node, hint). */
  ghost predicate Registered(l: Layout, s: System, node: nat, hint: nat, d: ParentDescriptor)
  {
    Resolves(s, node, hint) && WellFormed(l, d) && s.nodes[node].registry[hint].bytes == Encode(d)
  }

  /** What a completed READ of pull `id` makes of its caller. */
  ghost function AfterRead(l: Layout, s: System, id: nat): Caller
    requires l.Valid() && Enabled(s, Read(id, Completed))
  {
    Step(l, s, Read(id, Completed)).callers[s.pulls[id].fd]
  }

  lemma AfterReadIs(l: Layout, s: System, id: nat)
    requires l.Valid() && Enabled(s, Read(id, Completed))
    ensures var p := s.pulls[id];
            AfterRead(l, s, id) == Deliver(l, s.callers[p.fd], p.hint, ReadBuffer(s.nodes[p.source], p.pa, p.sz), true)
  {
  }

  lemma DeliverDecodes(l: Layout, c: Caller, hint: nat, bytes: seq<Byte>, h: HeapDescriptor)
    requires l.Valid() && Decode(l, bytes) == Some(h)
    ensures Deliver(l, c, hint, bytes, true) == c.(publicHeaps := c.publicHeaps + [HeapData(hint, h)])
  {
  }

  /** A pull whose READ happens while the hint is registered delivers exactly the registered descriptor. */
  lemma DeliveryIsExact(l: Layout, s: System, id: nat, d: ParentDescriptor)
    requires l.Valid() && Inv(s) && Enabled(s, Read(id, Completed))
    requires Registered(l, s, s.pulls[id].source, s.pulls[id].hint, d)
    ensures var c := s.callers[s.pulls[id].fd];
            AfterRead(l, s, id) == c.(publicHeaps := c.publicHeaps + [HeapData(s.pulls[id].hint, Expand(d))])
  {
    var p := s.pulls[id];
    assert PullOk(s, p);
    ReadReturnsRegistered(s, p);
    RoundTrip(l, d, []);
    AfterReadIs(l, s, id);
    DeliverDecodes(l, s.callers[p.fd], p.hint, Encode(d), Expand(d));
  }

  lemma StillRegistered(l: Layout, s: System, es: seq<Event>, m: nat, h: nat, d: ParentDescriptor)
    requires l.Valid() && Inv(s) && ValidRun(l, s, es)
    requires Registered(l, s, m, h, d) && Resolves(Run(l, s, es), m, h)
    ensures Registered(l, Run(l, s, es), m, h, d)
  {
    LiveBytesAreStable(l, s, es, m, h);
  }

  function Last(c: Caller): Option<HeapData>
  {
    if c.publicHeaps == [] then None else Some(c.publicHeaps[|c.publicHeaps| - 1])
  }

  lemma LastDelivered(l: Layout, s: System, id: nat, d: ParentDescriptor)
    requires l.Valid() && Inv(s) && Enabled(s, Read(id, Completed))
    requires Registered(l, s, s.pulls[id].source, s.pulls[id].hint, d)
    ensures Last(AfterRead(l, s, id)) == Some(HeapData(s.pulls[id].hint, Expand(d)))
  {
    DeliveryIsExact(l, s, id, d);
  }

  predicate SameHeap(p: Pull, q: Pull) {
    p.source == q.source && p.hint == q.hint
  }

  /** Two pulls of one (machine, hint), at any two points of a run and by any callers, deliver the same heap. */
  lemma PullsAgree(l: Layout, s: System, id1: nat, es: seq<Event>, id2: nat, d: ParentDescriptor)
    requires l.Valid() && Inv(s) && ValidRun(l, s, es)
    requires Enabled(s, Read(id1, Completed)) && Enabled(Run(l, s, es), Read(id2, Completed))
    requires SameHeap(s.pulls[id1], Run(l, s, es).pulls[id2])
    requires Registered(l, s, s.pulls[id1].source, s.pulls[id1].hint, d)
    requires Resolves(Run(l, s, es), s.pulls[id1].source, s.pulls[id1].hint)
    ensures Last(AfterRead(l, s, id1)) == Last(AfterRead(l, Run(l, s, es), id2))
            == Some(HeapData(s.pulls[id1].hint, Expand(d)))
  {
    RunKeeps(l, s, es);
    StillRegistered(l, s, es, s.pulls[id1].source, s.pulls[id1].hint, d);
    LastDelivered(l, s, id1, d);
    LastDelivered(l, Run(l, s, es), id2, d);
  }

  /** The same from the start: in every run of any machines, whatever happened before. */
  lemma DeliveryOverRuns(l: Layout, n: nat, es: seq<Event>, id: nat, d: ParentDescriptor)
    requires l.Valid() && ValidRun(l, Initial(n), es) && Enabled(Run(l, Initial(n), es), Read(id, Completed))
    requires var s := Run(l, Initial(n), es); Registered(l, s, s.pulls[id].source, s.pulls[id].hint, d)
    ensures var s := Run(l, Initial(n), es);
            Last(AfterRead(l, s, id)) == Some(HeapData(s.pulls[id].hint, Expand(d)))
  {
    InitialOk(l, n);
    RunKeeps(l, Initial(n), es);
    LastDelivered(l, Run(l, Initial(n), es), id, d);
  }

  lemma RegisteredInto(l: Layout, s: System, fd: Fd, bytes: seq<Byte>, pa: nat)
    requires l.Valid() && CanFile(s, fd, bytes, pa) && s.callers[fd].privateHint.NoHint?
    ensures var t := Step(l, s, DoRegister(fd, bytes, pa));
            && |t.nodes| == |s.nodes| && t.pulls == s.pulls && t.callers.Keys == s.callers.Keys
            && ReadBuffer(t.nodes[fd.node], pa, |bytes|) == bytes
  {
  }

  /**
    The proviso cannot be dropped: once the hint is gone, whoever registers an equally long descriptor into
    the freed buffer has it delivered under the old hint.
   */
  lemma LateReadDeliversAnotherHeap(l: Layout, s: System, id: nat, fd: Fd, d: ParentDescriptor)
    requires l.Valid() && Inv(s) && Enabled(s, Read(id, Completed))
    requires !Resolves(s, s.pulls[id].source, s.pulls[id].hint)
    requires WellFormed(l, d) && |Encode(d)| == s.pulls[id].sz
    requires fd.node == s.pulls[id].source && CanFile(s, fd, Encode(d), s.pulls[id].pa) && s.callers[fd].privateHint.NoHint?
    ensures var t := Step(l, s, DoRegister(fd, Encode(d), s.pulls[id].pa));
            && Enabled(t, Read(id, Completed))
            && Last(AfterRead(l, t, id)) == Some(HeapData(s.pulls[id].hint, Expand(d)))
  {
    var p, bytes := s.pulls[id], Encode(d);
    var t := Step(l, s, DoRegister(fd, bytes, p.pa));
    RegisteredInto(l, s, fd, bytes, p.pa);
    RoundTrip(l, d, []);
    AfterReadIs(l, t, id);
    DeliverDecodes(l, t.callers[p.fd], p.hint, bytes, Expand(d));
  }

  /**
    From registration on one machine to address translation on another: a heap pulled while its hint is
    registered looks every address up as the producer's page tables do, exactly when no present page is
    4 GiB or more into its VMA.
   */
  lemma PulledHeapTranslates(l: Layout, s: System, id: nat, vmas: seq<Vma>, base: nat, frames: Frames,
                             regs: seq<Byte>, rdma: seq<Byte>)
    requires l.Valid() && Inv(s) && Enabled(s, Read(id, Completed))
    requires AddressSpace(l, vmas, frames) && |regs| == l.regs && |rdma| == l.rdma
    requires Registered(l, s, s.pulls[id].source, s.pulls[id].hint, Shadow(vmas, base, frames, regs, rdma))
    ensures var chain, got := Chain(vmas, base), Last(AfterRead(l, s, id));
            && got.Some? && got.value.id == s.pulls[id].hint && got.value.descriptor.vma == chain
            && (Agrees(got.value.descriptor, chain, frames) <==> NoFarPage(chain, frames))
  {
    var d := Shadow(vmas, base, frames, regs, rdma);
    LastDelivered(l, s, id, d);
    ShadowIsWellFormed(l, vmas, base, frames, regs, rdma);
    ExpandedTranslation(d, frames);
  }

  /** What a fault reads when the producer's page tables answer: the frame there, or nothing. */
  ghost function ProducerData(chain: seq<Vma>, frames: Frames, va: nat, rdma: seq<Byte>,
                              remote: RemoteMemory): Option<Data>
  {
    match ProducerTranslate(chain, frames, va)
    case Some(pa) => Some(remote(rdma, pa))
    case None => None
  }

  /** No heap of this file maps an address of the chain. */
  ghost predicate MapNothingOf(heaps: seq<HeapDescriptor>, chain: seq<Vma>)
  {
    forall k, va: nat :: 0 <= k < |heaps| && InChain(chain, va) ==> Lookup(heaps[k], va).None?
  }

  lemma ServedByLast(heaps: seq<HeapDescriptor>, h: HeapDescriptor, va: nat, remote: RemoteMemory)
    requires forall k :: 0 <= k < |heaps| ==> Lookup(heaps[k], va).None?
    ensures Served(heaps + [h], va, remote) == if Lookup(h, va).Some? then Some(RemoteFrame(h, va, remote)) else None
  {
    var all := heaps + [h];
    assert all[|heaps|] == h;
    forall k | 0 <= k < |heaps|
      ensures Lookup(all[k], va).None?
    {
      assert all[k] == heaps[k];
    }
    assert Serves(all[|heaps|], AllWell(|all|)[|heaps|], va) <==> Lookup(h, va).Some?;
  }

  lemma LastDescriptor(heaps: seq<HeapData>, more: HeapData)
    ensures Descriptors(heaps + [more]) == Descriptors(heaps) + [more.descriptor]
  {
  }

  /** A far present page is in the chain, present on the producer, and not mapped by the consumer. */
  lemma FarPageIsMissing(d: ParentDescriptor, frames: Frames) returns (va: nat)
    requires ChainOk(d.vma) && d.pageTable == WalkAll(d.vma, frames) && !NoFarPage(d.vma, frames)
    ensures InChain(d.vma, va) && ProducerTranslate(d.vma, frames, va).Some? && Lookup(Expand(d), va).None?
  {
    var i, at: nat :| 0 <= i < |d.vma| && FarAt(d.vma[i], frames, at);
    AgreementNeedsNear(d.vma, frames, i, at);
    va := at;
  }

  /** A chain heap appended to heaps that map nothing of it serves faults as the producer would, under the same condition. */
  lemma AppendedHeapServes(heaps: seq<HeapDescriptor>, d: ParentDescriptor, frames: Frames, remote: RemoteMemory)
    requires ChainOk(d.vma) && d.pageTable == WalkAll(d.vma, frames) && MapNothingOf(heaps, d.vma)
    ensures (forall va: nat :: InChain(d.vma, va) ==>
               Served(heaps + [Expand(d)], va, remote) == ProducerData(d.vma, frames, va, d.machineInfo, remote))
            <==> NoFarPage(d.vma, frames)
  {
    var h := Expand(d);
    ExpandedTranslation(d, frames);
    if NoFarPage(d.vma, frames) {
      forall va: nat | InChain(d.vma, va)
        ensures Served(heaps + [h], va, remote) == ProducerData(d.vma, frames, va, d.machineInfo, remote)
      {
        ServedByLast(heaps, h, va, remote);
        assert Lookup(h, va) == ProducerTranslate(d.vma, frames, va);
      }
    } else {
      var va := FarPageIsMissing(d, frames);
      ServedByLast(heaps, h, va, remote);
      assert Served(heaps + [h], va, remote) != ProducerData(d.vma, frames, va, d.machineInfo, remote);
    }
  }

  /**
    From registration on one machine to page faults on another: after a pull delivered while the hint was
    registered, a fault in the shared VMAs gets the frame that the producer's page tables give for that address, and is fatal
    where they give none, exactly when no present page is 4 GiB or more into its VMA.
   */
  lemma PulledHeapServes(l: Layout, s: System, id: nat, vmas: seq<Vma>, base: nat, frames: Frames,
                         regs: seq<Byte>, rdma: seq<Byte>, remote: RemoteMemory)
    requires l.Valid() && Inv(s) && Enabled(s, Read(id, Completed))
    requires AddressSpace(l, vmas, frames) && |regs| == l.regs && |rdma| == l.rdma
    requires Registered(l, s, s.pulls[id].source, s.pulls[id].hint, Shadow(vmas, base, frames, regs, rdma))
    requires MapNothingOf(Descriptors(s.callers[s.pulls[id].fd].publicHeaps), Chain(vmas, base))
    ensures var chain, heaps := Chain(vmas, base), Descriptors(AfterRead(l, s, id).publicHeaps);
            (forall va: nat :: InChain(chain, va) ==>
               Served(heaps, va, remote) == ProducerData(chain, frames, va, rdma, remote))
            <==> NoFarPage(chain, frames)
  {
    var d, c := Shadow(vmas, base, frames, regs, rdma), s.callers[s.pulls[id].fd];
    DeliveryIsExact(l, s, id, d);
    LastDescriptor(c.publicHeaps, HeapData(s.pulls[id].hint, Expand(d)));
    ShadowIsWellFormed(l, vmas, base, frames, regs, rdma);
    AppendedHeapServes(Descriptors(c.publicHeaps), d, frames, remote);
  }

  // ---------------------------------------------------------------------------
  // Hints that pass through user space
  // ---------------------------------------------------------------------------

  /**
    A pull by the hint that C hands over for an issued id delivers the heap registered under that id as long as
    the id is below 2^32; from there on it asks for another, earlier id and delivers that one's heap.
   */
  lemma DeliveryThroughC(l: Layout, s: System, id: nat, issued: nat, d: ParentDescriptor)
    requires l.Valid() && Inv(s) && Enabled(s, Read(id, Completed))
    requires HintFromC(issued) == Some(s.pulls[id].hint)
    requires Registered(l, s, s.pulls[id].source, s.pulls[id].hint, d)
    ensures issued < TWO_32 ==> Last(AfterRead(l, s, id)) == Some(HeapData(issued, Expand(d)))
    ensures issued >= TWO_32 ==>
              s.pulls[id].hint < issued && Last(AfterRead(l, s, id)) == Some(HeapData(s.pulls[id].hint, Expand(d)))
  {
    HintSurvivesUserSpace(issued);
    LastDelivered(l, s, id, d);
  }

  /**
    From the answer of ioctl 0 to the pull: a process registers a heap, its answer travels through C to any consumer,
    and whatever runs meanwhile, a pull by it while the hint is registered delivers that heap.
   */
  lemma RegisterThenPull(l: Layout, s: System, fd: Fd, d: ParentDescriptor, pa: nat, es: seq<Event>, id: nat)
    requires l.Valid() && Inv(s) && WellFormed(l, d)
    requires CanFile(s, fd, Encode(d), pa) && s.callers[fd].privateHint.NoHint?
    requires ValidRun(l, Step(l, s, DoRegister(fd, Encode(d), pa)), es)
    requires var t, answer := Run(l, Step(l, s, DoRegister(fd, Encode(d), pa)), es),
                              AnsweredHint(s.nodes[fd.node], s.callers[fd], Encode(d), pa);
             && answer < 0x1_0000_0000 - 4095
             && Enabled(t, Read(id, Completed))
             && t.pulls[id].source == fd.node && HintFromC(answer) == Some(t.pulls[id].hint)
             && Resolves(t, fd.node, t.pulls[id].hint)
    ensures var t := Run(l, Step(l, s, DoRegister(fd, Encode(d), pa)), es);
            Last(AfterRead(l, t, id)) == Some(HeapData(s.nodes[fd.node].curId + 1, Expand(d)))
  {
    var begun := Step(l, s, DoRegister(fd, Encode(d), pa));
    var answer := AnsweredHint(s.nodes[fd.node], s.callers[fd], Encode(d), pa);
    RegisterAnswers(l, s, fd, Encode(d), pa);
    RegisterStepKeeps(l, s, fd, Encode(d), pa);
    HintSurvivesUserSpace(answer);
    RunKeeps(l, begun, es);
    StillRegistered(l, begun, es, fd.node, answer, d);
    LastDelivered(l, Run(l, begun, es), id, d);
  }

  // ---------------------------------------------------------------------------
  // A late READ
  // ---------------------------------------------------------------------------

  function Zeros(n: nat): (s: seq<Byte>)
    ensures |s| == n
  {
    seq(n, _ => 0)
  }

  /** One VMA of one page, present at this frame. */
  function OnePageHeap(l: Layout, frame: nat): ParentDescriptor
    requires l.Valid()
  {
    ParentDescriptor(Zeros(l.regs), [[Entry(0, frame)]], [Vma(0, PAGE, Zeros(l.vma - 16))], Zeros(l.rdma))
  }

  lemma OnePageLength(l: Layout, frame: nat)
    requires l.Valid() && frame < TWO_64
    ensures |Encode(OnePageHeap(l, frame))| == l.regs + 8 + l.vma + 24 + l.rdma
  {
    var d := OnePageHeap(l, frame);
    TrailerAligned(l, d);
    assert RecordOffset(d, 1) == RecordOffset(d, 0) + |EncodeVma(d.vma[0])| + TableLen(d.pageTable[0]);
  }

  lemma OnePageMaps(l: Layout, frame: nat)
    requires l.Valid()
    ensures Expand(OnePageHeap(l, frame)).pageTable == map[0 := frame]
  {
    var v, t := Vma(0, PAGE, Zeros(l.vma - 16)), [Entry(0, frame)];
    var none: seq<Vma>, rest: seq<seq<Entry>> := [], [];
    assert t[1..] == [] && [v][1..] == none && [t][1..] == rest;
    var pt: PageTable := map[0 := frame];
    assert MapEntries(map[], 0, t) == MapEntries(MapPage(map[], 0, frame), 0, []) == pt;
    assert MapTables(map[], [v], [t]) == MapTables(pt, none, rest) == pt;
  }

  lemma OnePageHeaps(l: Layout)
    requires l.Valid()
    ensures WellFormed(l, OnePageHeap(l, 1)) && WellFormed(l, OnePageHeap(l, 2))
    ensures |Encode(OnePageHeap(l, 1))| == |Encode(OnePageHeap(l, 2))|
    ensures Lookup(Expand(OnePageHeap(l, 1)), 0) == Some(1) && Lookup(Expand(OnePageHeap(l, 2)), 0) == Some(2)
  {
    TrailerAligned(l, OnePageHeap(l, 1));
    TrailerAligned(l, OnePageHeap(l, 2));
    OnePageLength(l, 1);
    OnePageLength(l, 2);
    OnePageMaps(l, 1);
    OnePageMaps(l, 2);
  }

  /** A consumer queries the hint of the first heap. */
  function QueriedRun(l: Layout): seq<Event>
    requires l.Valid()
  {
    [Open(Fd(0, 0))]
    + ([DoRegister(Fd(0, 0), Encode(OnePageHeap(l, 1)), 7)] + ([Open(Fd(1, 0))] + ([Query(0, Fd(1, 0), 0, 1)] + [])))
  }

  /** The producer's file is closed, another heap gets its buffer, and only then the consumer reads. */
  function LateRun(l: Layout): seq<Event>
    requires l.Valid()
  {
    [Close(Fd(0, 0))]
    + ([Open(Fd(0, 1))] + ([DoRegister(Fd(0, 1), Encode(OnePageHeap(l, 2)), 7)] + ([Read(0, Completed)] + [])))
  }

  lemma ConsRun(l: Layout, s: System, e: Event, es: seq<Event>)
    requires l.Valid() && Enabled(s, e) && ValidRun(l, Step(l, s, e), es)
    ensures ValidRun(l, s, [e] + es) && Run(l, s, [e] + es) == Run(l, Step(l, s, e), es)
  {
    assert ([e] + es)[1..] == es;
  }

  ghost function QueriedState(l: Layout): System
    requires l.Valid()
  {
    var bytes := Encode(OnePageHeap(l, 1));
    System([Node(1, map[1 := Bundle(bytes, 7)], map[7 := bytes]), FRESH_NODE],
           map[Fd(0, 0) := Caller(Hint(1), []), Fd(1, 0) := FRESH_CALLER],
           map[0 := Pull(Fd(1, 0), 0, 1, 7, |bytes|)], map[])
  }

  lemma QueriedRunReaches(l: Layout)
    requires l.Valid()
    ensures ValidRun(l, Initial(2), QueriedRun(l)) && Run(l, Initial(2), QueriedRun(l)) == QueriedState(l)
  {
    var bytes := Encode(OnePageHeap(l, 1));
    var s0 := Initial(2);
    var s1 := System([FRESH_NODE, FRESH_NODE], map[Fd(0, 0) := FRESH_CALLER], map[], map[]);
    var node := Node(1, map[1 := Bundle(bytes, 7)], map[7 := bytes]);
    var s2 := System([node, FRESH_NODE], map[Fd(0, 0) := Caller(Hint(1), [])], map[], map[]);
    var s3 := System([node, FRESH_NODE], map[Fd(0, 0) := Caller(Hint(1), []), Fd(1, 0) := FRESH_CALLER], map[], map[]);
    assert Step(l, s0, Open(Fd(0, 0))) == s1;
    assert Step(l, s1, DoRegister(Fd(0, 0), bytes, 7)) == s2;
    assert Step(l, s2, Open(Fd(1, 0))) == s3;
    assert Step(l, s3, Query(0, Fd(1, 0), 0, 1)) == QueriedState(l);
    ConsRun(l, s3, Query(0, Fd(1, 0), 0, 1), []);
    ConsRun(l, s2, Open(Fd(1, 0)), [Query(0, Fd(1, 0), 0, 1)] + []);
    ConsRun(l, s1, DoRegister(Fd(0, 0), bytes, 7), [Open(Fd(1, 0))] + ([Query(0, Fd(1, 0), 0, 1)] + []));
    ConsRun(l, s0, Open(Fd(0, 0)), [DoRegister(Fd(0, 0), bytes, 7)] + ([Open(Fd(1, 0))] + ([Query(0, Fd(1, 0), 0, 1)] + [])));
  }

  /** The first heap's file is closed, and another file of its machine is open. */
  ghost function ReopenedState(l: Layout): System
    requires l.Valid()
  {
    var bytes := Encode(OnePageHeap(l, 1));
    System([Node(1, map[], map[7 := bytes]), FRESH_NODE],
           map[Fd(1, 0) := FRESH_CALLER, Fd(0, 1) := FRESH_CALLER],
           map[0 := Pull(Fd(1, 0), 0, 1, 7, |bytes|)], map[])
  }

  lemma ReopenedDelivers(l: Layout)
    requires l.Valid()
    ensures var s, es := ReopenedState(l), [DoRegister(Fd(0, 1), Encode(OnePageHeap(l, 2)), 7)] + ([Read(0, Completed)] + []);
            && ValidRun(l, s, es)
            && Fd(1, 0) in Run(l, s, es).callers
            && Last(Run(l, s, es).callers[Fd(1, 0)]) == Some(HeapData(1, Expand(OnePageHeap(l, 2))))
  {
    var s, register := ReopenedState(l), DoRegister(Fd(0, 1), Encode(OnePageHeap(l, 2)), 7);
    OnePageHeaps(l);
    assert NodeOk(s.nodes[0]) && NodeOk(s.nodes[1]);
    LateReadDeliversAnotherHeap(l, s, 0, Fd(0, 1), OnePageHeap(l, 2));
    ConsRun(l, Step(l, s, register), Read(0, Completed), []);
    ConsRun(l, s, register, [Read(0, Completed)] + []);
  }

  lemma LateRunDelivers(l: Layout)
    requires l.Valid()
    ensures var s := QueriedState(l);
            && ValidRun(l, s, LateRun(l))
            && var t := Run(l, s, LateRun(l));
               && Fd(1, 0) in t.callers
               && Last(t.callers[Fd(1, 0)]) == Some(HeapData(1, Expand(OnePageHeap(l, 2))))
  {
    var s, s2 := QueriedState(l), ReopenedState(l);
    var rest := [DoRegister(Fd(0, 1), Encode(OnePageHeap(l, 2)), 7)] + ([Read(0, Completed)] + []);
    var s1 := s2.(callers := map[Fd(1, 0) := FRESH_CALLER]);
    assert Step(l, s, Close(Fd(0, 0))) == s1;
    assert Step(l, s1, Open(Fd(0, 1))) == s2;
    ReopenedDelivers(l);
    ConsRun(l, s1, Open(Fd(0, 1)), rest);
    ConsRun(l, s, Close(Fd(0, 0)), [Open(Fd(0, 1))] + rest);
  }

  /**
    The proviso cannot be dropped, in any layout: there is a run in which a consumer queries the hint of one heap and, its
    READ coming late, is given a different heap under that hint.
   */
  lemma LateReadHappens(l: Layout)
    requires l.Valid()
    ensures ValidRun(l, Initial(2), QueriedRun(l))
    ensures var s := Run(l, Initial(2), QueriedRun(l));
            && 0 in s.pulls && s.pulls[0].fd == Fd(1, 0) && s.pulls[0].hint == 1
            && Registered(l, s, 0, 1, OnePageHeap(l, 1))
            && ValidRun(l, s, LateRun(l))
            && var t := Run(l, s, LateRun(l));
               && Fd(1, 0) in t.callers
               && Last(t.callers[Fd(1, 0)]) == Some(HeapData(1, Expand(OnePageHeap(l, 2))))
    ensures Expand(OnePageHeap(l, 1)) != Expand(OnePageHeap(l, 2))
  {
    OnePageHeaps(l);
    QueriedRunReaches(l);
    LateRunDelivers(l);
  }
}
