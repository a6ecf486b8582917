/**
  The objects behind one open file and one machine, updated in place, each call tied to the machine and
  caller states of `Kernel` (dmerge/src/core_syscall_handler.rs, dmerge/src/shadow_heap/mod.rs,
  dmerge/src/id_generator.rs, dmerge/src/rpc_service.rs).
 */
module SyscallHandler {
  import opened Words
  import opened Descriptor
  import opened ShadowHeap
  import opened RemotePaging
  import opened BatchRead
  import opened EagerFetch
  import opened Kernel

  class IdFactory {
    var curId: nat

    constructor ()
      ensures curId == 0
    {
      curId := 0;
    }

    method AllocOneId() returns (id: nat)
      modifies this
      ensures id == curId == NextId(old(curId))
    {
      curId := (curId + 1) % TWO_64;
      id := curId;
    }
  }

  /** What registration takes from the calling process, and the RDMA descriptor it is given. */
  datatype Process = Process(vmas: seq<Vma>, frames: Frames, regs: seq<Byte>, rdma: seq<Byte>)

  function HeapBytes(p: Process, base: nat): seq<Byte>
  {
    Encode(Shadow(p.vmas, base, p.frames, p.regs, p.rdma))
  }

  class ShadowHeapService {
    var registeredHeap: map<nat, Bundle>
    var memory: map<nat, seq<Byte>>

    constructor ()
      ensures registeredHeap == map[] && memory == map[]
    {
      registeredHeap, memory := map[], map[];
    }

    method RegisterHeap(key: nat, p: Process, base: nat, pa: nat)
      modifies this
      ensures registeredHeap == old(registeredHeap)[key := Bundle(HeapBytes(p, base), pa)]
      ensures memory == old(memory)[pa := HeapBytes(p, base)]
    {
      var heap := NewShadowHeap(p.vmas, base, p.frames, p.regs, p.rdma);
      var bytes := Encode(heap);
      memory := memory[pa := bytes];
      registeredHeap := registeredHeap[key := Bundle(bytes, pa)];
    }

    method Unregister(key: nat)
      modifies this
      ensures registeredHeap == old(registeredHeap) - {key} && memory == old(memory)
    {
      registeredHeap := registeredHeap - {key};
    }

    /** The physical address and the length of a serialised descriptor. */
    method QueryDescriptorBuf(key: nat) returns (r: Option<(nat, nat)>)
      ensures r == if key in registeredHeap then Some((registeredHeap[key].pa, |registeredHeap[key].bytes|)) else None
    {
      if key in registeredHeap {
        return Some((registeredHeap[key].pa, |registeredHeap[key].bytes|));
      }
      return None;
    }
  }

  ghost function NodeOf(ids: IdFactory, service: ShadowHeapService): Node
    reads ids, service
  {
    Node(ids.curId, service.registeredHeap, service.memory)
  }

  /** The RPC handler for Query. */
  method HandleQueryRpc(ids: IdFactory, service: ShadowHeapService, key: nat) returns (reply: Option<QueryReply>)
    ensures reply == HandleQuery(NodeOf(ids, service), key)
    ensures key !in service.registeredHeap ==> reply.None?
    ensures key in service.registeredHeap ==>
              var b := service.registeredHeap[key];
              reply.Some? && reply.value.ready && reply.value.pa == b.pa && reply.value.sz == |b.bytes|
  {
    var buf := service.QueryDescriptorBuf(key);
    match buf
    case None => return None;
    case Some((pa, len)) => return Some(QueryReply(pa, len, true));
  }

  /** One per CPU; it is not re-entrant. */
  class CpuLock {
    var held: bool
    var acquired: nat
    var released: nat

    constructor ()
      ensures !held && acquired == released == 0
    {
      held, acquired, released := false, 0, 0;
    }

    method Lock()
      requires !held
      modifies this
      ensures held && acquired == old(acquired) + 1 && released == old(released)
    {
      held, acquired := true, acquired + 1;
    }

    method Unlock()
      requires held
      modifies this
      ensures !held && released == old(released) + 1 && acquired == old(acquired)
    {
      held, released := false, released + 1;
    }
  }

  datatype RpcOutcome<T> = CallFailed | NoReply | Undecodable | Reply(value: T)

  /** What a register-remote tells the other machine: where the serialised heap sits, and whose it is. */
  datatype RemoteRequest = RemoteRequest(pa: nat, sz: nat, sourceMachine: nat, ready: bool)

  /** How the remote side of a pull behaves, in the order the pull meets it. */
  datatype PullOutcome = PullOutcome(rpc: RpcOutcome<QueryReply>, fetched: Option<seq<Byte>>, access: bool)

  /** The bytes that a pull gets to see. */
  function FetchedBytes(o: PullOutcome): Option<seq<Byte>>
  {
    if o.rpc.Reply? && o.rpc.value.ready then o.fetched else None
  }

  predicate PullSucceeds(l: Layout, o: PullOutcome)
    requires l.Valid()
  {
    FetchedBytes(o).Some? && Decode(l, FetchedBytes(o).value).Some? && o.access
  }

  /** The heap a successful pull decodes. */
  function PulledHeap(l: Layout, o: PullOutcome): HeapDescriptor
    requires l.Valid() && PullSucceeds(l, o)
  {
    Decode(l, FetchedBytes(o).value).value
  }

  class DmergeSyscallHandler {
    var privateHint: PrivateHint
    var publicHeaps: seq<HeapData>

    ghost function View(): Caller
      reads this
    {
      Caller(privateHint, publicHeaps)
    }

    constructor Open()
      ensures View() == FRESH_CALLER
    {
      privateHint, publicHeaps := NoHint, [];
    }

    /** ioctl 0: the first call registers, every later one returns the hint it got then. */
    method IoctlRegister(ids: IdFactory, service: ShadowHeapService, p: Process, base: nat, pa: nat)
      returns (hint: nat)
      modifies this`privateHint, ids, service
      ensures (NodeOf(ids, service), View(), hint)
              == Register(old(NodeOf(ids, service)), old(View()), HeapBytes(p, base), pa)
      ensures privateHint == Hint(hint)
      ensures old(privateHint).NoHint? ==>
                && hint == ids.curId
                && hint in service.registeredHeap && service.registeredHeap[hint] == Bundle(HeapBytes(p, base), pa)
                && pa in service.memory && service.memory[pa] == HeapBytes(p, base)
      ensures old(privateHint).Hint? ==> NodeOf(ids, service) == old(NodeOf(ids, service))
    {
      match privateHint
      case Hint(h) =>
        return h;
      case NoHint =>
        var heapHint := ids.AllocOneId();
        service.RegisterHeap(heapHint, p, base, pa);
        privateHint := Hint(heapHint);
        return heapHint;
    }

    /**
      ioctl 1: the lock is taken once and given back once on every way out; the heap list grows by exactly the
      decoded heap when the result is 0 and is unchanged when it is -1. A heap that is appended has been applied
      first, under the lock; a pull that fails or is lazy touches no page.
     */
    method SyscallRmap(l: Layout, lock: CpuLock, handlerId: nat, o: PullOutcome, eager: bool,
                       mapped: seq<bool>, answers: seq<seq<BatchAnswer>>, remote: RemoteMemory,
                       pool: PagePool, space: AddressSpace)
      returns (ret: int)
      requires l.Valid() && !lock.held
      requires PullSucceeds(l, o) ==> Outcomes(PulledHeap(l, o), mapped, answers)
      requires pool.Valid() && Backed(space.ptes, pool.live)
      modifies this`publicHeaps, lock, pool, space
      ensures !lock.held && lock.acquired == old(lock.acquired) + 1 && lock.released == old(lock.released) + 1
      ensures ret == 0 || ret == -1
      ensures ret == 0 <==> PullSucceeds(l, o)
      ensures ret == 0 <==>
                && o.rpc.Reply? && o.rpc.value.ready
                && o.fetched.Some? && Decode(l, o.fetched.value).Some?
                && o.access
      ensures ret == -1 ==> publicHeaps == old(publicHeaps)
      ensures ret == 0 ==> publicHeaps == old(publicHeaps) + [HeapData(handlerId, PulledHeap(l, o))]
      ensures FetchedBytes(o).Some? ==> View() == Deliver(l, old(View()), handlerId, FetchedBytes(o).value, o.access)
      ensures pool.Valid() && Backed(space.ptes, pool.live)
      ensures ret == -1 || !eager ==> space.ptes == old(space.ptes) && pool.State() == old(pool.State())
      ensures ret == 0 && eager ==>
                FetchedOf(space.ptes, pool.State())
                == FetchHeap(PulledHeap(l, o), mapped, answers, |PulledHeap(l, o).vma|, remote,
                             FetchedOf(old(space.ptes), old(pool.State())))
    {
      lock.Lock();
      match o.rpc
      case CallFailed =>
        lock.Unlock();
        return -1;
      case NoReply =>
        lock.Unlock();
        return -1;
      case Undecodable =>
        lock.Unlock();
        return -1;
      case Reply(d) =>
        if !d.ready || o.fetched.None? {
          lock.Unlock();
          return -1;
        }
        var des := Deserialize(l, o.fetched.value);
        if des.None? {
          lock.Unlock();
          return -1;
        }
        if !o.access {
          lock.Unlock();
          return -1;
        }
        ApplyTo(des.value, eager, mapped, answers, remote, pool, space);
        publicHeaps := publicHeaps + [HeapData(handlerId, des.value)];
        lock.Unlock();
        return 0;
    }

    /**
      ioctl 5: a temporary hint is filed, the lock brackets the RPC on every way out, and only the successful
      exit unfiles the hint again.
     */
    method SyscallRegisterRemoteHeap(ids: IdFactory, service: ShadowHeapService, lock: CpuLock,
                                     p: Process, base: nat, pa: nat, machineId: nat, rpc: RpcOutcome<int>)
      returns (ret: int, sent: RemoteRequest)
      requires !lock.held
      modifies ids, service, lock
      ensures !lock.held && lock.acquired == old(lock.acquired) + 1 && lock.released == old(lock.released) + 1
      ensures ret == if rpc.Reply? then rpc.value else -1
      ensures sent == RemoteRequest(pa, |HeapBytes(p, base)|, machineId, true)
      ensures pa in service.memory && service.memory[pa] == HeapBytes(p, base)
      ensures var (begun, tmp) := PushBegin(old(NodeOf(ids, service)), HeapBytes(p, base), pa);
              NodeOf(ids, service) == PushEnd(begun, tmp, rpc.Reply?)
    {
      var localHint := ids.AllocOneId();
      service.RegisterHeap(localHint, p, base, pa);
      var desBuf := service.QueryDescriptorBuf(localHint);
      // Filed just before, so the source's exit for a missing buffer cannot be taken.
      assert desBuf.Some?;
      sent := RemoteRequest(desBuf.value.0, desBuf.value.1, machineId, true);
      lock.Lock();
      var resHint := -1;
      match rpc
      case CallFailed =>
        lock.Unlock();
        return -1, sent;
      case NoReply =>
        lock.Unlock();
        return -1, sent;
      case Undecodable =>
        lock.Unlock();
        return -1, sent;
      case Reply(h) =>
        resHint := h;
        lock.Unlock();
      service.Unregister(localHint);
      return resHint, sent;
    }

    /** The fault handler of this file: the heaps are tried in the order they were pulled. */
    method PageFault(va: nat, answers: seq<Answer>, remote: RemoteMemory, pool: PagePool) returns (r: FaultResult)
      requires |answers| == |publicHeaps| && pool.Valid()
      modifies pool
      ensures pool.Valid() && pool.queue == old(pool.queue)
      ensures r.Sigsegv? <==> forall k :: 0 <= k < |publicHeaps| ==> !Serves(publicHeaps[k].descriptor, answers[k], va)
      ensures r.Sigsegv? ==> pool.live == old(pool.live)
      ensures r.Page? ==>
                && FirstServing(Descriptors(publicHeaps), answers, va).Some?
                && var k := FirstServing(Descriptors(publicHeaps), answers, va).value;
                   && r.page !in old(pool.live)
                   && pool.live == old(pool.live)[r.page := Filled(RemoteFrame(publicHeaps[k].descriptor, va, remote))]
    {
      r := HandlePageFault(Descriptors(publicHeaps), answers, va, remote, pool);
    }

    /** Closing the file unfiles its hint. */
    method Close(ids: IdFactory, service: ShadowHeapService)
      modifies service
      ensures NodeOf(ids, service) == Drop(old(NodeOf(ids, service)), View())
    {
      match privateHint
      case Hint(hint) => service.Unregister(hint);
      case NoHint =>
    }
  }

  // ---------------------------------------------------------------------------
  // Both sides of a pull joined
  // ---------------------------------------------------------------------------

  /** What a pull meets when the RPC gets through: this machine's own answer, and the bytes at the place it names. */
  function MeetsMachine(n: Node, hint: nat, access: bool): PullOutcome
  {
    match HandleQuery(n, hint)
    case None => PullOutcome(Undecodable, None, access)
    case Some(reply) => PullOutcome(Reply(reply), Some(ReadBuffer(n, reply.pa, reply.sz)), access)
  }

  /** The buffer of this hint holds what was registered under it, the written form of this descriptor. */
  ghost predicate Serving(l: Layout, n: Node, hint: nat, d: ParentDescriptor)
  {
    && WellFormed(l, d)
    && hint in n.registry && n.registry[hint].bytes == Encode(d)
    && n.registry[hint].pa in n.memory && n.memory[n.registry[hint].pa] == Encode(d)
  }

  /** Such a machine's answer makes the pull succeed with exactly the registered heap. */
  lemma ServingMachineAnswers(l: Layout, n: Node, hint: nat, d: ParentDescriptor)
    requires l.Valid() && Serving(l, n, hint, d)
    ensures var o := MeetsMachine(n, hint, true);
            PullSucceeds(l, o) && PulledHeap(l, o) == Expand(d)
  {
    var bytes := Encode(d);
    assert bytes[..|bytes|] == bytes;
    RoundTrip(l, d, []);
  }

  /** An unknown hint, or access info that cannot be built, makes it fail. */
  lemma OthersRefuse(l: Layout, n: Node, hint: nat, access: bool)
    requires l.Valid() && (hint !in n.registry || !access)
    ensures !PullSucceeds(l, MeetsMachine(n, hint, access))
  {
  }

  /**
    A pull from a machine that answers for itself: Query handler, READ and ioctl 1 together. With usable access info
    it returns 0 and appends exactly the heap registered under the hint; for an unknown hint it returns -1 and
    appends nothing.
   */
  method PullFrom(l: Layout, lock: CpuLock, ids: IdFactory, service: ShadowHeapService, consumer: DmergeSyscallHandler,
                  hint: nat, access: bool, ghost d: ParentDescriptor, eager: bool,
                  mapped: seq<bool>, answers: seq<seq<BatchAnswer>>, remote: RemoteMemory,
                  pool: PagePool, space: AddressSpace)
    returns (ret: int)
    requires l.Valid() && !lock.held
    requires hint in service.registeredHeap ==>
               && Serving(l, NodeOf(ids, service), hint, d) && Outcomes(Expand(d), mapped, answers)
    requires pool.Valid() && Backed(space.ptes, pool.live)
    modifies consumer`publicHeaps, lock, pool, space
    ensures hint in service.registeredHeap && access ==>
              ret == 0 && consumer.publicHeaps == old(consumer.publicHeaps) + [HeapData(hint, Expand(d))]
    ensures hint !in service.registeredHeap || !access ==>
              ret == -1 && consumer.publicHeaps == old(consumer.publicHeaps)
              && space.ptes == old(space.ptes) && pool.State() == old(pool.State())
  {
    var reply := HandleQueryRpc(ids, service, hint);
    var o := PullOutcome(Undecodable, None, access);
    if reply.Some? {
      var bytes := ReadBuffer(Node(ids.curId, service.registeredHeap, service.memory), reply.value.pa, reply.value.sz);
      o := PullOutcome(Reply(reply.value), Some(bytes), access);
    }
    assert o == MeetsMachine(NodeOf(ids, service), hint, access);
    if hint in service.registeredHeap && access {
      ServingMachineAnswers(l, NodeOf(ids, service), hint, d);
    } else {
      OthersRefuse(l, NodeOf(ids, service), hint, access);
    }
    ret := consumer.SyscallRmap(l, lock, hint, o, eager, mapped, answers, remote, pool, space);
  }
}
