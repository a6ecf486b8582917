/**
  All machines together: runs of open, register, register-remote, pull and close steps in any interleaving.
  A pull is two steps, the Query RPC and the one-sided READ; anything may happen in between.
 */
module Protocol {
  import opened Words
  import opened Descriptor
  import opened ShadowHeap
  import opened Translation
  import opened Kernel

  /** An open file on a machine. */
  datatype Fd = Fd(node: nat, file: nat)

  datatype Pull = Pull(fd: Fd, source: nat, hint: nat, pa: nat, sz: nat)
  datatype Push = Push(fd: Fd, tmp: nat)

  datatype System = System(nodes: seq<Node>, callers: map<Fd, Caller>, pulls: map<nat, Pull>, pushes: map<nat, Push>)

  datatype ReadOutcome = ReadFailed | NoAccess | Completed

  datatype Event =
    | Open(fd: Fd)
    | DoRegister(fd: Fd, bytes: seq<Byte>, pa: nat)
    | BeginPush(id: nat, fd: Fd, bytes: seq<Byte>, pa: nat)
    | EndPush(id: nat, ok: bool)
    | Query(id: nat, fd: Fd, source: nat, hint: nat)
    | Read(id: nat, outcome: ReadOutcome)
    | Reuse(node: nat, pa: nat, bytes: seq<Byte>)
    | Close(fd: Fd)

  // ---------------------------------------------------------------------------
  // Steps
  // ---------------------------------------------------------------------------

  /** A heap can be built and filed on this machine. */
  ghost predicate CanFile(s: System, fd: Fd, bytes: seq<Byte>, pa: nat)
  {
    && fd in s.callers && fd.node < |s.nodes|
    && FreeBuffer(s.nodes[fd.node], pa)
    && s.nodes[fd.node].curId + 1 < TWO_64
  }

  ghost predicate Enabled(s: System, e: Event)
  {
    match e
    case Open(fd) => fd.node < |s.nodes| && fd !in s.callers
    case DoRegister(fd, bytes, pa) => CanFile(s, fd, bytes, pa)
    case BeginPush(id, fd, bytes, pa) => CanFile(s, fd, bytes, pa) && id !in s.pushes
    case EndPush(id, ok) => id in s.pushes && s.pushes[id].fd.node < |s.nodes|
    case Query(id, fd, source, hint) => fd in s.callers && source < |s.nodes| && id !in s.pulls
    case Read(id, outcome) => id in s.pulls && s.pulls[id].fd in s.callers && s.pulls[id].source < |s.nodes|
    case Reuse(node, pa, bytes) => node < |s.nodes| && FreeBuffer(s.nodes[node], pa)
    case Close(fd) =>
      && fd in s.callers && fd.node < |s.nodes|
      && (forall p :: p in s.pulls ==> s.pulls[p].fd != fd)
      && (forall p :: p in s.pushes ==> s.pushes[p].fd != fd)
  }

  ghost function Step(l: Layout, s: System, e: Event): System
    requires l.Valid() && Enabled(s, e)
  {
    match e
    case Open(fd) => s.(callers := s.callers[fd := FRESH_CALLER])
    case DoRegister(fd, bytes, pa) =>
      var (n, c, hint) := Register(s.nodes[fd.node], s.callers[fd], bytes, pa);
      s.(nodes := s.nodes[fd.node := n], callers := s.callers[fd := c])
    case BeginPush(id, fd, bytes, pa) =>
      var (n, tmp) := PushBegin(s.nodes[fd.node], bytes, pa);
      s.(nodes := s.nodes[fd.node := n], pushes := s.pushes[id := Push(fd, tmp)])
    case EndPush(id, ok) =>
      var p := s.pushes[id];
      s.(nodes := s.nodes[p.fd.node := PushEnd(s.nodes[p.fd.node], p.tmp, ok)], pushes := s.pushes - {id})
    case Query(id, fd, source, hint) =>
      (match HandleQuery(s.nodes[source], hint)
       case None => s
       case Some(reply) => s.(pulls := s.pulls[id := Pull(fd, source, hint, reply.pa, reply.sz)]))
    case Read(id, outcome) =>
      var p := s.pulls[id];
      var t := s.(pulls := s.pulls - {id});
      if outcome == ReadFailed then t
      else
        var bytes := ReadBuffer(s.nodes[p.source], p.pa, p.sz);
        t.(callers := s.callers[p.fd := Deliver(l, s.callers[p.fd], p.hint, bytes, outcome == Completed)])
    case Reuse(node, pa, bytes) =>
      s.(nodes := s.nodes[node := s.nodes[node].(memory := s.nodes[node].memory[pa := bytes])])
    case Close(fd) =>
      s.(nodes := s.nodes[fd.node := Drop(s.nodes[fd.node], s.callers[fd])], callers := s.callers - {fd})
  }

  ghost predicate ValidRun(l: Layout, s: System, es: seq<Event>)
    requires l.Valid()
    decreases |es|
  {
    es == [] || (Enabled(s, es[0]) && ValidRun(l, Step(l, s, es[0]), es[1..]))
  }

  ghost function Run(l: Layout, s: System, es: seq<Event>): System
    requires l.Valid() && ValidRun(l, s, es)
    decreases |es|
  {
    if es == [] then s else Run(l, Step(l, s, es[0]), es[1..])
  }

  ghost function Initial(n: nat): System
  {
    System(seq(n, _ => FRESH_NODE), map[], map[], map[])
  }

  // ---------------------------------------------------------------------------
  // The invariant
  // ---------------------------------------------------------------------------

  /** Each hint was issued, and the buffer of each registered heap holds that heap's bytes and no other heap. */
  ghost predicate NodeOk(n: Node)
  {
    && n.curId < TWO_64
    && (forall h :: h in n.registry ==> 1 <= h <= n.curId)
    && (forall h :: h in n.registry ==> n.registry[h].pa in n.memory && n.memory[n.registry[h].pa] == n.registry[h].bytes)
    && (forall h, k :: h in n.registry && k in n.registry && h != k ==> n.registry[h].pa != n.registry[k].pa)
  }

  ghost predicate NodesOk(s: System)
  {
    forall i :: 0 <= i < |s.nodes| ==> NodeOk(s.nodes[i])
  }

  /** The private hint of an open file resolves. */
  ghost predicate CallersOk(s: System)
  {
    forall fd :: fd in s.callers ==>
      fd.node < |s.nodes| && (s.callers[fd].privateHint.Hint? ==> s.callers[fd].privateHint.id in s.nodes[fd.node].registry)
  }

  /** Distinct open files of a machine hold distinct private hints. */
  ghost predicate CallersDistinct(s: System)
  {
    forall f, g :: f in s.callers && g in s.callers && f != g && f.node == g.node && s.callers[f].privateHint.Hint?
      ==> s.callers[f].privateHint != s.callers[g].privateHint
  }

  ghost predicate PushesOk(s: System)
  {
    forall p :: p in s.pushes ==>
      && s.pushes[p].fd in s.callers && s.pushes[p].fd.node < |s.nodes|
      && s.pushes[p].tmp in s.nodes[s.pushes[p].fd.node].registry
  }

  ghost predicate PushesForeign(s: System)
  {
    forall p, f :: p in s.pushes && f in s.callers && f.node == s.pushes[p].fd.node
      ==> s.callers[f].privateHint != Hint(s.pushes[p].tmp)
  }

  ghost predicate PushesDistinct(s: System)
  {
    forall p, q :: p in s.pushes && q in s.pushes && p != q && s.pushes[p].fd.node == s.pushes[q].fd.node
      ==> s.pushes[p].tmp != s.pushes[q].tmp
  }

  /** As long as the queried hint is registered, the address and size in the reply are still those of its buffer. */
  ghost predicate PullOk(s: System, p: Pull)
  {
    && p.fd in s.callers && p.source < |s.nodes|
    && p.hint <= s.nodes[p.source].curId
    && (p.hint in s.nodes[p.source].registry ==>
          s.nodes[p.source].registry[p.hint].pa == p.pa && |s.nodes[p.source].registry[p.hint].bytes| == p.sz)
  }

  ghost predicate PullsOk(s: System)
  {
    forall p :: p in s.pulls ==> PullOk(s, s.pulls[p])
  }

  /** Every hint held by a file or by a register-remote in progress resolves, and no two hold the same. */
  ghost predicate Owners(s: System)
  {
    CallersOk(s) && CallersDistinct(s) && PushesOk(s) && PushesForeign(s) && PushesDistinct(s)
  }

  ghost predicate Inv(s: System)
  {
    NodesOk(s) && Owners(s) && PullsOk(s)
  }

  /** Ids only grow, and a hint already issued is either gone or names what it always named. */
  ghost predicate Evolves(n: Node, m: Node)
  {
    && n.curId <= m.curId
    && forall h :: h <= n.curId && h in m.registry ==> h in n.registry && m.registry[h] == n.registry[h]
  }

  ghost predicate SystemEvolves(s: System, t: System)
  {
    |s.nodes| == |t.nodes| && forall i :: 0 <= i < |s.nodes| ==> Evolves(s.nodes[i], t.nodes[i])
  }

  // ---------------------------------------------------------------------------
  // Each step keeps the invariant
  // ---------------------------------------------------------------------------

  lemma FileFresh(n: Node, bytes: seq<Byte>, pa: nat)
    requires NodeOk(n) && FreeBuffer(n, pa) && n.curId + 1 < TWO_64
    ensures var m := FileHeap(n.(curId := n.curId + 1), n.curId + 1, bytes, pa);
            NodeOk(m) && Evolves(n, m)
  {
  }

  lemma RemoveKeeps(n: Node, h: nat)
    requires NodeOk(n)
    ensures NodeOk(Unregister(n, h)) && Evolves(n, Unregister(n, h))
  {
  }

  lemma ReuseKeeps(n: Node, pa: nat, bytes: seq<Byte>)
    requires NodeOk(n) && FreeBuffer(n, pa)
    ensures NodeOk(n.(memory := n.memory[pa := bytes])) && Evolves(n, n.(memory := n.memory[pa := bytes]))
  {
  }

  lemma NodeReplaced(s: System, t: System, m: nat)
    requires m < |s.nodes| == |t.nodes| && NodesOk(s) && NodeOk(t.nodes[m]) && Evolves(s.nodes[m], t.nodes[m])
    requires forall i :: 0 <= i < |s.nodes| && i != m ==> t.nodes[i] == s.nodes[i]
    ensures NodesOk(t) && SystemEvolves(s, t)
  {
  }

  /** Replacing one machine by a later state of it leaves every pull in progress consistent. */
  lemma PullsSurvive(s: System, t: System)
    requires PullsOk(s) && SystemEvolves(s, t)
    requires t.pulls == s.pulls && forall fd :: fd in s.callers ==> fd in t.callers
    ensures PullsOk(t)
  {
    forall p | p in t.pulls
      ensures PullOk(t, t.pulls[p])
    {
      assert PullOk(s, s.pulls[p]);
      assert Evolves(s.nodes[s.pulls[p].source], t.nodes[s.pulls[p].source]);
    }
  }

  lemma PullsLoseCaller(s: System, t: System, fd: Fd)
    requires PullsOk(s) && SystemEvolves(s, t)
    requires t.pulls == s.pulls && t.callers == s.callers - {fd}
    requires forall p :: p in s.pulls ==> s.pulls[p].fd != fd
    ensures PullsOk(t)
  {
    forall p | p in t.pulls
      ensures PullOk(t, t.pulls[p])
    {
      assert PullOk(s, s.pulls[p]);
      assert Evolves(s.nodes[s.pulls[p].source], t.nodes[s.pulls[p].source]);
    }
  }

  /** Only machine m's registry changes, to `keys`. */
  ghost predicate RegistryBecomes(s: System, t: System, m: nat, keys: set<nat>)
  {
    && m < |s.nodes| == |t.nodes|
    && t.nodes[m].registry.Keys == keys
    && forall i :: 0 <= i < |s.nodes| && i != m ==> t.nodes[i] == s.nodes[i]
  }

  lemma NewHintIsDistinct(s: System, t: System, fd: Fd, id: nat)
    requires CallersOk(s) && CallersDistinct(s) && fd in s.callers && fd.node < |s.nodes| && id !in s.nodes[fd.node].registry
    requires t.callers == s.callers[fd := s.callers[fd].(privateHint := Hint(id))]
    ensures CallersDistinct(t)
  {
  }

  lemma NewHintIsForeign(s: System, t: System, fd: Fd, id: nat)
    requires PushesOk(s) && PushesForeign(s) && fd in s.callers && fd.node < |s.nodes| && id !in s.nodes[fd.node].registry
    requires t.pushes == s.pushes && t.callers == s.callers[fd := s.callers[fd].(privateHint := Hint(id))]
    ensures PushesForeign(t)
  {
  }

  lemma OwnersRegister(s: System, t: System, fd: Fd, id: nat)
    requires Owners(s) && fd in s.callers && fd.node < |s.nodes| && id !in s.nodes[fd.node].registry
    requires RegistryBecomes(s, t, fd.node, s.nodes[fd.node].registry.Keys + {id})
    requires t.pushes == s.pushes && t.callers == s.callers[fd := s.callers[fd].(privateHint := Hint(id))]
    ensures Owners(t)
  {
    NewHintIsDistinct(s, t, fd, id);
    NewHintIsForeign(s, t, fd, id);
  }

  lemma NewPushIsDistinct(s: System, t: System, push: nat, fd: Fd, id: nat)
    requires PushesOk(s) && PushesDistinct(s) && fd.node < |s.nodes| && id !in s.nodes[fd.node].registry
    requires t.pushes == s.pushes[push := Push(fd, id)]
    ensures PushesDistinct(t)
  {
  }

  lemma NewPushIsForeign(s: System, t: System, push: nat, fd: Fd, id: nat)
    requires CallersOk(s) && PushesForeign(s) && fd.node < |s.nodes| && id !in s.nodes[fd.node].registry
    requires t.callers == s.callers && t.pushes == s.pushes[push := Push(fd, id)]
    ensures PushesForeign(t)
  {
  }

  lemma OwnersPush(s: System, t: System, push: nat, fd: Fd, id: nat)
    requires Owners(s) && fd in s.callers && fd.node < |s.nodes| && id !in s.nodes[fd.node].registry
    requires RegistryBecomes(s, t, fd.node, s.nodes[fd.node].registry.Keys + {id})
    requires t.callers == s.callers && t.pushes == s.pushes[push := Push(fd, id)] && push !in s.pushes
    ensures Owners(t)
  {
    NewPushIsDistinct(s, t, push, fd, id);
    NewPushIsForeign(s, t, push, fd, id);
  }

  /** A hint that no file holds goes. */
  lemma CallersOutliveHint(s: System, t: System, m: nat, hint: nat)
    requires CallersOk(s) && t.callers == s.callers && m < |s.nodes|
    requires RegistryBecomes(s, t, m, s.nodes[m].registry.Keys - {hint})
    requires forall f :: f in s.callers && f.node == m ==> s.callers[f].privateHint != Hint(hint)
    ensures CallersOk(t)
  {
  }

  lemma OtherPushesOutliveHint(s: System, t: System, push: nat)
    requires PushesOk(s) && PushesDistinct(s) && push in s.pushes
    requires RegistryBecomes(s, t, s.pushes[push].fd.node, s.nodes[s.pushes[push].fd.node].registry.Keys - {s.pushes[push].tmp})
    requires t.callers == s.callers && t.pushes == s.pushes - {push}
    ensures PushesOk(t)
  {
  }

  lemma OwnersEndPush(s: System, t: System, push: nat)
    requires Owners(s) && push in s.pushes
    requires RegistryBecomes(s, t, s.pushes[push].fd.node, s.nodes[s.pushes[push].fd.node].registry.Keys - {s.pushes[push].tmp})
    requires t.callers == s.callers && t.pushes == s.pushes - {push}
    ensures Owners(t)
  {
    CallersOutliveHint(s, t, s.pushes[push].fd.node, s.pushes[push].tmp);
    OtherPushesOutliveHint(s, t, push);
  }

  function HintOf(c: Caller): set<nat>
  {
    if c.privateHint.Hint? then {c.privateHint.id} else {}
  }

  lemma OwnersClose(s: System, t: System, fd: Fd)
    requires Owners(s) && fd in s.callers && fd.node < |s.nodes| && forall p :: p in s.pushes ==> s.pushes[p].fd != fd
    requires RegistryBecomes(s, t, fd.node, s.nodes[fd.node].registry.Keys - HintOf(s.callers[fd]))
    requires t.pushes == s.pushes && t.callers == s.callers - {fd}
    ensures Owners(t)
  {
  }

  /** A caller may change as long as its hint does not. */
  lemma OwnersSameHints(s: System, t: System)
    requires Owners(s) && t.pushes == s.pushes && |t.nodes| == |s.nodes|
    requires forall i :: 0 <= i < |s.nodes| ==> t.nodes[i].registry.Keys == s.nodes[i].registry.Keys
    requires t.callers.Keys == s.callers.Keys
    requires forall f :: f in s.callers ==> t.callers[f].privateHint == s.callers[f].privateHint
    ensures Owners(t)
  {
  }

  lemma OwnersOpen(s: System, t: System, fd: Fd)
    requires Owners(s) && fd.node < |s.nodes| && fd !in s.callers
    requires t == s.(callers := s.callers[fd := FRESH_CALLER])
    ensures Owners(t)
  {
  }

  lemma KeepOpen(s: System, t: System, fd: Fd)
    requires Inv(s) && fd.node < |s.nodes| && fd !in s.callers
    requires t == s.(callers := s.callers[fd := FRESH_CALLER])
    ensures Inv(t) && SystemEvolves(s, t)
  {
    OwnersOpen(s, t, fd);
    PullsSurvive(s, t);
  }

  /** What filing these bytes under the next id makes of a machine. */
  function WithNewHeap(n: Node, bytes: seq<Byte>, pa: nat): Node
  {
    FileHeap(n.(curId := n.curId + 1), n.curId + 1, bytes, pa)
  }

  lemma FiledNodes(s: System, t: System, m: nat, bytes: seq<Byte>, pa: nat)
    requires NodesOk(s) && m < |s.nodes| && FreeBuffer(s.nodes[m], pa) && s.nodes[m].curId + 1 < TWO_64
    requires t.nodes == s.nodes[m := WithNewHeap(s.nodes[m], bytes, pa)]
    ensures NodesOk(t) && SystemEvolves(s, t)
    ensures s.nodes[m].curId + 1 !in s.nodes[m].registry
    ensures RegistryBecomes(s, t, m, s.nodes[m].registry.Keys + {s.nodes[m].curId + 1})
  {
    assert NodeOk(s.nodes[m]);
    FileFresh(s.nodes[m], bytes, pa);
    NodeReplaced(s, t, m);
  }

  /** A file without a hint gets a new one. */
  lemma KeepRegister(s: System, t: System, fd: Fd, bytes: seq<Byte>, pa: nat)
    requires Inv(s) && CanFile(s, fd, bytes, pa)
    requires t == s.(nodes := s.nodes[fd.node := WithNewHeap(s.nodes[fd.node], bytes, pa)],
                     callers := s.callers[fd := s.callers[fd].(privateHint := Hint(s.nodes[fd.node].curId + 1))])
    ensures Inv(t) && SystemEvolves(s, t)
  {
    FiledNodes(s, t, fd.node, bytes, pa);
    OwnersRegister(s, t, fd, s.nodes[fd.node].curId + 1);
    PullsSurvive(s, t);
  }

  lemma KeepBeginPush(s: System, t: System, id: nat, fd: Fd, bytes: seq<Byte>, pa: nat)
    requires Inv(s) && CanFile(s, fd, bytes, pa) && id !in s.pushes
    requires t == s.(nodes := s.nodes[fd.node := WithNewHeap(s.nodes[fd.node], bytes, pa)],
                     pushes := s.pushes[id := Push(fd, s.nodes[fd.node].curId + 1)])
    ensures Inv(t) && SystemEvolves(s, t)
  {
    FiledNodes(s, t, fd.node, bytes, pa);
    OwnersPush(s, t, id, fd, s.nodes[fd.node].curId + 1);
    PullsSurvive(s, t);
  }

  lemma KeepEndPush(s: System, t: System, id: nat)
    requires Inv(s) && id in s.pushes && s.pushes[id].fd.node < |s.nodes|
    requires var p := s.pushes[id];
             t == s.(nodes := s.nodes[p.fd.node := Unregister(s.nodes[p.fd.node], p.tmp)], pushes := s.pushes - {id})
    ensures Inv(t) && SystemEvolves(s, t)
  {
    var p := s.pushes[id];
    RemoveKeeps(s.nodes[p.fd.node], p.tmp);
    NodeReplaced(s, t, p.fd.node);
    OwnersEndPush(s, t, id);
    PullsSurvive(s.(pushes := t.pushes), t);
  }

  lemma KeepQuery(s: System, t: System, id: nat, fd: Fd, source: nat, hint: nat)
    requires Inv(s) && fd in s.callers && source < |s.nodes| && hint in s.nodes[source].registry
    requires var b := s.nodes[source].registry[hint];
             t == s.(pulls := s.pulls[id := Pull(fd, source, hint, b.pa, |b.bytes|)])
    ensures Inv(t) && SystemEvolves(s, t)
  {
    assert NodeOk(s.nodes[source]);
    forall p | p in t.pulls
      ensures PullOk(t, t.pulls[p])
    {
      if p != id {
        assert PullOk(s, s.pulls[p]);
      }
    }
  }

  lemma KeepRead(s: System, t: System, id: nat, fd: Fd, c: Caller)
    requires Inv(s) && fd in s.callers && c.privateHint == s.callers[fd].privateHint
    requires t == s.(pulls := s.pulls - {id}, callers := s.callers[fd := c])
    ensures Inv(t) && SystemEvolves(s, t)
  {
    OwnersSameHints(s, t);
    PullsSurvive(s.(pulls := t.pulls), t);
  }

  lemma KeepReuse(s: System, t: System, node: nat, pa: nat, bytes: seq<Byte>)
    requires Inv(s) && node < |s.nodes| && FreeBuffer(s.nodes[node], pa)
    requires t == s.(nodes := s.nodes[node := s.nodes[node].(memory := s.nodes[node].memory[pa := bytes])])
    ensures Inv(t) && SystemEvolves(s, t)
  {
    ReuseKeeps(s.nodes[node], pa, bytes);
    NodeReplaced(s, t, node);
    OwnersSameHints(s, t);
    PullsSurvive(s, t);
  }

  lemma KeepClose(s: System, t: System, fd: Fd)
    requires Inv(s) && Enabled(s, Close(fd))
    requires t == s.(nodes := s.nodes[fd.node := Drop(s.nodes[fd.node], s.callers[fd])], callers := s.callers - {fd})
    ensures Inv(t) && SystemEvolves(s, t)
  {
    if s.callers[fd].privateHint.Hint? {
      RemoveKeeps(s.nodes[fd.node], s.callers[fd].privateHint.id);
    }
    NodeReplaced(s, t, fd.node);
    OwnersClose(s, t, fd);
    PullsLoseCaller(s, t, fd);
  }

  lemma RegisterStepKeeps(l: Layout, s: System, fd: Fd, bytes: seq<Byte>, pa: nat)
    requires l.Valid() && Inv(s) && CanFile(s, fd, bytes, pa)
    ensures Inv(Step(l, s, DoRegister(fd, bytes, pa))) && SystemEvolves(s, Step(l, s, DoRegister(fd, bytes, pa)))
  {
    var t := Step(l, s, DoRegister(fd, bytes, pa));
    if s.callers[fd].privateHint.NoHint? {
      KeepRegister(s, t, fd, bytes, pa);
    } else {
      assert t.nodes == s.nodes && t.callers == s.callers;
    }
  }

  lemma BeginPushStepKeeps(l: Layout, s: System, id: nat, fd: Fd, bytes: seq<Byte>, pa: nat)
    requires l.Valid() && Inv(s) && CanFile(s, fd, bytes, pa) && id !in s.pushes
    ensures Inv(Step(l, s, BeginPush(id, fd, bytes, pa))) && SystemEvolves(s, Step(l, s, BeginPush(id, fd, bytes, pa)))
  {
    KeepBeginPush(s, Step(l, s, BeginPush(id, fd, bytes, pa)), id, fd, bytes, pa);
  }

  lemma KeepFailedPush(s: System, t: System, id: nat)
    requires Inv(s) && id in s.pushes && t == s.(pushes := s.pushes - {id})
    ensures Inv(t) && SystemEvolves(s, t)
  {
    PullsSurvive(s.(pushes := t.pushes), t);
  }

  lemma EndPushStepKeeps(l: Layout, s: System, id: nat, ok: bool)
    requires l.Valid() && Inv(s) && Enabled(s, EndPush(id, ok))
    ensures Inv(Step(l, s, EndPush(id, ok))) && SystemEvolves(s, Step(l, s, EndPush(id, ok)))
  {
    var t := Step(l, s, EndPush(id, ok));
    if ok {
      KeepEndPush(s, t, id);
    } else {
      assert t.nodes == s.nodes;
      KeepFailedPush(s, t, id);
    }
  }

  lemma ReadStepKeeps(l: Layout, s: System, id: nat, outcome: ReadOutcome)
    requires l.Valid() && Inv(s) && Enabled(s, Read(id, outcome))
    ensures Inv(Step(l, s, Read(id, outcome))) && SystemEvolves(s, Step(l, s, Read(id, outcome)))
  {
    var t, fd := Step(l, s, Read(id, outcome)), s.pulls[id].fd;
    assert t.callers == s.callers[fd := t.callers[fd]];
    KeepRead(s, t, id, fd, t.callers[fd]);
  }

  lemma StepKeeps(l: Layout, s: System, e: Event)
    requires l.Valid() && Inv(s) && Enabled(s, e)
    ensures Inv(Step(l, s, e)) && SystemEvolves(s, Step(l, s, e))
  {
    match e
    case Query(id, fd, source, hint) =>
      if hint in s.nodes[source].registry {
        KeepQuery(s, Step(l, s, e), id, fd, source, hint);
      }
    case Read(id, outcome) => ReadStepKeeps(l, s, id, outcome);
    case Open(fd) => KeepOpen(s, Step(l, s, e), fd);
    case DoRegister(fd, bytes, pa) => RegisterStepKeeps(l, s, fd, bytes, pa);
    case BeginPush(id, fd, bytes, pa) => BeginPushStepKeeps(l, s, id, fd, bytes, pa);
    case EndPush(id, ok) => EndPushStepKeeps(l, s, id, ok);
    case Reuse(node, pa, bytes) => KeepReuse(s, Step(l, s, e), node, pa, bytes);
    case Close(fd) => KeepClose(s, Step(l, s, e), fd);
  }

  lemma EvolvesThrough(s: System, t: System, u: System)
    requires SystemEvolves(s, t) && SystemEvolves(t, u)
    ensures SystemEvolves(s, u)
  {
    forall i | 0 <= i < |s.nodes|
      ensures Evolves(s.nodes[i], u.nodes[i])
    {
      assert Evolves(s.nodes[i], t.nodes[i]) && Evolves(t.nodes[i], u.nodes[i]);
    }
  }

  /** Every run keeps the invariant, and hints keep their meaning along it. */
  lemma {:induction false} RunKeeps(l: Layout, s: System, es: seq<Event>)
    requires l.Valid() && Inv(s) && ValidRun(l, s, es)
    ensures Inv(Run(l, s, es)) && SystemEvolves(s, Run(l, s, es))
    decreases |es|
  {
    if es != [] {
      StepKeeps(l, s, es[0]);
      RunKeeps(l, Step(l, s, es[0]), es[1..]);
      EvolvesThrough(s, Step(l, s, es[0]), Run(l, s, es));
    }
  }

  lemma InitialOk(l: Layout, n: nat)
    ensures Inv(Initial(n))
  {
  }

  // ---------------------------------------------------------------------------
  // Hint lifecycle
  // ---------------------------------------------------------------------------

  ghost predicate Resolves(s: System, node: nat, hint: nat)
  {
    node < |s.nodes| && hint in s.nodes[node].registry
  }

  /** In every reachable state open files of a machine hold distinct hints, and each of them resolves. */
  lemma OpenHintsResolve(l: Layout, n: nat, es: seq<Event>, f: Fd, g: Fd)
    requires l.Valid() && ValidRun(l, Initial(n), es)
    requires var s := Run(l, Initial(n), es);
             f in s.callers && g in s.callers && s.callers[f].privateHint.Hint?
    ensures var s := Run(l, Initial(n), es);
            && Resolves(s, f.node, s.callers[f].privateHint.id)
            && (f != g && f.node == g.node ==> s.callers[f].privateHint != s.callers[g].privateHint)
  {
    InitialOk(l, n);
    RunKeeps(l, Initial(n), es);
  }

  /** After a file is closed its hint is gone from its machine for the rest of every run. */
  lemma ClosedHintsStayGone(l: Layout, s: System, fd: Fd, es: seq<Event>)
    requires l.Valid() && Inv(s) && Enabled(s, Close(fd)) && s.callers[fd].privateHint.Hint?
    requires ValidRun(l, Step(l, s, Close(fd)), es)
    ensures !Resolves(Run(l, Step(l, s, Close(fd)), es), fd.node, s.callers[fd].privateHint.id)
  {
    var t, hint := Step(l, s, Close(fd)), s.callers[fd].privateHint.id;
    assert NodeOk(s.nodes[fd.node]);
    StepKeeps(l, s, Close(fd));
    RunKeeps(l, t, es);
    assert Evolves(t.nodes[fd.node], Run(l, t, es).nodes[fd.node]);
  }

  /** A hint handed out by a registration was never issued before on its machine, in any earlier state of the run. */
  lemma HintsAreNew(l: Layout, s: System, es: seq<Event>, fd: Fd, bytes: seq<Byte>, pa: nat, issued: nat)
    requires l.Valid() && Inv(s) && ValidRun(l, s, es)
    requires CanFile(Run(l, s, es), fd, bytes, pa) && Run(l, s, es).callers[fd].privateHint.NoHint?
    requires fd.node < |s.nodes| && issued <= s.nodes[fd.node].curId
    ensures var t := Step(l, Run(l, s, es), DoRegister(fd, bytes, pa));
            && t.callers[fd].privateHint.Hint?
            && t.callers[fd].privateHint.id > issued
            && t.nodes[fd.node].registry[t.callers[fd].privateHint.id].bytes == bytes
  {
    RunKeeps(l, s, es);
    assert Evolves(s.nodes[fd.node], Run(l, s, es).nodes[fd.node]);
  }

  /** The number that ioctl 0 hands to the calling process. */
  function AnsweredHint(n: Node, c: Caller, bytes: seq<Byte>, pa: nat): nat
  {
    Register(n, c, bytes, pa).2
  }

  /**
    What ioctl 0 answers is the hint that the file then holds, and it resolves on its machine; if the file had none
    before, it was never issued and names the bytes that were serialised, otherwise it is the one it had.
   */
  lemma RegisterAnswers(l: Layout, s: System, fd: Fd, bytes: seq<Byte>, pa: nat)
    requires l.Valid() && Inv(s) && CanFile(s, fd, bytes, pa)
    ensures var before, t := s.callers[fd].privateHint, Step(l, s, DoRegister(fd, bytes, pa));
            var answer := AnsweredHint(s.nodes[fd.node], s.callers[fd], bytes, pa);
            && t.callers[fd].privateHint == Hint(answer)
            && Resolves(t, fd.node, answer)
            && (before.Hint? ==> before == Hint(answer) && t == s)
            && (before.NoHint? ==>
                  && answer > s.nodes[fd.node].curId && !Resolves(s, fd.node, answer)
                  && t.nodes[fd.node].registry[answer].bytes == bytes)
  {
    var t := Step(l, s, DoRegister(fd, bytes, pa));
    assert NodeOk(s.nodes[fd.node]);
    if s.callers[fd].privateHint.Hint? {
      assert t.nodes == s.nodes && t.callers == s.callers;
    }
  }

  /** So in every reachable state. */
  lemma RegisterAnswersOverRuns(l: Layout, n: nat, es: seq<Event>, fd: Fd, bytes: seq<Byte>, pa: nat)
    requires l.Valid() && ValidRun(l, Initial(n), es) && CanFile(Run(l, Initial(n), es), fd, bytes, pa)
    ensures var s := Run(l, Initial(n), es);
            var t, answer := Step(l, s, DoRegister(fd, bytes, pa)), AnsweredHint(s.nodes[fd.node], s.callers[fd], bytes, pa);
            && t.callers[fd].privateHint == Hint(answer) && Resolves(t, fd.node, answer)
            && (s.callers[fd].privateHint.NoHint? ==> t.nodes[fd.node].registry[answer].bytes == bytes)
  {
    InitialOk(l, n);
    RunKeeps(l, Initial(n), es);
    RegisterAnswers(l, Run(l, Initial(n), es), fd, bytes, pa);
  }

  /** Registering again on the same file returns the hint it has and changes nothing. */
  lemma RegisterTwice(l: Layout, s: System, fd: Fd, bytes: seq<Byte>, pa: nat, others: seq<Byte>, pb: nat)
    requires l.Valid() && CanFile(s, fd, bytes, pa)
    requires CanFile(Step(l, s, DoRegister(fd, bytes, pa)), fd, others, pb)
    ensures var once := Step(l, s, DoRegister(fd, bytes, pa));
            && Step(l, once, DoRegister(fd, others, pb)) == once
            && Register(once.nodes[fd.node], once.callers[fd], others, pb).2 == Register(s.nodes[fd.node], s.callers[fd], bytes, pa).2
  {
    var once := Step(l, s, DoRegister(fd, bytes, pa));
    var twice := Step(l, once, DoRegister(fd, others, pb));
    assert twice.nodes == once.nodes;
    assert twice.callers == once.callers;
  }

  // ---------------------------------------------------------------------------
  // Register-remote
  // ---------------------------------------------------------------------------

  /** From s to t this hint goes, and every other hint of every machine stays with what it names. */
  ghost predicate RemovesOnly(s: System, t: System, node: nat, hint: nat)
  {
    && |t.nodes| == |s.nodes|
    && Resolves(s, node, hint) && !Resolves(t, node, hint)
    && forall m: nat, h: nat :: m < |s.nodes| && (m != node || h != hint) ==>
         && (Resolves(t, m, h) <==> Resolves(s, m, h))
         && (Resolves(s, m, h) ==> t.nodes[m].registry[h] == s.nodes[m].registry[h])
  }

  /** A register-remote that succeeds removes its own hint and no other; one that fails changes no registry. */
  lemma PushRemovesOnlyItsHint(l: Layout, s: System, id: nat, ok: bool)
    requires l.Valid() && Inv(s) && Enabled(s, EndPush(id, ok))
    ensures var p, t := s.pushes[id], Step(l, s, EndPush(id, ok));
            && t.callers == s.callers
            && if ok then RemovesOnly(s, t, p.fd.node, p.tmp) else t.nodes == s.nodes
  {
    var p, t := s.pushes[id], Step(l, s, EndPush(id, ok));
    if ok {
      var before, after := s.nodes[p.fd.node].registry, t.nodes[p.fd.node].registry;
      assert after == before - {p.tmp};
      forall m: nat, h: nat | m < |s.nodes| && (m != p.fd.node || h != p.tmp)
        ensures Resolves(t, m, h) <==> Resolves(s, m, h)
        ensures Resolves(s, m, h) ==> t.nodes[m].registry[h] == s.nodes[m].registry[h]
      {
        if m == p.fd.node {
          assert h in after <==> h in before;
        }
      }
    }
  }

  /** Register-remote `id` does not end in this run. */
  ghost predicate NoEnd(es: seq<Event>, id: nat)
  {
    forall i :: 0 <= i < |es| ==> !(es[i].EndPush? && es[i].id == id)
  }

  lemma PushStays(l: Layout, s: System, e: Event, id: nat)
    requires l.Valid() && Enabled(s, e) && id in s.pushes && !(e.EndPush? && e.id == id)
    ensures id in Step(l, s, e).pushes && Step(l, s, e).pushes[id] == s.pushes[id]
  {
  }

  lemma {:induction false} PushStaysOver(l: Layout, s: System, es: seq<Event>, id: nat)
    requires l.Valid() && ValidRun(l, s, es) && id in s.pushes && NoEnd(es, id)
    ensures id in Run(l, s, es).pushes && Run(l, s, es).pushes[id] == s.pushes[id]
    decreases |es|
  {
    if es != [] {
      PushStays(l, s, es[0], id);
      PushStaysOver(l, Step(l, s, es[0]), es[1..], id);
    }
  }

  /** Hints issued before are gone or name what they named, on every machine. */
  ghost predicate OthersKeepMeaning(s: System, t: System)
  {
    forall m: nat, h: nat :: m < |s.nodes| && h <= s.nodes[m].curId && Resolves(t, m, h) ==>
      Resolves(s, m, h) && t.nodes[m].registry[h] == s.nodes[m].registry[h]
  }

  lemma EvolvesKeepsMeaning(s: System, t: System)
    requires SystemEvolves(s, t)
    ensures OthersKeepMeaning(s, t)
  {
    forall m: nat, h: nat | m < |s.nodes| && h <= s.nodes[m].curId && Resolves(t, m, h)
      ensures Resolves(s, m, h) && t.nodes[m].registry[h] == s.nodes[m].registry[h]
    {
      assert Evolves(s.nodes[m], t.nodes[m]);
    }
  }

  lemma PushBegins(l: Layout, s: System, id: nat, fd: Fd, bytes: seq<Byte>, pa: nat)
    requires l.Valid() && NodesOk(s) && Enabled(s, BeginPush(id, fd, bytes, pa))
    ensures var t, tmp := Step(l, s, BeginPush(id, fd, bytes, pa)), s.nodes[fd.node].curId + 1;
            && id in t.pushes && t.pushes[id] == Push(fd, tmp)
            && !Resolves(s, fd.node, tmp)
            && |t.nodes| == |s.nodes|
            && t.nodes[fd.node].registry == s.nodes[fd.node].registry[tmp := Bundle(bytes, pa)]
            && forall m: nat :: m < |s.nodes| && m != fd.node ==> t.nodes[m].registry == s.nodes[m].registry
  {
    assert NodeOk(s.nodes[fd.node]);
  }

  lemma PushCanEnd(s: System, id: nat, ok: bool)
    requires Inv(s) && id in s.pushes
    ensures Enabled(s, EndPush(id, ok)) && Resolves(s, s.pushes[id].fd.node, s.pushes[id].tmp)
  {
  }

  /** While it is in progress, a register-remote holds a new hint that resolves; whatever else runs, it can end. */
  lemma PushInProgress(l: Layout, s: System, id: nat, fd: Fd, bytes: seq<Byte>, pa: nat, es: seq<Event>)
    requires l.Valid() && Inv(s) && Enabled(s, BeginPush(id, fd, bytes, pa))
    requires ValidRun(l, Step(l, s, BeginPush(id, fd, bytes, pa)), es) && NoEnd(es, id)
    ensures var t, tmp := Run(l, Step(l, s, BeginPush(id, fd, bytes, pa)), es), s.nodes[fd.node].curId + 1;
            && Inv(t) && SystemEvolves(s, t)
            && id in t.pushes && t.pushes[id] == Push(fd, tmp)
            && Enabled(t, EndPush(id, true)) && Enabled(t, EndPush(id, false))
            && !Resolves(s, fd.node, tmp) && Resolves(t, fd.node, tmp)
  {
    var begun := Step(l, s, BeginPush(id, fd, bytes, pa));
    BeginPushStepKeeps(l, s, id, fd, bytes, pa);
    PushBegins(l, s, id, fd, bytes, pa);
    RunKeeps(l, begun, es);
    EvolvesThrough(s, begun, Run(l, begun, es));
    PushStaysOver(l, begun, es, id);
    PushCanEnd(Run(l, begun, es), id, true);
    PushCanEnd(Run(l, begun, es), id, false);
  }

  lemma TemporaryStaysGone(l: Layout, t: System, id: nat, more: seq<Event>)
    requires l.Valid() && Inv(t) && Enabled(t, EndPush(id, true))
    requires ValidRun(l, Step(l, t, EndPush(id, true)), more)
    ensures !Resolves(Run(l, Step(l, t, EndPush(id, true)), more), t.pushes[id].fd.node, t.pushes[id].tmp)
  {
    var u, p := Step(l, t, EndPush(id, true)), t.pushes[id];
    assert NodeOk(t.nodes[p.fd.node]);
    EndPushStepKeeps(l, t, id, true);
    RunKeeps(l, u, more);
    assert Evolves(u.nodes[p.fd.node], Run(l, u, more).nodes[p.fd.node]);
  }

  /**
    The life of a successful register-remote, whatever runs between its two ends and after it: its temporary
    hint did not resolve before, resolves until it ends, and never again; its end takes no other hint away;
    and every hint issued before it began is gone at last or names what it named then.
   */
  lemma PushLifecycle(l: Layout, s: System, id: nat, fd: Fd, bytes: seq<Byte>, pa: nat, es: seq<Event>, more: seq<Event>)
    requires l.Valid() && Inv(s) && Enabled(s, BeginPush(id, fd, bytes, pa))
    requires ValidRun(l, Step(l, s, BeginPush(id, fd, bytes, pa)), es) && NoEnd(es, id)
    requires Enabled(Run(l, Step(l, s, BeginPush(id, fd, bytes, pa)), es), EndPush(id, true))
    requires ValidRun(l, Step(l, Run(l, Step(l, s, BeginPush(id, fd, bytes, pa)), es), EndPush(id, true)), more)
    ensures var t, tmp := Run(l, Step(l, s, BeginPush(id, fd, bytes, pa)), es), s.nodes[fd.node].curId + 1;
            var u := Run(l, Step(l, t, EndPush(id, true)), more);
            && !Resolves(s, fd.node, tmp) && !Resolves(u, fd.node, tmp)
            && RemovesOnly(t, Step(l, t, EndPush(id, true)), fd.node, tmp)
            && OthersKeepMeaning(s, u)
  {
    var t := Run(l, Step(l, s, BeginPush(id, fd, bytes, pa)), es);
    PushInProgress(l, s, id, fd, bytes, pa, es);
    PushRemovesOnlyItsHint(l, t, id, true);
    TemporaryStaysGone(l, t, id, more);
    EndPushStepKeeps(l, t, id, true);
    RunKeeps(l, Step(l, t, EndPush(id, true)), more);
    EvolvesThrough(s, t, Step(l, t, EndPush(id, true)));
    EvolvesThrough(s, Step(l, t, EndPush(id, true)), Run(l, Step(l, t, EndPush(id, true)), more));
    EvolvesKeepsMeaning(s, Run(l, Step(l, t, EndPush(id, true)), more));
  }

  ghost predicate SameRegistries(s: System, t: System)
  {
    |s.nodes| == |t.nodes| && forall m :: 0 <= m < |s.nodes| ==> t.nodes[m].registry == s.nodes[m].registry
  }

  /** Files and unfiles nothing. */
  predicate Quiet(e: Event) {
    e.Open? || e.Query? || e.Read? || e.Reuse?
  }

  lemma {:induction false} QuietRun(l: Layout, s: System, es: seq<Event>)
    requires l.Valid() && ValidRun(l, s, es) && forall i :: 0 <= i < |es| ==> Quiet(es[i])
    ensures SameRegistries(s, Run(l, s, es))
    decreases |es|
  {
    if es != [] {
      QuietRun(l, Step(l, s, es[0]), es[1..]);
    }
  }

  lemma EndUndoes(l: Layout, s: System, begun: System, t: System, id: nat, bytes: seq<Byte>, pa: nat)
    requires l.Valid() && Enabled(t, EndPush(id, true)) && |s.nodes| == |begun.nodes| && SameRegistries(begun, t)
    requires !Resolves(s, t.pushes[id].fd.node, t.pushes[id].tmp)
    requires var p := t.pushes[id];
             && begun.nodes[p.fd.node].registry == s.nodes[p.fd.node].registry[p.tmp := Bundle(bytes, pa)]
             && forall m: nat :: m < |s.nodes| && m != p.fd.node ==> begun.nodes[m].registry == s.nodes[m].registry
    ensures SameRegistries(s, Step(l, t, EndPush(id, true)))
  {
    var p := t.pushes[id];
    var before := s.nodes[p.fd.node].registry;
    assert before[p.tmp := Bundle(bytes, pa)] - {p.tmp} == before;
  }

  /** With nothing registered or closed meanwhile, a successful register-remote restores every registry. */
  lemma PushRestoresRegistry(l: Layout, s: System, id: nat, fd: Fd, bytes: seq<Byte>, pa: nat, es: seq<Event>)
    requires l.Valid() && Inv(s) && Enabled(s, BeginPush(id, fd, bytes, pa))
    requires ValidRun(l, Step(l, s, BeginPush(id, fd, bytes, pa)), es) && forall i :: 0 <= i < |es| ==> Quiet(es[i])
    ensures var t := Run(l, Step(l, s, BeginPush(id, fd, bytes, pa)), es);
            Enabled(t, EndPush(id, true)) && SameRegistries(s, Step(l, t, EndPush(id, true)))
  {
    var begun := Step(l, s, BeginPush(id, fd, bytes, pa));
    PushInProgress(l, s, id, fd, bytes, pa, es);
    PushBegins(l, s, id, fd, bytes, pa);
    QuietRun(l, begun, es);
    EndUndoes(l, s, begun, Run(l, begun, es), id, bytes, pa);
  }

  /** A Query for a hint that is not registered starts no pull and changes nothing. */
  lemma UnknownQuery(l: Layout, s: System, id: nat, fd: Fd, source: nat, hint: nat)
    requires l.Valid() && Enabled(s, Query(id, fd, source, hint)) && !Resolves(s, source, hint)
    ensures Step(l, s, Query(id, fd, source, hint)) == s
  {
  }

  /** A pull whose READ fails, whose access info cannot be built, or whose bytes do not decode changes no file and
      no machine. */
  lemma FailedPullChangesNothing(l: Layout, s: System, id: nat, outcome: ReadOutcome)
    requires l.Valid() && Enabled(s, Read(id, outcome))
    requires var p := s.pulls[id];
             outcome != Completed || Decode(l, ReadBuffer(s.nodes[p.source], p.pa, p.sz)).None?
    ensures var t := Step(l, s, Read(id, outcome));
            && t.callers == s.callers && t.nodes == s.nodes && t.pushes == s.pushes && t.pulls == s.pulls - {id}
  {
    assert Step(l, s, Read(id, outcome)).callers == s.callers;
  }

  /** A hint that resolves but belongs to no open file and to no register-remote in progress. */
  ghost predicate Orphan(s: System, m: nat, h: nat)
  {
    && Resolves(s, m, h)
    && (forall f :: f in s.callers && f.node == m ==> s.callers[f].privateHint != Hint(h))
    && (forall p :: p in s.pushes && s.pushes[p].fd.node == m ==> s.pushes[p].tmp != h)
  }

  lemma OrphanIgnoresRead(l: Layout, s: System, id: nat, outcome: ReadOutcome, m: nat, h: nat)
    requires l.Valid() && Enabled(s, Read(id, outcome)) && Orphan(s, m, h)
    ensures Orphan(Step(l, s, Read(id, outcome)), m, h)
  {
    var t, fd := Step(l, s, Read(id, outcome)), s.pulls[id].fd;
    assert t.callers == s.callers[fd := t.callers[fd]];
    assert t.nodes == s.nodes && t.pushes == s.pushes;
  }

  lemma OrphanFiles(l: Layout, s: System, e: Event, m: nat, h: nat)
    requires l.Valid() && Enabled(s, e) && Orphan(s, m, h) && NodeOk(s.nodes[m]) && (e.DoRegister? || e.BeginPush?)
    ensures Orphan(Step(l, s, e), m, h)
  {
  }

  lemma OrphanStays(l: Layout, s: System, e: Event, m: nat, h: nat)
    requires l.Valid() && Enabled(s, e) && Orphan(s, m, h)
    requires !e.Read? && !e.DoRegister? && !e.BeginPush?
    ensures Orphan(Step(l, s, e), m, h)
  {
  }

  lemma OrphanStep(l: Layout, s: System, e: Event, m: nat, h: nat)
    requires l.Valid() && Inv(s) && Enabled(s, e) && Orphan(s, m, h)
    ensures Orphan(Step(l, s, e), m, h)
  {
    assert NodeOk(s.nodes[m]);
    match e
    case Open(fd) => OrphanStays(l, s, e, m, h);
    case Query(_, _, _, _) => OrphanStays(l, s, e, m, h);
    case Reuse(_, _, _) => OrphanStays(l, s, e, m, h);
    case DoRegister(_, _, _) => OrphanFiles(l, s, e, m, h);
    case BeginPush(_, _, _, _) => OrphanFiles(l, s, e, m, h);
    case EndPush(_, _) => OrphanStays(l, s, e, m, h);
    case Close(_) => OrphanStays(l, s, e, m, h);
    case Read(id, outcome) => OrphanIgnoresRead(l, s, id, outcome, m, h);
  }

  lemma {:induction false} OrphanRun(l: Layout, s: System, es: seq<Event>, m: nat, h: nat)
    requires l.Valid() && Inv(s) && ValidRun(l, s, es) && Orphan(s, m, h)
    ensures Orphan(Run(l, s, es), m, h)
    decreases |es|
  {
    if es != [] {
      StepKeeps(l, s, es[0]);
      OrphanStep(l, s, es[0], m, h);
      OrphanRun(l, Step(l, s, es[0]), es[1..], m, h);
    }
  }

  /** The temporary hint of a failed register-remote is never removed again, in any run. */
  lemma FailedPushLeaks(l: Layout, s: System, id: nat, es: seq<Event>)
    requires l.Valid() && Inv(s) && Enabled(s, EndPush(id, false))
    requires ValidRun(l, Step(l, s, EndPush(id, false)), es)
    ensures Resolves(Run(l, Step(l, s, EndPush(id, false)), es), s.pushes[id].fd.node, s.pushes[id].tmp)
  {
    StepKeeps(l, s, EndPush(id, false));
    OrphanRun(l, Step(l, s, EndPush(id, false)), es, s.pushes[id].fd.node, s.pushes[id].tmp);
  }
}
