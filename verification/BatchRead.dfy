/**
  Batched reads over the send queue of one CPU (`batch_read_remote_pages`, dmerge/src/descriptors/heap.rs).
  Only the request for the last address of a batch is signalled and awaited.
 */
module BatchRead {
  import opened Words
  import opened Descriptor
  import opened RemotePaging

  /** What each address of a batch should deliver: the remote frame, or nothing when it is not mapped. */
  type Wants = seq<Option<Data>>

  function Want(d: HeapDescriptor, va: nat, remote: RemoteMemory): Option<Data>
  {
    if Lookup(d, va).Some? then Some(RemoteFrame(d, va, remote)) else None
  }

  function WantAll(d: HeapDescriptor, addrs: seq<nat>, remote: RemoteMemory): (w: Wants)
    ensures |w| == |addrs|
  {
    seq(|addrs|, i requires 0 <= i < |addrs| => Want(d, addrs[i], remote))
  }

  /** Outcomes of one batch: the posts that succeed, and whether the single wait gets a completion in time. */
  datatype BatchAnswer = BatchAnswer(posted: set<nat>, waitOk: bool)

  predicate BatchWell(a: BatchAnswer, n: nat) {
    a.waitOk && forall i :: 0 <= i < n ==> i in a.posted
  }

  // ---------------------------------------------------------------------------
  // What one batch does
  // ---------------------------------------------------------------------------

  /** A wait takes place when the last address is mapped. */
  predicate Waits(w: Wants) {
    w != [] && w[|w| - 1].Some?
  }

  predicate Signals(w: Wants, a: BatchAnswer) {
    Waits(w) && |w| - 1 in a.posted
  }

  /** The wait finds a completion: that of this batch, or one that an earlier wait left behind. */
  predicate Confirmed(w: Wants, a: BatchAnswer, q: SendQueue) {
    Waits(w) && a.waitOk && (Signals(w, a) || q.groups != [])
  }

  /** A slot is empty for an unmapped address, and for the last one when the wait fails. */
  predicate SlotEmpty(w: Wants, confirmed: bool, i: nat)
    requires i < |w|
  {
    w[i].None? || (i == |w| - 1 && !confirmed)
  }

  function FilledSlots(w: Wants, confirmed: bool): set<nat>
  {
    set i | 0 <= i < |w| && !SlotEmpty(w, confirmed, i)
  }

  function WithPosts(q: SendQueue, posts: map<nat, Data>, signalled: bool): SendQueue
  {
    if signalled then SendQueue(q.groups + [q.open + posts], map[]) else q.(open := q.open + posts)
  }

  /** Which slot each page of a batch sits in. */
  type Owner = map<nat, nat>

  function WithPages(live: map<nat, Content>, pages: set<nat>): map<nat, Content>
  {
    map p | p in live.Keys + pages :: if p in pages then Unfilled else live[p]
  }

  /** A confirmed wait fills everything up to the oldest signalled request; otherwise nothing is filled. */
  function AfterBatch(m: Memory, pages: set<nat>, posts: map<nat, Data>, signalled: bool, confirmed: bool): Memory
  {
    var queue, live := WithPosts(m.queue, posts, signalled), WithPages(m.live, pages);
    if confirmed && queue.groups != []
    then Memory(Completed(live, queue.groups[0]), queue.(groups := queue.groups[1..]))
    else Memory(live, queue)
  }

  /** `owner` names exactly the pages in the slots, each in one slot. */
  ghost predicate Owns(owner: Owner, res: seq<Option<nat>>)
  {
    && (forall k :: 0 <= k < |res| && res[k].Some? ==> res[k].value in owner && owner[res[k].value] == k)
    && (forall p :: p in owner ==> owner[p] < |res| && res[owner[p]] == Some(p))
  }

  ghost predicate SlotsRight(w: Wants, confirmed: bool, res: seq<Option<nat>>)
  {
    |res| <= |w| && forall k :: 0 <= k < |res| ==> (res[k].None? <==> SlotEmpty(w, confirmed, k))
  }

  /** Every page of the batch is new, and its request, if posted, delivers what its address wants. */
  ghost predicate Sends(w: Wants, a: BatchAnswer, owner: Owner, posts: map<nat, Data>, first: nat, next: nat)
  {
    && (forall p :: p in posts ==> first <= p < next)
    && forall p :: p in owner ==>
         && first <= p < next
         && owner[p] < |w| && w[owner[p]].Some?
         && (p in posts <==> owner[p] in a.posted)
         && (p in posts ==> posts[p] == w[owner[p]].value)
  }

  /** Pages still in use after the batch; a last page whose wait failed is freed. */
  function MappedCount(w: Wants): (n: nat)
    ensures n <= |w|
    ensures Waits(w) ==> n >= 1
  {
    if w == [] then 0 else MappedCount(w[..|w| - 1]) + if w[|w| - 1].Some? then 1 else 0
  }

  function KeptCount(w: Wants, confirmed: bool): nat
  {
    MappedCount(w) - if Waits(w) && !confirmed then 1 else 0
  }

  /** What the finished batch has done; `first` and `next` bound the pages it was handed. */
  ghost predicate BatchDone(w: Wants, a: BatchAnswer, before: Memory, first: nat, after: Memory, next: nat,
                            owner: Owner, posts: map<nat, Data>, res: seq<Option<nat>>)
  {
    var confirmed := Confirmed(w, a, before.queue);
    && |res| == |w|
    && SlotsRight(w, confirmed, res)
    && Owns(owner, res)
    && first <= next
    && Sends(w, a, owner, posts, first, next)
    && after == AfterBatch(before, owner.Keys, posts, Signals(w, a), confirmed)
    && |after.live| == |before.live| + KeptCount(w, confirmed)
  }

  /** The state of the loop before the last address is done. */
  ghost predicate BatchOpen(w: Wants, a: BatchAnswer, before: Memory, first: nat, now: Memory, next: nat,
                            owner: Owner, posts: map<nat, Data>, res: seq<Option<nat>>)
  {
    && |res| < |w|
    && SlotsRight(w, Confirmed(w, a, before.queue), res)
    && Owns(owner, res)
    && first <= next
    && Sends(w, a, owner, posts, first, next)
    && now == Memory(WithPages(before.live, owner.Keys), WithPosts(before.queue, posts, false))
    && |now.live| == |before.live| + MappedCount(w[..|res|])
  }

  // ---------------------------------------------------------------------------
  // One turn of the loop
  // ---------------------------------------------------------------------------

  /** The send queue once page p has its request posted, if the post succeeds. */
  function NextQueue(q: SendQueue, a: BatchAnswer, i: nat, p: nat, data: Data, last: bool): SendQueue
  {
    if i in a.posted then WithPost(q, p, data, last) else q
  }

  /** What one turn makes of slot, pages and queue. */
  ghost predicate Turned(want: Option<Data>, i: nat, last: bool, a: BatchAnswer, m: Memory, p: nat,
                         slot: Option<nat>, after: Memory, next: nat)
  {
    if want.None? then slot == None && after == m && next == p
    else
      var queue := NextQueue(m.queue, a, i, p, want.value, last);
      && next == p + 1
      && if last && !(a.waitOk && queue.groups != []) then slot == None && after == Memory(m.live, queue)
         else
           && slot == Some(p)
           && after == if last
                then Memory(Completed(m.live[p := Unfilled], queue.groups[0]), queue.(groups := queue.groups[1..]))
                else Memory(m.live[p := Unfilled], queue)
  }

  /** One turn allocates, posts, and for the last address waits. */
  method PostRead(want: Option<Data>, i: nat, last: bool, a: BatchAnswer, pool: PagePool) returns (slot: Option<nat>)
    requires pool.Valid()
    modifies pool
    ensures pool.Valid()
    ensures Turned(want, i, last, a, old(pool.State()), old(pool.next), slot, pool.State(), pool.next)
  {
    if want.None? {
      return None;
    }
    ghost var live := pool.live;
    var newPage := pool.Alloc();
    if i in a.posted {
      pool.Post(newPage, want.value, last);
    }
    if last {
      var ok := pool.Wait(a.waitOk);
      if !ok {
        pool.Free(newPage);
        assert pool.live == live;
        return None;
      }
    }
    return Some(newPage);
  }

  lemma CountSnoc(w: Wants, i: nat)
    requires i < |w|
    ensures MappedCount(w[..i + 1]) == MappedCount(w[..i]) + if w[i].Some? then 1 else 0
  {
    assert w[..i + 1][..i] == w[..i];
  }

  lemma CountLast(w: Wants)
    requires w != []
    ensures MappedCount(w) == MappedCount(w[..|w| - 1]) + if w[|w| - 1].Some? then 1 else 0
  {
  }

  lemma OwnsOneMore(owner: Owner, res: seq<Option<nat>>, p: nat)
    requires Owns(owner, res) && p !in owner
    ensures Owns(owner[p := |res|], res + [Some(p)])
  {
  }

  lemma OwnsEmptySlot(owner: Owner, res: seq<Option<nat>>)
    requires Owns(owner, res)
    ensures Owns(owner, res + [None])
  {
  }

  lemma OneMorePage(live: map<nat, Content>, owner: Owner, p: nat, i: nat)
    requires p !in live && p !in owner
    ensures WithPages(live, owner.Keys)[p := Unfilled] == WithPages(live, owner[p := i].Keys)
  {
  }

  lemma OneMoreKey(live: map<nat, Content>, p: nat)
    requires p !in live
    ensures |live[p := Unfilled]| == |live| + 1
  {
    assert live[p := Unfilled].Keys == live.Keys + {p};
    assert |live[p := Unfilled]| == |live[p := Unfilled].Keys| && |live| == |live.Keys|;
  }

  lemma SlotsSnoc(w: Wants, confirmed: bool, res: seq<Option<nat>>, slot: Option<nat>)
    requires SlotsRight(w, confirmed, res) && |res| < |w|
    requires slot.None? <==> SlotEmpty(w, confirmed, |res|)
    ensures SlotsRight(w, confirmed, res + [slot])
  {
  }

  lemma SameSize(live: map<nat, Content>, done: map<nat, Data>)
    ensures |Completed(live, done)| == |live|
  {
    assert Completed(live, done).Keys == live.Keys;
    assert |live| == |live.Keys| && |Completed(live, done)| == |Completed(live, done).Keys|;
  }

  /** The request of the next page joins those of this batch. */
  lemma OneMorePost(q: SendQueue, posts: map<nat, Data>, p: nat, data: Data, last: bool)
    ensures WithPost(WithPosts(q, posts, false), p, data, last) == WithPosts(q, posts[p := data], last)
  {
    assert (q.open + posts)[p := data] == q.open + posts[p := data];
  }

  /** The requests of the batch once the i-th address, with page p, has been posted. */
  function PostsWith(posts: map<nat, Data>, a: BatchAnswer, i: nat, p: nat, want: Option<Data>): map<nat, Data>
  {
    if want.Some? && i in a.posted then posts[p := want.value] else posts
  }

  lemma SendsOneMore(w: Wants, a: BatchAnswer, owner: Owner, posts: map<nat, Data>, first: nat, p: nat, i: nat)
    requires Sends(w, a, owner, posts, first, p) && first <= p && i < |w| && w[i].Some?
    ensures Sends(w, a, owner[p := i], PostsWith(posts, a, i, p, w[i]), first, p + 1)
    ensures Sends(w, a, owner, PostsWith(posts, a, i, p, w[i]), first, p + 1)
  {
  }

  lemma FreshPage(live: map<nat, Content>, owner: Owner, now: Memory, p: nat)
    requires Bounded(now, p) && now.live == WithPages(live, owner.Keys)
    ensures p !in now.live && p !in live && p !in owner
  {
    assert p !in now.live.Keys;
  }

  /** An unmapped address leaves an empty slot and nothing else. */
  lemma TurnSkipped(w: Wants, a: BatchAnswer, before: Memory, first: nat, now: Memory, p: nat, owner: Owner,
                    posts: map<nat, Data>, res: seq<Option<nat>>)
    requires BatchOpen(w, a, before, first, now, p, owner, posts, res) && w[|res|].None? && |res| + 1 < |w|
    ensures BatchOpen(w, a, before, first, now, p, owner, posts, res + [None])
  {
    var i := |res|;
    OwnsEmptySlot(owner, res);
    SlotsSnoc(w, Confirmed(w, a, before.queue), res, None);
    CountSnoc(w, i);
    assert |now.live| == |before.live| + MappedCount(w[..i + 1]);
  }

  /** So it does when it is the last one. */
  lemma LastSkipped(w: Wants, a: BatchAnswer, before: Memory, first: nat, now: Memory, p: nat, owner: Owner,
                    posts: map<nat, Data>, res: seq<Option<nat>>)
    requires BatchOpen(w, a, before, first, now, p, owner, posts, res) && w[|res|].None? && |res| + 1 == |w|
    ensures BatchDone(w, a, before, first, now, p, owner, posts, res + [None])
  {
    OwnsEmptySlot(owner, res);
    SlotsSnoc(w, Confirmed(w, a, before.queue), res, None);
    CountLast(w);
  }

  /** A mapped address before the last gets a page and, if the post succeeds, an unsignalled request. */
  lemma TurnPosted(w: Wants, a: BatchAnswer, before: Memory, first: nat, now: Memory, p: nat, owner: Owner,
                   posts: map<nat, Data>, res: seq<Option<nat>>, after: Memory)
    requires Bounded(now, p) && BatchOpen(w, a, before, first, now, p, owner, posts, res)
    requires |res| + 1 < |w| && w[|res|].Some?
    requires after == Memory(now.live[p := Unfilled], NextQueue(now.queue, a, |res|, p, w[|res|].value, false))
    ensures BatchOpen(w, a, before, first, after, p + 1, owner[p := |res|], PostsWith(posts, a, |res|, p, w[|res|]),
                      res + [Some(p)])
  {
    var i := |res|;
    FreshPage(before.live, owner, now, p);
    OwnsOneMore(owner, res, p);
    CountSnoc(w, i);
    SendsOneMore(w, a, owner, posts, first, p, i);
    OneMorePage(before.live, owner, p, i);
    OneMoreKey(now.live, p);
    SlotsSnoc(w, Confirmed(w, a, before.queue), res, Some(p));
    OneMorePost(before.queue, posts, p, w[i].value, false);
  }

  lemma LastPosts(w: Wants, a: BatchAnswer, before: SendQueue, now: SendQueue, posts: map<nat, Data>, p: nat)
    requires Waits(w) && now == WithPosts(before, posts, false)
    ensures var i := |w| - 1;
            var queue := NextQueue(now, a, i, p, w[i].value, true);
            && queue == WithPosts(before, PostsWith(posts, a, i, p, w[i]), Signals(w, a))
            && (Confirmed(w, a, before) <==> a.waitOk && queue.groups != [])
  {
    OneMorePost(before, posts, p, w[|w| - 1].value, true);
  }

  /** The last address, its wait confirmed: its page stays. */
  lemma TurnConfirmed(w: Wants, a: BatchAnswer, before: Memory, first: nat, now: Memory, p: nat, owner: Owner,
                      posts: map<nat, Data>, res: seq<Option<nat>>, after: Memory)
    requires Bounded(now, p) && BatchOpen(w, a, before, first, now, p, owner, posts, res)
    requires |res| + 1 == |w| && Confirmed(w, a, before.queue)
    requires var queue := NextQueue(now.queue, a, |res|, p, w[|res|].value, true);
             && queue.groups != []
             && after == Memory(Completed(now.live[p := Unfilled], queue.groups[0]), queue.(groups := queue.groups[1..]))
    ensures BatchDone(w, a, before, first, after, p + 1, owner[p := |res|], PostsWith(posts, a, |res|, p, w[|res|]),
                      res + [Some(p)])
  {
    var i := |res|;
    FreshPage(before.live, owner, now, p);
    OwnsOneMore(owner, res, p);
    CountLast(w);
    SendsOneMore(w, a, owner, posts, first, p, i);
    OneMorePage(before.live, owner, p, i);
    OneMoreKey(now.live, p);
    SlotsSnoc(w, Confirmed(w, a, before.queue), res, Some(p));
    LastPosts(w, a, before.queue, now.queue, posts, p);
    SameSize(WithPages(before.live, owner[p := i].Keys),
             WithPosts(before.queue, PostsWith(posts, a, i, p, w[i]), Signals(w, a)).groups[0]);
  }

  /** The last address, its wait failed: its page is freed again. */
  lemma TurnFailed(w: Wants, a: BatchAnswer, before: Memory, first: nat, now: Memory, p: nat, owner: Owner,
                   posts: map<nat, Data>, res: seq<Option<nat>>, after: Memory)
    requires BatchOpen(w, a, before, first, now, p, owner, posts, res)
    requires |res| + 1 == |w| && Waits(w) && !Confirmed(w, a, before.queue)
    requires after == Memory(now.live, NextQueue(now.queue, a, |res|, p, w[|res|].value, true))
    ensures BatchDone(w, a, before, first, after, p + 1, owner, PostsWith(posts, a, |res|, p, w[|res|]), res + [None])
  {
    OwnsEmptySlot(owner, res);
    SlotsSnoc(w, Confirmed(w, a, before.queue), res, None);
    CountLast(w);
    SendsOneMore(w, a, owner, posts, first, p, |res|);
    LastPosts(w, a, before.queue, now.queue, posts, p);
    assert KeptCount(w, false) == MappedCount(w[..|res|]);
    assert after == AfterBatch(before, owner.Keys, PostsWith(posts, a, |res|, p, w[|res|]), Signals(w, a), false);
  }

  /** The state of the loop after `|res|` addresses. */
  ghost predicate BatchAt(w: Wants, a: BatchAnswer, before: Memory, first: nat, now: Memory, next: nat,
                          owner: Owner, posts: map<nat, Data>, res: seq<Option<nat>>)
  {
    if |res| < |w| then BatchOpen(w, a, before, first, now, next, owner, posts, res)
    else BatchDone(w, a, before, first, now, next, owner, posts, res)
  }

  lemma BatchStarts(w: Wants, a: BatchAnswer, m: Memory, next: nat)
    ensures BatchAt(w, a, m, next, m, next, map[], map[], [])
  {
    assert WithPages(m.live, {}) == m.live;
    assert m.queue.open + map[] == m.queue.open;
  }

  function OwnerWith(owner: Owner, slot: Option<nat>, i: nat): Owner
  {
    if slot.Some? then owner[slot.value := i] else owner
  }

  lemma TurnKeeps(w: Wants, a: BatchAnswer, before: Memory, first: nat, now: Memory, p: nat, owner: Owner,
                  posts: map<nat, Data>, res: seq<Option<nat>>, slot: Option<nat>, after: Memory, next: nat)
    requires Bounded(now, p) && |res| < |w| && BatchAt(w, a, before, first, now, p, owner, posts, res)
    requires Turned(w[|res|], |res|, |res| == |w| - 1, a, now, p, slot, after, next)
    ensures BatchAt(w, a, before, first, after, next, OwnerWith(owner, slot, |res|),
                    PostsWith(posts, a, |res|, p, w[|res|]), res + [slot])
  {
    if w[|res|].None? {
      if |res| < |w| - 1 {
        TurnSkipped(w, a, before, first, now, p, owner, posts, res);
      } else {
        LastSkipped(w, a, before, first, now, p, owner, posts, res);
      }
    } else if |res| < |w| - 1 {
      TurnPosted(w, a, before, first, now, p, owner, posts, res, after);
    } else {
      LastPosts(w, a, before.queue, now.queue, posts, p);
      if slot.Some? {
        TurnConfirmed(w, a, before, first, now, p, owner, posts, res, after);
      } else {
        TurnFailed(w, a, before, first, now, p, owner, posts, res, after);
      }
    }
  }

  // ---------------------------------------------------------------------------
  // The batch
  // ---------------------------------------------------------------------------

  /** An empty slot means an unmapped address, or the last one when its wait finds no completion. */
  ghost predicate SlotsMean(d: HeapDescriptor, addrs: seq<nat>, a: BatchAnswer, stale: bool, res: seq<Option<nat>>)
  {
    && |res| == |addrs|
    && forall k :: 0 <= k < |addrs| ==>
         (res[k].None? <==> addrs[k] / 4096 !in d.pageTable
                            || (k == |addrs| - 1 && !(a.waitOk && (k in a.posted || stale))))
  }

  /** The pages in use are those of before and those in the slots, which are new and each in one slot. */
  ghost predicate PagesMean(before: map<nat, Content>, after: map<nat, Content>, res: seq<Option<nat>>)
  {
    && (forall k :: 0 <= k < |res| && res[k].Some? ==> res[k].value !in before && res[k].value in after)
    && (forall j, k :: 0 <= j < k < |res| && res[j].Some? && res[k].Some? ==> res[j].value != res[k].value)
    && (forall p :: p in before ==> p in after)
    && (forall p :: p in after && p !in before ==> exists k :: 0 <= k < |res| && res[k] == Some(p))
  }

  /** The last address is mapped, its READ is posted and the wait succeeds. */
  predicate Awaited(d: HeapDescriptor, addrs: seq<nat>, a: BatchAnswer) {
    addrs != [] && addrs[|addrs| - 1] / 4096 in d.pageTable && |addrs| - 1 in a.posted && a.waitOk
  }

  /** With no completion left behind: every READ posted so far has arrived if the last one is awaited, and none
      has otherwise. */
  ghost predicate DataMean(d: HeapDescriptor, addrs: seq<nat>, a: BatchAnswer, remote: RemoteMemory,
                           before: Memory, after: map<nat, Content>, res: seq<Option<nat>>)
    requires SlotsMean(d, addrs, a, false, res) && PagesMean(before.live, after, res)
  {
    && (forall k :: 0 <= k < |addrs| && res[k].Some? ==>
          after[res[k].value] == if Awaited(d, addrs, a) && k in a.posted
                                 then Filled(remote(d.machineInfo, d.pageTable[addrs[k] / 4096])) else Unfilled)
    && (forall p :: p in before.live ==>
          after[p] == if Awaited(d, addrs, a) && p in before.queue.open then Filled(before.queue.open[p]) else before.live[p])
  }

  lemma WantIs(d: HeapDescriptor, addrs: seq<nat>, remote: RemoteMemory, k: nat)
    requires k < |addrs|
    ensures WantAll(d, addrs, remote)[k]
            == if addrs[k] / 4096 in d.pageTable then Some(remote(d.machineInfo, d.pageTable[addrs[k] / 4096])) else None
  {
    assert WantAll(d, addrs, remote)[k] == Want(d, addrs[k], remote);
  }

  lemma SlotsExplained(d: HeapDescriptor, addrs: seq<nat>, a: BatchAnswer, remote: RemoteMemory, q: SendQueue,
                       res: seq<Option<nat>>)
    requires |res| == |addrs|
    requires var w := WantAll(d, addrs, remote); SlotsRight(w, Confirmed(w, a, q), res)
    ensures SlotsMean(d, addrs, a, q.groups != [], res)
  {
    forall k | 0 <= k < |addrs|
      ensures WantAll(d, addrs, remote)[k].Some? <==> addrs[k] / 4096 in d.pageTable
    {
      WantIs(d, addrs, remote, k);
    }
  }

  lemma PagesExplained(w: Wants, a: BatchAnswer, before: Memory, first: nat, after: Memory, next: nat,
                       owner: Owner, posts: map<nat, Data>, res: seq<Option<nat>>)
    requires BatchDone(w, a, before, first, after, next, owner, posts, res) && Bounded(before, first)
    ensures PagesMean(before.live, after.live, res)
    ensures after.live.Keys == before.live.Keys + owner.Keys
  {
    assert after.live.Keys == before.live.Keys + owner.Keys;
    forall p | p in after.live && p !in before.live
      ensures exists k :: 0 <= k < |res| && res[k] == Some(p)
    {
      assert p in owner.Keys;
    }
  }

  /** With no group waiting, a batch that signals and waits makes everything posted arrive, and any other makes
      nothing arrive. */
  lemma QuietBatch(m: Memory, pages: set<nat>, posts: map<nat, Data>, signalled: bool, confirmed: bool)
    requires m.queue.groups == []
    ensures AfterBatch(m, pages, posts, signalled, confirmed).live
            == if signalled && confirmed then Completed(WithPages(m.live, pages), m.queue.open + posts)
               else WithPages(m.live, pages)
  {
  }

  lemma AwaitedIs(d: HeapDescriptor, addrs: seq<nat>, a: BatchAnswer, remote: RemoteMemory, q: SendQueue)
    requires q.groups == []
    ensures var w := WantAll(d, addrs, remote);
            Signals(w, a) && Confirmed(w, a, q) <==> Awaited(d, addrs, a)
  {
    if addrs != [] {
      WantIs(d, addrs, remote, |addrs| - 1);
    }
  }

  lemma DataExplained(d: HeapDescriptor, addrs: seq<nat>, a: BatchAnswer, remote: RemoteMemory,
                      before: Memory, first: nat, after: Memory, next: nat,
                      owner: Owner, posts: map<nat, Data>, res: seq<Option<nat>>)
    requires BatchDone(WantAll(d, addrs, remote), a, before, first, after, next, owner, posts, res) && Bounded(before, first)
    requires before.queue.groups == []
    requires SlotsMean(d, addrs, a, false, res) && PagesMean(before.live, after.live, res)
    ensures DataMean(d, addrs, a, remote, before, after.live, res)
  {
    var w := WantAll(d, addrs, remote);
    QuietBatch(before, owner.Keys, posts, Signals(w, a), Confirmed(w, a, before.queue));
    AwaitedIs(d, addrs, a, remote, before.queue);
    forall k | 0 <= k < |addrs| && res[k].Some?
      ensures after.live[res[k].value] == if Awaited(d, addrs, a) && k in a.posted
                                          then Filled(remote(d.machineInfo, d.pageTable[addrs[k] / 4096])) else Unfilled
    {
      var p := res[k].value;
      assert p in owner && owner[p] == k;
      WantIs(d, addrs, remote, k);
    }
    forall p | p in before.live
      ensures p !in owner && p !in posts
    {
      assert p < first;
    }
  }

  /** What a finished batch means for slots, pages and data, in terms of the descriptor and the remote memory. */
  lemma BatchExplained(d: HeapDescriptor, addrs: seq<nat>, a: BatchAnswer, remote: RemoteMemory,
                       before: Memory, first: nat, after: Memory, next: nat,
                       owner: Owner, posts: map<nat, Data>, res: seq<Option<nat>>)
    requires BatchDone(WantAll(d, addrs, remote), a, before, first, after, next, owner, posts, res) && Bounded(before, first)
    ensures SlotsMean(d, addrs, a, before.queue.groups != [], res)
    ensures PagesMean(before.live, after.live, res)
    ensures before.queue.groups == [] ==> DataMean(d, addrs, a, remote, before, after.live, res)
  {
    SlotsExplained(d, addrs, a, remote, before.queue, res);
    PagesExplained(WantAll(d, addrs, remote), a, before, first, after, next, owner, posts, res);
    if before.queue.groups == [] {
      DataExplained(d, addrs, a, remote, before, first, after, next, owner, posts, res);
    }
  }

  /**
    `batch_read_remote_pages`, for every outcome of its posts and its wait: one slot per address, in order; every
    page it allocates is in one slot or freed; what arrives is what was posted up to the completion it polled.
   */
  method BatchReadRemotePages(d: HeapDescriptor, addrs: seq<nat>, a: BatchAnswer, remote: RemoteMemory, pool: PagePool)
    returns (res: seq<Option<nat>>, ghost owner: Owner, ghost posts: map<nat, Data>)
    requires pool.Valid()
    modifies pool
    ensures pool.Valid()
    ensures BatchDone(WantAll(d, addrs, remote), a, old(pool.State()), old(pool.next), pool.State(), pool.next,
                      owner, posts, res)
    ensures SlotsMean(d, addrs, a, old(pool.queue).groups != [], res)
    ensures PagesMean(old(pool.live), pool.live, res)
    ensures old(pool.queue).groups == [] ==> DataMean(d, addrs, a, remote, old(pool.State()), pool.live, res)
  {
    ghost var w, before, first := WantAll(d, addrs, remote), pool.State(), pool.next;
    res, owner, posts := [], map[], map[];
    BatchStarts(w, a, before, first);
    for i := 0 to |addrs|
      invariant pool.Valid() && |res| == i
      invariant BatchAt(w, a, before, first, pool.State(), pool.next, owner, posts, res)
    {
      ghost var now, p := pool.State(), pool.next;
      var slot := PostRead(Want(d, addrs[i], remote), i, i == |addrs| - 1, a, pool);
      TurnKeeps(w, a, before, first, now, p, owner, posts, res, slot, pool.State(), pool.next);
      owner, posts := OwnerWith(owner, slot, i), PostsWith(posts, a, i, p, w[i]);
      res := res + [slot];
    }
    BatchExplained(d, addrs, a, remote, before, first, pool.State(), pool.next, owner, posts, res);
  }
}
