/**
  The fan-in barrier of the workflow runtime (exp/wordcount/app.py): events of one workflow wait at a stage
  until enough have arrived, then leave together.
 */
module Barrier {
  import opened Sequences

  /** The name of a stage, or the id of a workflow. */
  datatype Name = Name(text: string)

  datatype Key = Key(stage: Name, wf: Name)

  datatype Arrival<E> = Arrival(key: Key, event: E)

  /** A batch that left the barrier. */
  datatype Fired<E> = Fired(key: Key, batch: seq<E>)

  type Pending<E> = map<Key, seq<E>>

  function Waiting<E>(p: Pending<E>, key: Key): seq<E>
  {
    if key in p then p[key] else []
  }

  // ---------------------------------------------------------------------------
  // One arrival
  // ---------------------------------------------------------------------------

  function After<E>(p: Pending<E>, a: Arrival<E>, k: int): Pending<E>
  {
    var batch := Waiting(p, a.key) + [a.event];
    if |batch| >= k then p - {a.key} else p[a.key := batch]
  }

  function Fires<E>(p: Pending<E>, a: Arrival<E>, k: int): (r: seq<Fired<E>>)
  {
    var batch := Waiting(p, a.key) + [a.event];
    if |batch| >= k then [Fired(a.key, batch)] else []
  }

  // ---------------------------------------------------------------------------
  // All arrivals, oldest first
  // ---------------------------------------------------------------------------

  function PendingAfter<E>(arrivals: seq<Arrival<E>>, k: int): Pending<E>
  {
    if arrivals == [] then map[]
    else After(PendingAfter(arrivals[..|arrivals| - 1], k), arrivals[|arrivals| - 1], k)
  }

  function FiredBy<E>(arrivals: seq<Arrival<E>>, k: int): seq<Fired<E>>
  {
    if arrivals == [] then []
    else
      var earlier := arrivals[..|arrivals| - 1];
      FiredBy(earlier, k) + Fires(PendingAfter(earlier, k), arrivals[|arrivals| - 1], k)
  }

  /** The events of one stage and workflow, in order of arrival. */
  function EventsOf<E>(arrivals: seq<Arrival<E>>, key: Key): seq<E>
  {
    if arrivals == [] then []
    else
      var last := arrivals[|arrivals| - 1];
      EventsOf(arrivals[..|arrivals| - 1], key) + if last.key == key then [last.event] else []
  }

  /** The arrivals of one stage and workflow. */
  function Only<E>(arrivals: seq<Arrival<E>>, key: Key): seq<Arrival<E>>
  {
    if arrivals == [] then []
    else
      var last := arrivals[|arrivals| - 1];
      Only(arrivals[..|arrivals| - 1], key) + if last.key == key then [last] else []
  }

  function BatchesOf<E>(fired: seq<Fired<E>>, key: Key): seq<seq<E>>
  {
    if fired == [] then []
    else
      var last := fired[|fired| - 1];
      BatchesOf(fired[..|fired| - 1], key) + if last.key == key then [last.batch] else []
  }

  /** A threshold below one fires at every arrival, as one does. */
  function Threshold(k: int): (t: nat)
    ensures t >= 1
  {
    if k < 1 then 1 else k
  }

  /** These indices, in rising order, are those of the arrivals at this stage and workflow. */
  ghost predicate IndicesOf<E>(arrivals: seq<Arrival<E>>, key: Key, indices: seq<nat>)
  {
    && (forall j :: 0 <= j < |indices| ==> indices[j] < |arrivals|)
    && (forall j, k :: 0 <= j < k < |indices| ==> indices[j] < indices[k])
    && (forall i :: 0 <= i < |arrivals| ==> (arrivals[i].key == key <==> i in indices))
  }

  /** The events of a stage and workflow are those that arrived there, each once and in order of arrival. */
  lemma {:induction false} EventsInOrder<E>(arrivals: seq<Arrival<E>>, key: Key) returns (indices: seq<nat>)
    ensures IndicesOf(arrivals, key, indices)
    ensures |EventsOf(arrivals, key)| == |indices|
    ensures forall j :: 0 <= j < |indices| ==> EventsOf(arrivals, key)[j] == arrivals[indices[j]].event
    decreases |arrivals|
  {
    indices := [];
    if arrivals != [] {
      var n := |arrivals| - 1;
      indices := EventsInOrder(arrivals[..n], key);
      if arrivals[n].key == key {
        indices := indices + [n];
      }
    }
  }

  // ---------------------------------------------------------------------------
  // What the barrier delivers
  // ---------------------------------------------------------------------------

  lemma BatchesSnoc<E>(fired: seq<Fired<E>>, f: Fired<E>, key: Key)
    ensures BatchesOf(fired + [f], key) == BatchesOf(fired, key) + if f.key == key then [f.batch] else []
  {
    assert (fired + [f])[..|fired|] == fired;
  }

  /** The events, in order, cut into full batches and a shorter rest. */
  ghost predicate Splits<E>(batches: seq<seq<E>>, waiting: seq<E>, events: seq<E>, t: nat)
  {
    && Flatten(batches) + waiting == events
    && (forall i :: 0 <= i < |batches| ==> |batches[i]| == t)
    && |waiting| < t
  }

  /** What is known about one (stage, workflow) after a run. */
  ghost predicate Delivers<E>(arrivals: seq<Arrival<E>>, k: int, key: Key)
  {
    var batches, waiting := BatchesOf(FiredBy(arrivals, k), key), Waiting(PendingAfter(arrivals, k), key);
    Splits(batches, waiting, EventsOf(arrivals, key), Threshold(k)) && (key in PendingAfter(arrivals, k) ==> waiting != [])
  }

  lemma SplitsOneMore<E>(batches: seq<seq<E>>, waiting: seq<E>, events: seq<E>, k: int, e: E)
    requires Splits(batches, waiting, events, Threshold(k))
    ensures |waiting| + 1 >= k ==> Splits(batches + [waiting + [e]], [], events + [e], Threshold(k))
    ensures |waiting| + 1 < k ==> Splits(batches, waiting + [e], events + [e], Threshold(k))
  {
    FlattenSnoc(batches, waiting + [e]);
    assert Flatten(batches) + (waiting + [e]) == events + [e];
    assert Flatten(batches + [waiting + [e]]) + [] == Flatten(batches + [waiting + [e]]);
  }

  lemma PendingSnoc<E>(earlier: seq<Arrival<E>>, last: Arrival<E>, k: int)
    ensures PendingAfter(earlier + [last], k) == After(PendingAfter(earlier, k), last, k)
  {
    assert (earlier + [last])[..|earlier|] == earlier;
  }

  /** What waits under a key after one arrival depends only on what waited there. */
  lemma WaitingAfter<E>(p: Pending<E>, a: Arrival<E>, k: int, key: Key)
    ensures var batch := Waiting(p, key) + [a.event];
            Waiting(After(p, a, k), key)
            == if a.key != key then Waiting(p, key) else if |batch| >= k then [] else batch
  {
  }

  lemma FiredSnoc<E>(earlier: seq<Arrival<E>>, last: Arrival<E>, k: int, key: Key)
    ensures var batch := Waiting(PendingAfter(earlier, k), last.key) + [last.event];
            BatchesOf(FiredBy(earlier + [last], k), key)
            == BatchesOf(FiredBy(earlier, k), key) + if last.key == key && |batch| >= k then [batch] else []
  {
    assert (earlier + [last])[..|earlier|] == earlier;
    var batch := Waiting(PendingAfter(earlier, k), last.key) + [last.event];
    if |batch| >= k {
      BatchesSnoc(FiredBy(earlier, k), Fired(last.key, batch), key);
    } else {
      assert FiredBy(earlier, k) + [] == FiredBy(earlier, k);
      assert BatchesOf(FiredBy(earlier, k), key) + [] == BatchesOf(FiredBy(earlier, k), key);
    }
  }

  lemma DeliversOneMore<E>(earlier: seq<Arrival<E>>, last: Arrival<E>, k: int, key: Key)
    requires Delivers(earlier, k, key)
    ensures Delivers(earlier + [last], k, key)
  {
    var arrivals, batches := earlier + [last], BatchesOf(FiredBy(earlier, k), key);
    var waiting := Waiting(PendingAfter(earlier, k), key);
    assert arrivals[..|earlier|] == earlier;
    FiredSnoc(earlier, last, k, key);
    if last.key == key {
      SplitsOneMore(batches, waiting, EventsOf(earlier, key), k, last.event);
    } else {
      assert EventsOf(earlier, key) + [] == EventsOf(earlier, key) && batches + [] == batches;
    }
    if last.key == key && |waiting| + 1 < k {
      assert batches + [] == batches;
    }
  }

  lemma NothingDelivered<E>(k: int, key: Key)
    ensures var none: seq<Arrival<E>> := []; Delivers(none, k, key)
  {
    var none: seq<Arrival<E>> := [];
    assert PendingAfter(none, k) == map[] && FiredBy(none, k) == [] && EventsOf(none, key) == [];
  }

  /**
    For every threshold and every sequence of arrivals of any stages and workflows: the batches fired for a
    (stage, workflow) followed by what still waits there are its arrivals in order, and every batch has
    exactly the threshold's number of events.
   */
  lemma {:induction false} BarrierRefines<E>(arrivals: seq<Arrival<E>>, k: int, key: Key)
    ensures Delivers(arrivals, k, key)
  {
    if arrivals == [] {
      NothingDelivered<E>(k, key);
    } else {
      var earlier, last := arrivals[..|arrivals| - 1], arrivals[|arrivals| - 1];
      assert earlier + [last] == arrivals;
      BarrierRefines(earlier, k, key);
      DeliversOneMore(earlier, last, k, key);
    }
  }

  lemma {:induction false} FlattenLength<E>(batches: seq<seq<E>>, n: nat)
    requires forall i :: 0 <= i < |batches| ==> |batches[i]| == n
    ensures |Flatten(batches)| == |batches| * n
  {
    if batches != [] {
      var shorter := batches[..|batches| - 1];
      FlattenLength(shorter, n);
      assert |batches| * n == |shorter| * n + n;
    }
  }

  /** How often a (stage, workflow) fires and how many events it leaves waiting: quotient and remainder. */
  lemma FiringCount<E>(arrivals: seq<Arrival<E>>, k: int, key: Key)
    ensures |EventsOf(arrivals, key)|
            == |BatchesOf(FiredBy(arrivals, k), key)| * Threshold(k) + |Waiting(PendingAfter(arrivals, k), key)|
    ensures |Waiting(PendingAfter(arrivals, k), key)| < Threshold(k)
  {
    BarrierRefines(arrivals, k, key);
    FlattenLength(BatchesOf(FiredBy(arrivals, k), key), Threshold(k));
  }

  /** Waiting events and batches of this key are the same after either sequence of arrivals. */
  ghost predicate Alike<E>(one: seq<Arrival<E>>, other: seq<Arrival<E>>, k: int, key: Key)
  {
    && Waiting(PendingAfter(one, k), key) == Waiting(PendingAfter(other, k), key)
    && BatchesOf(FiredBy(one, k), key) == BatchesOf(FiredBy(other, k), key)
  }

  lemma AlikeOneMore<E>(earlier: seq<Arrival<E>>, own: seq<Arrival<E>>, last: Arrival<E>, k: int, key: Key)
    requires Alike(earlier, own, k, key)
    ensures Alike(earlier + [last], if last.key == key then own + [last] else own, k, key)
  {
    PendingSnoc(earlier, last, k);
    WaitingAfter(PendingAfter(earlier, k), last, k, key);
    FiredSnoc(earlier, last, k, key);
    if last.key == key {
      PendingSnoc(own, last, k);
      WaitingAfter(PendingAfter(own, k), last, k, key);
      FiredSnoc(own, last, k, key);
    }
  }

  lemma OnlySnoc<E>(earlier: seq<Arrival<E>>, last: Arrival<E>, key: Key)
    ensures Only(earlier + [last], key) == if last.key == key then Only(earlier, key) + [last] else Only(earlier, key)
  {
    assert (earlier + [last])[..|earlier|] == earlier;
  }

  /** Arrivals of other stages and workflows never affect this one. */
  lemma {:induction false} NoInterference<E>(arrivals: seq<Arrival<E>>, k: int, key: Key)
    ensures Alike(arrivals, Only(arrivals, key), k, key)
  {
    if arrivals != [] {
      var earlier, last := arrivals[..|arrivals| - 1], arrivals[|arrivals| - 1];
      NoInterference(earlier, k, key);
      AlikeOneMore(earlier, Only(earlier, key), last, k, key);
      OnlySnoc(earlier, last, key);
      assert arrivals == earlier + [last];
    }
  }

  // ---------------------------------------------------------------------------
  // The shared dictionary of lists
  // ---------------------------------------------------------------------------

  /** A Python list: whoever holds a reference sees every append. */
  class EventList<E> {
    var items: seq<E>

    constructor (first: E)
      ensures items == [first]
    {
      items := [first];
    }

    method Append(e: E)
      modifies this
      ensures items == old(items) + [e]
    {
      items := items + [e];
    }
  }

  class UpstreamInfo<E> {
    var info: map<Name, map<Name, EventList<E>>>

    ghost predicate Has(key: Key)
      reads this
    {
      key.stage in info && key.wf in info[key.stage]
    }

    ghost function ListAt(key: Key): EventList<E>
      requires Has(key)
      reads this
    {
      info[key.stage][key.wf]
    }

    ghost function Lists(): set<EventList<E>>
      reads this
    {
      set stage, wf | stage in info && wf in info[stage] :: info[stage][wf]
    }

    /** No list is reachable under two keys. */
    ghost predicate Valid()
      reads this
    {
      forall a, b :: Has(a) && Has(b) && a != b ==> ListAt(a) != ListAt(b)
    }

    /** This dictionary of lists holds exactly the waiting events of `p`. */
    ghost predicate Holds(p: Pending<E>)
      reads this, Lists()
    {
      forall key :: (key in p <==> Has(key)) && (Has(key) ==> ListAt(key).items == p[key])
    }

    constructor ()
      ensures Valid() && Holds(map[]) && Lists() == {}
    {
      info := map[];
    }

    /** Makes sure the stage has a dictionary. */
    method Prepare(stage: Name, ghost p: Pending<E>)
      requires Valid() && Holds(p)
      modifies this
      ensures Valid() && Holds(p) && stage in info && Lists() == old(Lists())
    {
      if stage !in info {
        info := info[stage := map[]];
        assert forall k :: (Has(k) <==> old(Has(k))) && (Has(k) ==> ListAt(k) == old(ListAt(k)));
        forall l | l in old(Lists())
          ensures l in Lists()
        {
          var s, w :| s in old(info) && w in old(info)[s] && old(info)[s][w] == l;
          assert s in info && w in info[s] && info[s][w] == l;
        }
      }
    }

    /** Writes a list that is not in the dictionary yet back into it. */
    method Store(stage: Name, wf: Name, list: EventList<E>, ghost p: Pending<E>)
      requires Valid() && Holds(p) && stage in info && wf !in info[stage] && list !in Lists()
      modifies this
      ensures var key := Key(stage, wf);
              Valid() && Has(key) && ListAt(key) == list && Holds(p[key := list.items])
      ensures Lists() <= old(Lists()) + {list}
    {
      ghost var key := Key(stage, wf);
      info := info[stage := info[stage][wf := list]];
      assert forall k :: Has(k) && k != key ==> old(Has(k)) && ListAt(k) == old(ListAt(k)) && ListAt(k) in old(Lists());
    }

    /**
      The append of `handle_reduce`. The copy of the stage's dictionary shares its lists, so an append through
      the copy is an append to the stored list and writing it back changes nothing more.
     */
    method Append(meta: E, stage: Name, wf: Name, ghost p: Pending<E>) returns (list: EventList<E>)
      requires Valid() && Holds(p)
      modifies this, Lists()
      ensures var key := Key(stage, wf);
              && Valid() && Has(key) && ListAt(key) == list
              && Holds(p[key := Waiting(p, key) + [meta]])
      ensures forall l :: l in Lists() ==> l in old(Lists()) || fresh(l)
    {
      ghost var key := Key(stage, wf);
      Prepare(stage, p);
      var curStageInfo: map<Name, EventList<E>> := info[stage];
      if wf !in curStageInfo {
        assert !Has(key);
        list := new EventList(meta);
        Store(stage, wf, list, p);
      } else {
        assert Has(key);
        list := curStageInfo[wf];
        list.Append(meta);
        ghost var before := info;
        assert info[stage][wf := curStageInfo[wf]] == info[stage];
        info := info[stage := info[stage][wf := curStageInfo[wf]]];
        assert info == before;
      }
    }

    /** Removes one workflow from its stage; no list changes. */
    method Forget(stage: Name, wf: Name, ghost p: Pending<E>)
      requires Valid() && Holds(p) && Has(Key(stage, wf))
      modifies this
      ensures Valid() && Holds(p - {Key(stage, wf)})
      ensures Lists() == old(Lists()) - {old(ListAt(Key(stage, wf)))}
    {
      ghost var key, list := Key(stage, wf), ListAt(Key(stage, wf));
      ghost var before := Lists();
      info := info[stage := info[stage] - {wf}];
      assert forall k :: Has(k) ==> old(Has(k)) && ListAt(k) == old(ListAt(k)) && k != key;
      forall l | l in Lists()
        ensures l in before && l != list
      {
        var s, w :| s in info && w in info[s] && info[s][w] == l;
        assert Has(Key(s, w));
      }
      forall l | l in before && l != list
        ensures l in Lists()
      {
        var s, w :| s in old(info) && w in old(info)[s] && old(info)[s][w] == l;
        assert s in info && w in info[s] && info[s][w] == l;
      }
    }

    /** `handle_reduce`: the list that leaves is no longer reachable from the dictionary. */
    method HandleReduce(meta: E, stage: Name, wf: Name, streamCnt: int, ghost p: Pending<E>)
      returns (r: EventList?<E>)
      requires Valid() && Holds(p)
      modifies this, Lists()
      ensures Valid() && Holds(After(p, Arrival(Key(stage, wf), meta), streamCnt))
      ensures r == null <==> Fires(p, Arrival(Key(stage, wf), meta), streamCnt) == []
      ensures r != null ==>
                && Fires(p, Arrival(Key(stage, wf), meta), streamCnt) == [Fired(Key(stage, wf), r.items)]
                && r !in Lists()
      ensures forall l :: l in Lists() ==> l in old(Lists()) || fresh(l)
    {
      ghost var key := Key(stage, wf);
      var list := Append(meta, stage, wf, p);
      if |list.items| >= streamCnt {
        Forget(stage, wf, p[key := Waiting(p, key) + [meta]]);
        assert p[key := Waiting(p, key) + [meta]] - {key} == p - {key};
        return list;
      }
      return null;
    }
  }
}
