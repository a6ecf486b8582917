/**
  Time profiles of workflows: reducing over stages, averaging over workers, and what the reported end-to-end
  time is made of (exp/wordcount/util.py, exp/wordcount/functions.py, exp/ml-pipeline/functions.py).
  Times are real numbers, so rounding plays no part.
 */
module Profile {

  /** One stage: category to time. */
  type Times<!C> = map<C, real>

  /** The dictionary-valued part of a profile: stage to its times. Other entries are never summed. */
  type Stages<!S, !C> = map<S, Times<C>>

  // ---------------------------------------------------------------------------
  // Sums over a dictionary
  // ---------------------------------------------------------------------------

  lemma Shrinks<K, V>(m: map<K, V>, k: K)
    requires k in m
    ensures |m - {k}| == |m| - 1
  {
    assert (m - {k}).Keys == m.Keys - {k};
    assert |m.Keys - {k}| == |m.Keys| - 1;
  }

  ghost function Sum<K>(m: map<K, real>): real
    decreases |m|
  {
    if m == map[] then 0.0
    else
      var k :| k in m;
      assert |m - {k}| < |m| by { Shrinks(m, k); }
      m[k] + Sum(m - {k})
  }

  /** Any key may be taken out first. */
  lemma {:induction false} SumTakes<K>(m: map<K, real>, k: K)
    requires k in m
    ensures Sum(m) == m[k] + Sum(m - {k})
    decreases |m|
  {
    var first :| first in m && Sum(m) == m[first] + Sum(m - {first});
    if first != k {
      Shrinks(m, first);
      Shrinks(m, k);
      SumTakes(m - {first}, k);
      SumTakes(m - {k}, first);
      assert m - {first} - {k} == m - {k} - {first};
    }
  }

  function At<K>(m: map<K, real>, k: K): real
  {
    if k in m then m[k] else 0.0
  }

  lemma SumSplits<K>(m: map<K, real>, k: K)
    ensures Sum(m) == At(m, k) + Sum(m - {k})
  {
    if k in m {
      SumTakes(m, k);
    } else {
      assert m - {k} == m;
    }
  }

  /** Key-wise sum of two dictionaries. */
  function Plus<K>(a: map<K, real>, b: map<K, real>): (c: map<K, real>)
    ensures c.Keys == a.Keys + b.Keys
  {
    map k | k in a.Keys + b.Keys :: At(a, k) + At(b, k)
  }

  function Scaled<K>(a: map<K, real>, n: real): (c: map<K, real>)
    requires n != 0.0
    ensures c.Keys == a.Keys
  {
    map k | k in a :: a[k] / n
  }

  lemma PlusWithout<K>(a: map<K, real>, b: map<K, real>, ks: set<K>)
    ensures Plus(a, b) - ks == Plus(a - ks, b - ks)
  {
  }

  lemma {:induction false} SumOfPlus<K>(a: map<K, real>, b: map<K, real>)
    ensures Sum(Plus(a, b)) == Sum(a) + Sum(b)
    decreases |a|
  {
    if a == map[] {
      assert Plus(a, b) == b;
    } else {
      var k :| k in a;
      Shrinks(a, k);
      SumSplits(a, k);
      SumSplits(b, k);
      SumSplits(Plus(a, b), k);
      PlusWithout(a, b, {k});
      SumOfPlus(a - {k}, b - {k});
    }
  }

  function Add(x: real, y: real): real
  {
    x + y
  }

  ghost predicate Additive(f: real -> real)
  {
    f(0.0) == 0.0 && forall x, y :: f(Add(x, y)) == Add(f(x), f(y))
  }

  lemma {:induction false} SumOfMapped<K>(a: map<K, real>, b: map<K, real>, f: real -> real)
    requires Additive(f) && b.Keys == a.Keys && forall k :: k in a ==> b[k] == f(a[k])
    ensures Sum(b) == f(Sum(a))
    decreases |a|
  {
    if a == map[] {
      assert b == map[];
    } else {
      var k :| k in a;
      Shrinks(a, k);
      SumOfMapped(a - {k}, b - {k}, f);
      SumTakes(a, k);
      SumTakes(b, k);
      assert f(Add(a[k], Sum(a - {k}))) == Add(b[k], Sum(b - {k}));
    }
  }

  lemma DivideSum(x: real, y: real, n: real)
    requires n != 0.0
    ensures Add(x, y) / n == Add(x / n, y / n)
  {
  }

  lemma SumOfScaled<K>(a: map<K, real>, n: real)
    requires n != 0.0
    ensures Sum(Scaled(a, n)) == Sum(a) / n
  {
    var share := (x: real) => x / n;
    forall x, y
      ensures share(Add(x, y)) == Add(share(x), share(y))
    {
      DivideSum(x, y, n);
    }
    SumOfMapped(a, Scaled(a, n), share);
  }

  /** `sum(d.values())`. */
  method SumValues<K(==)>(m: map<K, real>) returns (total: real)
    ensures total == Sum(m)
  {
    total := 0.0;
    var left := m;
    while left != map[]
      invariant total + Sum(left) == Sum(m)
      decreases |left|
    {
      var k :| k in left;
      Shrinks(left, k);
      SumTakes(left, k);
      total := total + left[k];
      left := left - {k};
    }
  }

  // ---------------------------------------------------------------------------
  // Reducing over stages
  // ---------------------------------------------------------------------------

  /** The times of one category, stage by stage. */
  function Column<S, C>(p: Stages<S, C>, key: C): map<S, real>
  {
    map s | s in p && key in p[s] :: p[s][key]
  }

  function Categories<S, C>(p: Stages<S, C>): set<C>
  {
    set s, k | s in p && k in p[s] :: k
  }

  /** Category by category, the sum over all stages. */
  ghost function Reduced<S, C>(p: Stages<S, C>): (r: Times<C>)
    ensures r.Keys == Categories(p)
  {
    map k | k in Categories(p) :: Sum(Column(p, k))
  }

  function TimesOf<S, C>(p: Stages<S, C>, s: S): Times<C>
  {
    if s in p then p[s] else map[]
  }

  /** Stage-wise, category-wise sum of two profiles. */
  function PlusStages<S, C>(p: Stages<S, C>, q: Stages<S, C>): (r: Stages<S, C>)
    ensures r.Keys == p.Keys + q.Keys
  {
    map s | s in p.Keys + q.Keys :: Plus(TimesOf(p, s), TimesOf(q, s))
  }

  lemma InCategories<S, C>(p: Stages<S, C>, s: S, k: C)
    requires s in p && k in p[s]
    ensures k in Categories(p)
  {
  }

  lemma CategoriesOfPlus<S, C>(p: Stages<S, C>, q: Stages<S, C>, k: C)
    ensures k in Categories(PlusStages(p, q)) <==> k in Categories(p) || k in Categories(q)
  {
    var r := PlusStages(p, q);
    if k in Categories(p) {
      var s :| s in p && k in p[s];
      InCategories(r, s, k);
    }
    if k in Categories(q) {
      var s :| s in q && k in q[s];
      InCategories(r, s, k);
    }
    if k in Categories(r) {
      var s :| s in r && k in r[s];
      if k in TimesOf(p, s) {
        InCategories(p, s, k);
      } else {
        InCategories(q, s, k);
      }
    }
  }

  lemma ReducedAt<S, C>(p: Stages<S, C>, k: C)
    ensures At(Reduced(p), k) == Sum(Column(p, k))
  {
    if k !in Categories(p) {
      assert Column(p, k) == map[];
    }
  }

  lemma ColumnAt<S, C>(p: Stages<S, C>, k: C, s: S)
    ensures s in Column(p, k) <==> k in TimesOf(p, s)
    ensures At(Column(p, k), s) == At(TimesOf(p, s), k)
  {
  }

  lemma TimesOfPlus<S, C>(p: Stages<S, C>, q: Stages<S, C>, s: S)
    ensures TimesOf(PlusStages(p, q), s) == Plus(TimesOf(p, s), TimesOf(q, s))
  {
  }

  lemma SameMap<K>(a: map<K, real>, b: map<K, real>)
    requires forall k :: (k in a <==> k in b) && At(a, k) == At(b, k)
    ensures a == b
  {
    forall k | k in a
      ensures a[k] == b[k]
    {
      assert At(a, k) == At(b, k);
    }
  }

  lemma ColumnOfPlus<S, C>(p: Stages<S, C>, q: Stages<S, C>, k: C)
    ensures Column(PlusStages(p, q), k) == Plus(Column(p, k), Column(q, k))
  {
    var l, r := Column(PlusStages(p, q), k), Plus(Column(p, k), Column(q, k));
    forall s
      ensures s in l <==> s in r
      ensures At(l, s) == At(r, s)
    {
      ColumnAt(PlusStages(p, q), k, s);
      ColumnAt(p, k, s);
      ColumnAt(q, k, s);
      TimesOfPlus(p, q, s);
    }
    SameMap(l, r);
  }

  lemma PlusAt<K>(a: map<K, real>, b: map<K, real>, k: K)
    ensures At(Plus(a, b), k) == At(a, k) + At(b, k)
  {
  }

  lemma ReducedKeys<S, C>(p: Stages<S, C>, q: Stages<S, C>, k: C)
    ensures k in Reduced(PlusStages(p, q)) <==> k in Plus(Reduced(p), Reduced(q))
  {
    CategoriesOfPlus(p, q, k);
  }

  lemma ReducedOfPlusAt<S, C>(p: Stages<S, C>, q: Stages<S, C>, k: C)
    ensures At(Reduced(PlusStages(p, q)), k) == At(Reduced(p), k) + At(Reduced(q), k)
  {
    ColumnOfPlus(p, q, k);
    SumOfPlus(Column(p, k), Column(q, k));
    ReducedAt(p, k);
    ReducedAt(q, k);
    ReducedAt(PlusStages(p, q), k);
  }

  /** Reducing a sum of profiles is summing their reductions. */
  lemma ReducedOfPlus<S, C>(p: Stages<S, C>, q: Stages<S, C>)
    ensures Reduced(PlusStages(p, q)) == Plus(Reduced(p), Reduced(q))
  {
    var l, r := Reduced(PlusStages(p, q)), Plus(Reduced(p), Reduced(q));
    forall k
      ensures k in l <==> k in r
      ensures At(l, k) == At(r, k)
    {
      ReducedKeys(p, q, k);
      ReducedOfPlusAt(p, q, k);
      PlusAt(Reduced(p), Reduced(q), k);
    }
    SameMap(l, r);
  }

  lemma ReducedOfOne<S, C>(s: S, t: Times<C>)
    ensures Reduced(map[s := t]) == t
  {
    var p: Stages<S, C> := map[s := t];
    forall k
      ensures k in Categories(p) <==> k in t
      ensures k in t ==> Sum(Column(p, k)) == t[k]
    {
      if k in t {
        InCategories(p, s, k);
        SumTakes(Column(p, k), s);
        assert Column(p, k) - {s} == map[];
      }
    }
  }

  lemma SplitStage<S, C>(p: Stages<S, C>, s: S)
    requires s in p
    ensures PlusStages(p - {s}, map[s := p[s]]) == p
  {
    forall t | t in p
      ensures Plus(TimesOf(p - {s}, t), TimesOf(map[s := p[s]], t)) == p[t]
    {
      assert Plus(p[t], map[]) == p[t] && Plus(map[], p[t]) == p[t];
    }
  }

  lemma OneMoreStage<S, C>(p: Stages<S, C>, s: S)
    requires s in p
    ensures Reduced(p) == Plus(Reduced(p - {s}), p[s])
  {
    SplitStage(p, s);
    ReducedOfPlus(p - {s}, map[s := p[s]]);
    ReducedOfOne(s, p[s]);
  }

  /** Adds the times of one stage to the result, category by category. */
  method AddTimes<C(==)>(before: Times<C>, t: Times<C>) returns (r: Times<C>)
    ensures r == Plus(before, t)
  {
    r := before;
    var todo := t.Keys;
    while todo != {}
      invariant todo <= t.Keys
      invariant r == Plus(before, t - todo)
    {
      var key :| key in todo;
      if key in r {
        r := r[key := r[key] + t[key]];
      } else {
        r := r[key := t[key]];
      }
      assert t - (todo - {key}) == (t - todo)[key := t[key]];
      todo := todo - {key};
    }
    assert t - {} == t;
  }

  /** `reduce_profile`. */
  method ReduceProfile<S(==), C(==)>(p: Stages<S, C>) returns (res: Times<C>)
    ensures res == Reduced(p)
  {
    res := map[];
    var todo := p.Keys;
    assert p - todo == map[];
    while todo != {}
      invariant todo <= p.Keys
      invariant res == Reduced(p - todo)
    {
      var s :| s in todo;
      res := AddTimes(res, p[s]);
      OneMoreStage(p - (todo - {s}), s);
      assert p - (todo - {s}) - {s} == p - todo;
      todo := todo - {s};
    }
    assert p - {} == p;
  }

  // ---------------------------------------------------------------------------
  // The end-to-end time
  // ---------------------------------------------------------------------------

  /** The entry at `st` is the sum of all other entries. */
  ghost predicate Closed<C>(t: Times<C>, st: C)
  {
    st in t && t[st] == Sum(t - {st})
  }

  lemma ClosedPlus<C>(a: Times<C>, b: Times<C>, st: C)
    requires At(a, st) == Sum(a - {st}) && Closed(b, st)
    ensures Closed(Plus(a, b), st)
  {
    PlusWithout(a, b, {st});
    SumOfPlus(a - {st}, b - {st});
  }

  lemma NothingReduced<S, C>(st: C)
    ensures var none: Stages<S, C> := map[];
            At(Reduced(none), st) == Sum(Reduced(none) - {st}) == 0.0
  {
    var none: Stages<S, C> := map[];
    assert Reduced(none) == map[];
    assert Reduced(none) - {st} == map[];
  }

  /** One more closed stage on top of a closed total, or of nothing. */
  lemma ClosedOneMore<S, C>(p: Stages<S, C>, s: S, st: C)
    requires s in p && Closed(p[s], st)
    requires p - {s} == map[] || Closed(Reduced(p - {s}), st)
    ensures Closed(Reduced(p), st)
  {
    var rest := p - {s};
    OneMoreStage(p, s);
    if rest == map[] {
      NothingReduced<S, C>(st);
    }
    ClosedPlus(Reduced(rest), p[s], st);
  }

  /** When every stage is closed, the reduced stage time is the sum of all other reduced categories. */
  lemma {:induction false} EndToEndTime<S, C>(p: Stages<S, C>, st: C)
    requires p != map[] && forall s :: s in p ==> Closed(p[s], st)
    ensures Closed(Reduced(p), st)
    decreases |p|
  {
    var s :| s in p;
    Shrinks(p, s);
    if p - {s} != map[] {
      EndToEndTime(p - {s}, st);
    }
    ClosedOneMore(p, s, st);
  }

  /** Closing a stage twice counts its first stage time into the second one. */
  lemma ClosingTwice<C>(t: Times<C>, st: C)
    requires st !in t
    ensures var once := t[st := Sum(t)];
            var twice := once[st := Sum(once)];
            Closed(once, st) && (Closed(twice, st) <==> Sum(t) == 0.0)
  {
    var once := t[st := Sum(t)];
    var twice := once[st := Sum(once)];
    assert once - {st} == t && twice - {st} == t;
    SumTakes(once, st);
  }

  /** `p[stage]['stage_time'] = sum(p[stage].values())`. */
  method CloseStage<S(==), C(==)>(p: Stages<S, C>, stage: S, st: C) returns (q: Stages<S, C>)
    requires stage in p && st !in p[stage]
    ensures q == p[stage := p[stage][st := Sum(p[stage])]]
    ensures Closed(q[stage], st) && q[stage] - {st} == p[stage]
  {
    var total := SumValues(p[stage]);
    q := p[stage := p[stage][st := total]];
    assert q[stage] - {st} == p[stage];
  }

  datatype Stage = Splitter | Mapper | Reducer | Runtime

  datatype Category = StageTime | SdTime | FetchDataTime | NtTime | OtherTime(name: string)

  /** What one hop through the runtime adds. */
  datatype Tick = Tick(nt: real, fetch: real, sd: real)

  function NtTotal(ticks: seq<Tick>): real
  {
    if ticks == [] then 0.0 else NtTotal(ticks[..|ticks| - 1]) + ticks[|ticks| - 1].nt
  }

  function FetchTotal(ticks: seq<Tick>): real
  {
    if ticks == [] then 0.0 else FetchTotal(ticks[..|ticks| - 1]) + ticks[|ticks| - 1].fetch
  }

  function SdTotal(ticks: seq<Tick>): real
  {
    if ticks == [] then 0.0 else SdTotal(ticks[..|ticks| - 1]) + ticks[|ticks| - 1].sd
  }

  /** The runtime entry when these hops have been added to it. */
  function RuntimeAfter(runtime: Times<Category>, ticks: seq<Tick>): Times<Category>
    requires runtime.Keys == {SdTime, FetchDataTime, NtTime}
  {
    map[SdTime := runtime[SdTime] + SdTotal(ticks),
        FetchDataTime := runtime[FetchDataTime] + FetchTotal(ticks),
        NtTime := runtime[NtTime] + NtTotal(ticks)]
  }

  lemma OneMoreHop(runtime: Times<Category>, ticks: seq<Tick>, i: nat)
    requires runtime.Keys == {SdTime, FetchDataTime, NtTime} && i < |ticks|
    ensures var r := RuntimeAfter(runtime, ticks[..i]);
            RuntimeAfter(runtime, ticks[..i + 1])
            == r[NtTime := r[NtTime] + ticks[i].nt]
                [FetchDataTime := r[FetchDataTime] + ticks[i].fetch]
                [SdTime := r[SdTime] + ticks[i].sd]
  {
    assert ticks[..i + 1][..i] == ticks[..i];
  }

  /** One hop puts each of its times under its own category. */
  lemma OneHop(runtime: Times<Category>, t: Tick)
    requires runtime.Keys == {SdTime, FetchDataTime, NtTime}
    ensures var r := RuntimeAfter(runtime, [t]);
            && r[NtTime] == runtime[NtTime] + t.nt
            && r[FetchDataTime] == runtime[FetchDataTime] + t.fetch
            && r[SdTime] == runtime[SdTime] + t.sd
  {
    var none: seq<Tick> := [];
    assert [t][..|[t]| - 1] == none;
    assert NtTotal([t]) == NtTotal(none) + t.nt && FetchTotal([t]) == FetchTotal(none) + t.fetch;
    assert SdTotal([t]) == SdTotal(none) + t.sd;
  }

  /** Each hop increases the three entries in place. */
  method AddTicks(runtime: Times<Category>, ticks: seq<Tick>) returns (r: Times<Category>)
    requires runtime.Keys == {SdTime, FetchDataTime, NtTime}
    ensures r == RuntimeAfter(runtime, ticks)
  {
    r := runtime;
    assert RuntimeAfter(runtime, ticks[..0]) == runtime;
    for i := 0 to |ticks|
      invariant r == RuntimeAfter(runtime, ticks[..i])
    {
      OneMoreHop(runtime, ticks, i);
      r := r[NtTime := r[NtTime] + ticks[i].nt];
      r := r[FetchDataTime := r[FetchDataTime] + ticks[i].fetch];
      r := r[SdTime := r[SdTime] + ticks[i].sd];
    }
    assert ticks[..|ticks|] == ticks;
  }

  const NO_TIME: Times<Category> := map[SdTime := 0.0, FetchDataTime := 0.0, NtTime := 0.0]

  lemma {:induction false} HopsInTwoParts(hops: seq<Tick>, more: seq<Tick>)
    ensures NtTotal(hops + more) == NtTotal(hops) + NtTotal(more)
    ensures FetchTotal(hops + more) == FetchTotal(hops) + FetchTotal(more)
    ensures SdTotal(hops + more) == SdTotal(hops) + SdTotal(more)
    decreases |more|
  {
    if more == [] {
      assert hops + more == hops;
    } else {
      var n := |more| - 1;
      HopsInTwoParts(hops, more[..n]);
      assert (hops + more)[..|hops| + n] == hops + more[..n];
    }
  }

  /** The stages of a finished run: each with its own times, the runtime with those of all hops, and all closed. */
  ghost predicate FinishedProfile(p: Stages<Stage, Category>, splitter: Times<Category>, mapper: Times<Category>,
                                  reducer: Times<Category>, hops: seq<Tick>)
  {
    && p.Keys == {Splitter, Mapper, Reducer, Runtime}
    && (forall s :: s in p ==> Closed(p[s], StageTime))
    && p[Splitter] - {StageTime} == splitter
    && p[Mapper] - {StageTime} == mapper
    && p[Reducer] - {StageTime} == reducer
    && p[Runtime] - {StageTime} == RuntimeAfter(NO_TIME, hops)
  }

  /** What it reports: the sum of all times of all stages and of all hops. */
  ghost function WholeTime(splitter: Times<Category>, mapper: Times<Category>, reducer: Times<Category>,
                           hops: seq<Tick>): real
  {
    Sum(splitter) + Sum(mapper) + Sum(reducer) + SdTotal(hops) + FetchTotal(hops) + NtTotal(hops)
  }

  lemma SumOfThree(t: Times<Category>)
    requires t.Keys == {SdTime, FetchDataTime, NtTime}
    ensures Sum(t) == t[SdTime] + t[FetchDataTime] + t[NtTime]
  {
    SumTakes(t, SdTime);
    SumTakes(t - {SdTime}, FetchDataTime);
    SumTakes(t - {SdTime} - {FetchDataTime}, NtTime);
    assert t - {SdTime} - {FetchDataTime} - {NtTime} == map[];
  }

  /** The reported stage time is the whole time. */
  lemma ReportedIsWhole(p: Stages<Stage, Category>, splitter: Times<Category>, mapper: Times<Category>,
                        reducer: Times<Category>, hops: seq<Tick>)
    requires FinishedProfile(p, splitter, mapper, reducer, hops)
    ensures StageTime in Reduced(p) && Reduced(p)[StageTime] == WholeTime(splitter, mapper, reducer, hops)
  {
    var column := Column(p, StageTime);
    SumTakes(column, Splitter);
    SumTakes(column - {Splitter}, Mapper);
    SumTakes(column - {Splitter} - {Mapper}, Reducer);
    SumTakes(column - {Splitter} - {Mapper} - {Reducer}, Runtime);
    assert column - {Splitter} - {Mapper} - {Reducer} - {Runtime} == map[];
    SumOfThree(RuntimeAfter(NO_TIME, hops));
    InCategories(p, Splitter, StageTime);
  }

  ghost function WithTotal(t: Times<Category>): Times<Category>
  {
    t[StageTime := Sum(t)]
  }

  lemma AllHops(hops: seq<Tick>, more: seq<Tick>)
    ensures RuntimeAfter(RuntimeAfter(NO_TIME, hops), more) == RuntimeAfter(NO_TIME, hops + more)
  {
    HopsInTwoParts(hops, more);
  }

  lemma TotalCloses(t: Times<Category>)
    requires StageTime !in t
    ensures Closed(WithTotal(t), StageTime) && WithTotal(t) - {StageTime} == t
  {
    assert WithTotal(t) - {StageTime} == t;
  }

  ghost function ClosedStages(splitter: Times<Category>, mapper: Times<Category>, reducer: Times<Category>,
                              runtime: Times<Category>): Stages<Stage, Category>
  {
    map[Splitter := WithTotal(splitter), Mapper := WithTotal(mapper), Reducer := WithTotal(reducer),
        Runtime := WithTotal(runtime)]
  }

  lemma Finished(splitter: Times<Category>, mapper: Times<Category>, reducer: Times<Category>, hops: seq<Tick>)
    requires StageTime !in splitter && StageTime !in mapper && StageTime !in reducer
    ensures var p := ClosedStages(splitter, mapper, reducer, RuntimeAfter(NO_TIME, hops));
            && FinishedProfile(p, splitter, mapper, reducer, hops)
            && Closed(Reduced(p), StageTime)
            && Reduced(p)[StageTime] == WholeTime(splitter, mapper, reducer, hops)
  {
    var p := ClosedStages(splitter, mapper, reducer, RuntimeAfter(NO_TIME, hops));
    TotalCloses(splitter);
    TotalCloses(mapper);
    TotalCloses(reducer);
    TotalCloses(RuntimeAfter(NO_TIME, hops));
    assert p.Keys == {Splitter, Mapper, Reducer, Runtime};
    EndToEndTime(p, StageTime);
    ReportedIsWhole(p, splitter, mapper, reducer, hops);
  }

  lemma InOrder<T>(s: T, m: T, r: T, t0: T, t1: T, t2: T, t: T)
    ensures map[Splitter := s, Runtime := t0][Runtime := t1][Mapper := m][Runtime := t2][Runtime := t][Reducer := r]
            == map[Splitter := s, Mapper := m, Reducer := r, Runtime := t]
  {
  }

  /** The splitter opens the profile and closes its own stage. */
  method SplitterProfile(splitter: Times<Category>) returns (p: Stages<Stage, Category>)
    requires StageTime !in splitter
    ensures p == map[Splitter := WithTotal(splitter), Runtime := NO_TIME]
  {
    p := map[Splitter := splitter];
    p := p[Runtime := NO_TIME];
    p := CloseStage(p, Splitter, StageTime);
  }

  method HopProfile(before: Stages<Stage, Category>, hops: seq<Tick>) returns (p: Stages<Stage, Category>)
    requires Runtime in before && before[Runtime].Keys == {SdTime, FetchDataTime, NtTime}
    ensures p == before[Runtime := RuntimeAfter(before[Runtime], hops)]
  {
    var runtime := AddTicks(before[Runtime], hops);
    p := before[Runtime := runtime];
  }

  method MapperProfile(before: Stages<Stage, Category>, mapper: Times<Category>) returns (p: Stages<Stage, Category>)
    requires StageTime !in mapper
    ensures p == before[Mapper := WithTotal(mapper)]
  {
    p := before[Mapper := mapper];
    p := CloseStage(p, Mapper, StageTime);
  }

  /** The reducer adds its stage and closes the runtime entry before its own. */
  method ReducerProfile(before: Stages<Stage, Category>, reducer: Times<Category>) returns (p: Stages<Stage, Category>)
    requires StageTime !in reducer && Runtime in before && StageTime !in before[Runtime]
    ensures p == before[Runtime := WithTotal(before[Runtime])][Reducer := WithTotal(reducer)]
  {
    p := before[Reducer := reducer];
    p := CloseStage(p, Runtime, StageTime);
    p := CloseStage(p, Reducer, StageTime);
  }

  /**
    The life of the profile that the reducer reports, over all three stages and the hops between them. What is
    reported is the reduction of all stages with the times they were given; its stage time is the sum of all
    other reported categories, and of all times given.
   */
  method WordCountProfile(splitter: Times<Category>, mapper: Times<Category>, reducer: Times<Category>,
                          hops: seq<Tick>, moreHops: seq<Tick>)
    returns (p: Stages<Stage, Category>, reported: Times<Category>)
    requires StageTime !in splitter && StageTime !in mapper && StageTime !in reducer
    ensures FinishedProfile(p, splitter, mapper, reducer, hops + moreHops)
    ensures reported == Reduced(p) && Closed(reported, StageTime)
    ensures reported[StageTime] == WholeTime(splitter, mapper, reducer, hops + moreHops)
  {
    p := SplitterProfile(splitter);
    p := HopProfile(p, hops);
    p := MapperProfile(p, mapper);
    p := HopProfile(p, moreHops);
    p := ReducerProfile(p, reducer);
    AllHops(hops, moreHops);
    InOrder(WithTotal(splitter), WithTotal(mapper), WithTotal(reducer), NO_TIME, RuntimeAfter(NO_TIME, hops),
            RuntimeAfter(NO_TIME, hops + moreHops), WithTotal(RuntimeAfter(NO_TIME, hops + moreHops)));
    Finished(splitter, mapper, reducer, hops + moreHops);
    reported := ReduceProfile(p);
  }

  // ---------------------------------------------------------------------------
  // Averaging over workers
  // ---------------------------------------------------------------------------

  function ScaledStages<S, C>(p: Stages<S, C>, n: real): (r: Stages<S, C>)
    requires n != 0.0
    ensures r.Keys == p.Keys
  {
    map s | s in p :: Scaled(p[s], n)
  }

  lemma ReducedOfScaled<S, C>(p: Stages<S, C>, n: real)
    requires n != 0.0
    ensures Reduced(ScaledStages(p, n)) == Scaled(Reduced(p), n)
  {
    var q := ScaledStages(p, n);
    forall k
      ensures k in Categories(q) <==> k in Categories(p)
    {
      if k in Categories(p) {
        var s :| s in p && k in p[s];
        assert k in q[s];
      }
      if k in Categories(q) {
        var s :| s in q && k in q[s];
        assert k in p[s];
      }
    }
    forall k | k in Categories(p)
      ensures Sum(Column(q, k)) == Sum(Column(p, k)) / n
    {
      assert Column(q, k) == Scaled(Column(p, k), n);
      SumOfScaled(Column(p, k), n);
    }
  }

  /** The running average after these events, of n in all. */
  function AverageStages<S, C>(ps: seq<Stages<S, C>>, n: real): Stages<S, C>
    requires n != 0.0
  {
    if ps == [] then map[] else PlusStages(AverageStages(ps[..|ps| - 1], n), ScaledStages(ps[|ps| - 1], n))
  }

  ghost function AverageReduced<S, C>(ps: seq<Stages<S, C>>, n: real): Times<C>
    requires n != 0.0
  {
    if ps == [] then map[] else Plus(AverageReduced(ps[..|ps| - 1], n), Scaled(Reduced(ps[|ps| - 1]), n))
  }

  lemma AllStagesAdded<S, C>(before: Stages<S, C>, shares: Stages<S, C>, r: Stages<S, C>)
    requires r.Keys == before.Keys + shares.Keys
    requires forall s :: s in r ==> r[s] == if s in shares then Plus(TimesOf(before, s), shares[s]) else before[s]
    ensures r == PlusStages(before, shares)
  {
    forall s | s in r
      ensures r[s] == Plus(TimesOf(before, s), TimesOf(shares, s))
    {
      if s !in shares {
        assert Plus(before[s], map[]) == before[s];
      }
    }
  }

  method AddStages<S(==), C(==)>(before: Stages<S, C>, shares: Stages<S, C>) returns (r: Stages<S, C>)
    ensures r == PlusStages(before, shares)
  {
    r := before;
    var todo := shares.Keys;
    while todo != {}
      invariant todo <= shares.Keys
      invariant r.Keys == before.Keys + (shares.Keys - todo)
      invariant forall s :: s in r ==> r[s] == if s in shares && s !in todo
                              then Plus(TimesOf(before, s), shares[s]) else before[s]
    {
      var k :| k in todo;
      var stage := AddTimes(TimesOf(r, k), shares[k]);
      r := r[k := stage];
      todo := todo - {k};
    }
    AllStagesAdded(before, shares, r);
  }

  /** `combine_models`: every worker's times, divided by the number of workers, are added into one profile. */
  method CombineModels<S(==), C(==)>(metas: seq<Stages<S, C>>) returns (combined: Stages<S, C>)
    requires metas != []
    ensures combined == AverageStages(metas, |metas| as real)
  {
    var n := |metas| as real;
    combined := map[];
    for i := 0 to |metas|
      invariant combined == AverageStages(metas[..i], n)
    {
      assert metas[..i + 1][..i] == metas[..i];
      combined := AddStages(combined, ScaledStages(metas[i], n));
    }
    assert metas[..|metas|] == metas;
  }

  /** Averaging the workers' profiles and then reducing is reducing each and then averaging. */
  lemma {:induction false} AverageThenReduce<S, C>(ps: seq<Stages<S, C>>, n: real)
    requires n != 0.0
    ensures Reduced(AverageStages(ps, n)) == AverageReduced(ps, n)
  {
    if ps == [] {
      assert Reduced(AverageStages(ps, n)) == map[];
    } else {
      var earlier, last := ps[..|ps| - 1], ps[|ps| - 1];
      AverageThenReduce(earlier, n);
      ReducedOfPlus(AverageStages(earlier, n), ScaledStages(last, n));
      ReducedOfScaled(last, n);
    }
  }

  /** The sum of one entry over the workers, zero where a worker has none. */
  function EntryTotal<S, C>(ps: seq<Stages<S, C>>, s: S, c: C): real
  {
    if ps == [] then 0.0
    else
      var last := ps[|ps| - 1];
      EntryTotal(ps[..|ps| - 1], s, c) + if s in last && c in last[s] then last[s][c] else 0.0
  }

  /** Every entry of the combined profile is the workers' total divided by their number. */
  lemma {:induction false} AverageAt<S, C>(ps: seq<Stages<S, C>>, n: real, s: S, c: C)
    requires n != 0.0
    ensures At(TimesOf(AverageStages(ps, n), s), c) == EntryTotal(ps, s, c) / n
    decreases |ps|
  {
    if ps != [] {
      var k := |ps| - 1;
      AverageAt(ps[..k], n, s, c);
      TimesOfPlus(AverageStages(ps[..k], n), ScaledStages(ps[k], n), s);
      PlusAt(TimesOf(AverageStages(ps[..k], n), s), TimesOf(ScaledStages(ps[k], n), s), c);
      var entry := if s in ps[k] && c in ps[k][s] then ps[k][s][c] else 0.0;
      assert At(TimesOf(ScaledStages(ps[k], n), s), c) == entry / n;
      DivideSum(EntryTotal(ps[..k], s, c), entry, n);
    }
  }
}
