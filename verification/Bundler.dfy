/** Cutting the hyper-parameter list into bundles for the trainers (exp/ml-pipeline/functions.py). */
module Bundler {
  import opened Words
  import opened WordCount

  datatype Params = Params(numOfTrees: int, maxDepth: int, featureFraction: real)

  datatype Bundle = Bundle(modIndex: nat, numOfTrees: seq<int>, maxDepth: seq<int>, featureFraction: seq<real>)

  /** The three lists of a bundle are in lockstep. */
  predicate Parallel(b: Bundle) {
    |b.numOfTrees| == |b.maxDepth| == |b.featureFraction|
  }

  /** The parameter triples that the three parallel lists stand for. */
  function Triples(b: Bundle): (ps: seq<Params>)
    requires Parallel(b)
    ensures |ps| == |b.numOfTrees|
  {
    seq(|b.numOfTrees|, k requires 0 <= k < |b.numOfTrees| => Params(b.numOfTrees[k], b.maxDepth[k], b.featureFraction[k]))
  }

  /** Numbered from one, each bundle in lockstep and of this size. */
  ghost predicate Regular(bundles: seq<Bundle>, size: nat)
  {
    forall i :: 0 <= i < |bundles| ==>
      Parallel(bundles[i]) && |bundles[i].numOfTrees| == size && bundles[i].modIndex == i + 1
  }

  ghost function AllTriples(bundles: seq<Bundle>, size: nat): seq<Params>
    requires Regular(bundles, size)
  {
    if bundles == [] then []
    else
      assert Regular(bundles[..|bundles| - 1], size);
      AllTriples(bundles[..|bundles| - 1], size) + Triples(bundles[|bundles| - 1])
  }

  /** The bundles hold these triples, in order. */
  ghost predicate Bundled(bundles: seq<Bundle>, done: seq<Params>, size: nat)
  {
    Regular(bundles, size) && AllTriples(bundles, size) == done
  }

  lemma {:induction false} BundledLength(bundles: seq<Bundle>, done: seq<Params>, size: nat)
    requires Bundled(bundles, done, size)
    ensures |done| == |bundles| * size
  {
    if bundles != [] {
      var shorter := bundles[..|bundles| - 1];
      assert Regular(shorter, size);
      BundledLength(shorter, AllTriples(shorter, size), size);
      assert |bundles| * size == |shorter| * size + size;
    }
  }

  /** The three appends of one turn keep the lists in lockstep with the triples read so far. */
  lemma OneMoreTriple(b: Bundle, c: Bundle, tri: Params)
    requires Parallel(b)
    requires c.numOfTrees == b.numOfTrees + [tri.numOfTrees] && c.maxDepth == b.maxDepth + [tri.maxDepth]
    requires c.featureFraction == b.featureFraction + [tri.featureFraction]
    ensures Triples(c) == Triples(b) + [tri]
  {
  }

  lemma OneMoreBundle(bundles: seq<Bundle>, done: seq<Params>, size: nat, b: Bundle)
    requires Bundled(bundles, done, size) && Parallel(b) && |b.numOfTrees| == size && b.modIndex == |bundles| + 1
    ensures Bundled(bundles + [b], done + Triples(b), size)
  {
    assert (bundles + [b])[..|bundles|] == bundles;
  }

  lemma RealQuotient(x: real, n: real, m: real)
    requires m > 0.0
    ensures x >= n / m <==> x * m >= n
  {
    var q := n / m;
    assert q * m == n;
    if x >= q {
      assert (x - q) * m >= 0.0;
    } else {
      assert (q - x) * m > 0.0;
    }
  }

  lemma Scale(a: nat, b: nat, m: nat)
    requires a <= b
    ensures a * m <= b * m && m * a == a * m && m * b == b * m
  {
  }

  lemma ReachesCeiling(count: nat, n: nat, m: nat)
    requires m >= 1
    ensures count * m >= n <==> count >= CeilDiv(n, m)
  {
    var c := CeilDiv(n, m);
    CeilDivBounds(n, m);
    if count >= c {
      Scale(c, count, m);
    } else {
      Scale(count, c - 1, m);
    }
  }

  /** Counting up to the real quotient is counting up to its ceiling. */
  lemma ReachesQuotient(count: nat, n: nat, m: nat)
    requires m >= 1
    ensures count as real >= n as real / m as real <==> count >= CeilDiv(n, m)
  {
    RealQuotient(count as real, n as real, m as real);
    assert (count * m) as real == count as real * m as real;
    ReachesCeiling(count, n, m);
  }

  /** How many triples fill a bundle; a quotient that is not positive is reached by the first. */
  function BundleSize(n: nat, m: int): nat
    requires m != 0
  {
    if m >= 1 then CeilDiv(n, m) else 1
  }

  lemma Signs(q: real, m: real)
    requires m < 0.0
    ensures q > 0.0 ==> q * m < 0.0
  {
  }

  lemma NotPositive(n: real, m: real)
    requires n >= 0.0 && m < 0.0
    ensures n / m <= 0.0
  {
    var q := n / m;
    assert q * m == n;
    Signs(q, m);
  }

  lemma ReachesSize(count: nat, n: nat, m: int)
    requires m != 0 && count >= 1
    ensures count as real >= n as real / m as real <==> count >= BundleSize(n, m)
  {
    if m >= 1 {
      ReachesQuotient(count, n, m);
    } else {
      NotPositive(n as real, m as real);
    }
  }

  method Emit(before: seq<Bundle>, j: Bundle, ghost params: seq<Params>, ghost used: nat, ghost next: nat,
              ghost size: nat)
    returns (bundles: seq<Bundle>)
    requires used <= next <= |params| && Bundled(before, params[..used], size)
    requires Parallel(j) && |j.numOfTrees| == size && j.modIndex == |before| + 1
    requires Triples(Bundle(0, j.numOfTrees, j.maxDepth, j.featureFraction)) == params[used..next]
    ensures bundles == before + [j] && Bundled(bundles, params[..next], size)
  {
    OneMoreBundle(before, params[..used], size, j);
    assert Triples(j) == params[used..next];
    assert params[..used] + params[used..next] == params[..next];
    bundles := before + [j];
  }

  /** Some bundles are out, holding the triples before `used`, and `count` triples are collected for the next one. */
  ghost predicate LoopAt(params: seq<Params>, i: nat, bundles: seq<Bundle>, used: nat, size: nat, numBundles: nat,
                         collected: Bundle, count: nat)
  {
    && i <= |params| && used + count == i && numBundles == |bundles|
    && (params != [] ==> count < size) && (params == [] ==> bundles == [])
    && Bundled(bundles, params[..used], size)
    && Parallel(collected) && |collected.numOfTrees| == count
    && Triples(collected) == params[used..i]
  }

  lemma LoopStarts(params: seq<Params>, size: nat)
    requires params != [] ==> size >= 1
    ensures LoopAt(params, 0, [], 0, size, 0, Bundle(0, [], [], []), 0)
  {
  }

  /**
    The loop of `post_handle`: consecutive bundles of ceil(L / m) triples each, whose concatenation is a prefix
    of the list; what does not fill a bundle is dropped. Without trainers the division raises; with a negative
    number of them every triple is a bundle of its own.
   */
  method PostHandle(params: seq<Params>, mapperNum: int) returns (r: Option<seq<Bundle>>, ghost used: nat)
    ensures r.None? <==> mapperNum == 0
    ensures r.Some? ==>
              && used <= |params|
              && Bundled(r.value, params[..used], BundleSize(|params|, mapperNum))
              && (params != [] ==> |params| - used < BundleSize(|params|, mapperNum))
              && (params == [] ==> r.value == [])
  {
    used := 0;
    if mapperNum == 0 {
      return None, used;
    }
    var numOfTrees: seq<int>, maxDepth: seq<int>, featureFraction: seq<real> := [], [], [];
    var numBundles, count := 0, 0;
    var bundleSize := |params| as real / mapperNum as real;
    ghost var size := BundleSize(|params|, mapperNum);
    if mapperNum >= 1 {
      CeilDivBounds(|params|, mapperNum);
    }
    var bundles: seq<Bundle> := [];
    LoopStarts(params, size);
    for i := 0 to |params|
      invariant LoopAt(params, i, bundles, used, size, numBundles, Bundle(0, numOfTrees, maxDepth, featureFraction), count)
    {
      var tri := params[i];
      ghost var before := Bundle(0, numOfTrees, maxDepth, featureFraction);
      featureFraction := featureFraction + [tri.featureFraction];
      maxDepth := maxDepth + [tri.maxDepth];
      numOfTrees := numOfTrees + [tri.numOfTrees];
      count := count + 1;
      OneMoreTriple(before, Bundle(0, numOfTrees, maxDepth, featureFraction), tri);
      assert params[used..i] + [tri] == params[used..i + 1];
      ReachesSize(count, |params|, mapperNum);
      if count as real >= bundleSize {
        count := 0;
        numBundles := numBundles + 1;
        var j := Bundle(numBundles, numOfTrees, maxDepth, featureFraction);
        bundles := Emit(bundles, j, params, used, i + 1, size);
        numOfTrees, maxDepth, featureFraction := [], [], [];
        used := i + 1;
      }
    }
    r := Some(bundles);
  }

  /** With a negative number of trainers there is one bundle per triple and none is dropped. */
  lemma BundlePerTriple(bundles: seq<Bundle>, params: seq<Params>, used: nat, m: int)
    requires m < 0 && used <= |params| && Bundled(bundles, params[..used], BundleSize(|params|, m))
    requires params != [] ==> |params| - used < BundleSize(|params|, m)
    ensures used == |params| == |bundles|
  {
    BundledLength(bundles, params[..used], 1);
  }

  lemma AtMostAll(n: nat, k: nat, r: nat, m: nat, c: nat)
    requires c >= 1 && n == k * c + r && n <= m * c
    ensures k <= m
  {
    if k > m {
      Scale(m + 1, k, c);
    }
  }

  lemma CeilOfMultiple(n: nat, m: nat)
    requires m >= 1 && n % m == 0
    ensures n == m * CeilDiv(n, m)
  {
    var q, c := n / m, CeilDiv(n, m);
    assert n == q * m;
    CeilDivBounds(n, m);
    if c < q {
      Scale(c + 1, q, m);
    } else if c > q {
      Scale(q, c - 1, m);
    }
  }

  /** How many bundles there are, and how much of the list is dropped. */
  lemma BundleCount(bundles: seq<Bundle>, params: seq<Params>, used: nat, m: nat)
    requires m >= 1 && params != [] && used <= |params|
    requires Bundled(bundles, params[..used], CeilDiv(|params|, m)) && |params| - used < CeilDiv(|params|, m)
    ensures |bundles| == |params| / CeilDiv(|params|, m)
    ensures |params| - used == |params| % CeilDiv(|params|, m)
    ensures |bundles| <= m
    ensures |bundles| == m <==> |params| % m == 0
    ensures |params| % m == 0 ==> used == |params|
  {
    var n, c := |params|, CeilDiv(|params|, m);
    CeilDivBounds(n, m);
    BundledLength(bundles, params[..used], c);
    QuotientIs(n, |bundles|, n - used, c);
    AtMostAll(n, |bundles|, n - used, m, c);
    if n % m == 0 {
      CeilOfMultiple(n, m);
      QuotientIs(n, m, 0, c);
    } else if |bundles| == m {
      QuotientIs(n, c, 0, m);
    }
  }

  lemma {:induction false} TripleAt(bundles: seq<Bundle>, size: nat, i: nat, j: nat)
    requires Regular(bundles, size) && i < |bundles| && j < size
    ensures i * size + j < |AllTriples(bundles, size)|
    ensures AllTriples(bundles, size)[i * size + j] == Triples(bundles[i])[j]
    decreases |bundles|
  {
    var n := |bundles| - 1;
    var shorter := bundles[..n];
    assert Regular(shorter, size);
    BundledLength(shorter, AllTriples(shorter, size), size);
    if i < n {
      TripleAt(shorter, size, i, j);
    }
  }

  /** The j-th place of the i-th bundle's three lists holds the three numbers of the triple at its turn. */
  lemma BundlesHoldTriples(bundles: seq<Bundle>, params: seq<Params>, used: nat, size: nat, i: nat, j: nat)
    requires used <= |params| && Bundled(bundles, params[..used], size) && i < |bundles| && j < size
    ensures i * size + j < used
    ensures var t := params[i * size + j];
            && bundles[i].modIndex == i + 1
            && |bundles[i].numOfTrees| == |bundles[i].maxDepth| == |bundles[i].featureFraction| == size
            && bundles[i].numOfTrees[j] == t.numOfTrees
            && bundles[i].maxDepth[j] == t.maxDepth
            && bundles[i].featureFraction[j] == t.featureFraction
  {
    TripleAt(bundles, size, i, j);
  }
}
