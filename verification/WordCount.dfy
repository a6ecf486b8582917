/** The word-count workflow on its RPC path (exp/wordcount/functions.py), behind the fan-in barrier. */
module WordCount {
  import opened Words
  import opened Sequences
  import opened Barrier

  datatype Line = Line(text: string)
  datatype Word = Word(text: string)

  /** How a line is cut into words; the pattern matcher itself is a parameter. */
  type Tokenizer = Line -> seq<Word>

  type Dict = map<Word, nat>

  // ---------------------------------------------------------------------------
  // Splitter
  // ---------------------------------------------------------------------------

  /** `math.ceil(n / m)`: how many times m must be taken to reach n. */
  function CeilDiv(n: nat, m: nat): nat
    requires m >= 1
    decreases n
  {
    if n == 0 then 0 else if n <= m then 1 else 1 + CeilDiv(n - m, m)
  }

  lemma {:induction false} CeilDivBounds(n: nat, m: nat)
    requires m >= 1
    ensures m * CeilDiv(n, m) >= n
    ensures CeilDiv(n, m) >= 1 ==> m * (CeilDiv(n, m) - 1) < n
    ensures n >= 1 <==> CeilDiv(n, m) >= 1
    decreases n
  {
    if n > m {
      CeilDivBounds(n - m, m);
      var q := CeilDiv(n - m, m);
      assert m * (q + 1) == m * q + m && m * q == m * (q - 1) + m;
    }
  }

  /** A Python slice with non-negative bounds: out-of-range and crossed bounds give what is there. */
  function Slice<T>(s: seq<T>, start: nat, end: nat): seq<T>
  {
    var e := if end <= |s| then end else |s|;
    if start <= e then s[start..e] else []
  }

  function Min(a: nat, b: nat): nat
  {
    if a <= b then a else b
  }

  /** Full chunks first, then at most one shorter one, then empty ones. */
  ghost predicate Chunked<T>(parts: seq<seq<T>>, size: nat)
  {
    && (forall i :: 0 <= i < |parts| ==> |parts[i]| <= size)
    && (forall i, j :: 0 <= i < j < |parts| && |parts[i]| < size ==> parts[j] == [])
  }

  /** The chunk between two multiples of the chunk size, either of which may lie past the end. */
  lemma ChunkBetween<T>(lines: seq<T>, start: nat, size: nat)
    ensures var part := Slice(lines, start, Min(start + size, |lines|));
            && lines[..Min(start, |lines|)] + part == lines[..Min(start + size, |lines|)]
            && |part| <= size
            && (|part| < size ==> start + size >= |lines|)
            && (start >= |lines| ==> part == [])
  {
  }

  /** The chunks cut so far: they cover the lines before `at`, and are all full as long as lines are left. */
  ghost predicate CutUpTo<T>(parts: seq<seq<T>>, lines: seq<T>, at: nat, size: nat)
  {
    && Flatten(parts) == lines[..Min(at, |lines|)]
    && Chunked(parts, size)
    && (at < |lines| ==> forall k :: 0 <= k < |parts| ==> |parts[k]| == size)
  }

  lemma ChunkedSnoc<T>(parts: seq<seq<T>>, part: seq<T>, size: nat)
    requires Chunked(parts, size) && |part| <= size
    requires part == [] || forall k :: 0 <= k < |parts| ==> |parts[k]| == size
    ensures Chunked(parts + [part], size)
  {
  }

  lemma OneMoreChunk<T>(parts: seq<seq<T>>, lines: seq<T>, at: nat, size: nat)
    requires CutUpTo(parts, lines, at, size)
    ensures CutUpTo(parts + [Slice(lines, at, Min(at + size, |lines|))], lines, at + size, size)
  {
    var part := Slice(lines, at, Min(at + size, |lines|));
    ChunkBetween(lines, at, size);
    FlattenSnoc(parts, part);
    ChunkedSnoc(parts, part, size);
  }

  /** `math.ceil(n / m)`; m may be negative. */
  function CeilQuotient(n: nat, m: int): int
    requires m != 0
  {
    if m > 0 then CeilDiv(n, m) else -(n / -m)
  }

  lemma NextStart(i: nat, size: nat)
    ensures (i + 1) * size == i * size + size
  {
  }

  /** The loop of the splitter. */
  method CutLines(lines: seq<Line>, mapperNum: nat, size: nat) returns (wcs: seq<seq<Line>>)
    ensures |wcs| == mapperNum && CutUpTo(wcs, lines, mapperNum * size, size)
  {
    var total := |lines|;
    wcs := [];
    for i := 0 to mapperNum
      invariant |wcs| == i && CutUpTo(wcs, lines, i * size, size)
    {
      NextStart(i, size);
      OneMoreChunk(wcs, lines, i * size, size);
      var start, end := i * size, Min((i + 1) * size, total);
      wcs := wcs + [Slice(lines, start, end)];
    }
  }

  /**
    The splitter's body: one chunk per mapper, also when the start of a chunk lies past the end. Without mappers the
    division raises; with a negative number of them the loop does not run.
   */
  method SplitLines(lines: seq<Line>, mapperNum: int) returns (wcs: Option<seq<seq<Line>>>)
    ensures wcs.None? <==> mapperNum == 0
    ensures mapperNum < 0 ==> wcs == Some([])
    ensures mapperNum >= 1 ==>
              && |wcs.value| == mapperNum
              && Flatten(wcs.value) == lines
              && Chunked(wcs.value, CeilDiv(|lines|, mapperNum))
  {
    if mapperNum == 0 {
      return None;
    }
    var linesPerFile := CeilQuotient(|lines|, mapperNum);
    if mapperNum < 0 {
      return Some([]);
    }
    var parts := CutLines(lines, mapperNum, linesPerFile);
    CeilDivBounds(|lines|, mapperNum);
    assert lines[..|lines|] == lines;
    return Some(parts);
  }

  // ---------------------------------------------------------------------------
  // Mapper
  // ---------------------------------------------------------------------------

  /** All words of these lines, in order. */
  function AllWords(lines: seq<Line>, words: Tokenizer): seq<Word>
  {
    Flatten(Mapped(words, lines))
  }

  lemma AllWordsSnoc(lines: seq<Line>, i: nat, words: Tokenizer)
    requires i < |lines|
    ensures AllWords(lines[..i + 1], words) == AllWords(lines[..i], words) + words(lines[i])
  {
    assert lines[..i + 1] == lines[..i] + [lines[i]];
    MappedSnoc(words, lines[..i], lines[i]);
    FlattenSnoc(Mapped(words, lines[..i]), words(lines[i]));
  }

  /** How often a word stands in one line. */
  function InLine(words: Tokenizer, w: Word): Line -> nat
  {
    (line: Line) => multiset(words(line))[w]
  }

  /** `d` counts the words of these lines: each word as often as it stands in all of them, and no others. */
  ghost predicate CountsLines(d: Dict, lines: seq<Line>, words: Tokenizer)
  {
    forall w ::
      && (w in d <==> exists i :: 0 <= i < |lines| && w in words(lines[i]))
      && (w in d ==> d[w] == SumOver((line: Line) => multiset(words(line))[w], lines))
  }

  /** `d` counts the words of `ws`: exactly those words, each as often as it occurs. */
  ghost predicate IsCount(d: Dict, ws: seq<Word>)
  {
    forall w :: (w in d <==> w in multiset(ws)) && (w in d ==> d[w] == multiset(ws)[w])
  }

  lemma CountOneMore(d: Dict, ws: seq<Word>, w: Word)
    requires IsCount(d, ws)
    ensures IsCount(d[w := if w in d then d[w] + 1 else 1], ws + [w])
  {
  }

  lemma CountNextWord(d: Dict, before: seq<Word>, found: seq<Word>, j: nat)
    requires j < |found| && IsCount(d, before + found[..j])
    ensures var w := found[j];
            IsCount(d[w := if w in d then d[w] + 1 else 1], before + found[..j + 1])
  {
    CountOneMore(d, before + found[..j], found[j]);
    assert before + found[..j + 1] == (before + found[..j]) + [found[j]];
  }

  lemma CountedAll(d: Dict, before: seq<Word>, found: seq<Word>)
    ensures IsCount(d, before) <==> IsCount(d, before + found[..0])
    ensures IsCount(d, before + found) <==> IsCount(d, before + found[..|found|])
  {
    assert before + found[..0] == before;
    assert found[..|found|] == found;
  }

  /** The words of one line are added to the counts so far. */
  method CountLine(counts: Dict, found: seq<Word>, ghost before: seq<Word>) returns (wordCount: Dict)
    requires IsCount(counts, before)
    ensures IsCount(wordCount, before + found)
  {
    wordCount := counts;
    CountedAll(wordCount, before, found);
    for j := 0 to |found|
      invariant IsCount(wordCount, before + found[..j])
    {
      var word := found[j];
      CountNextWord(wordCount, before, found, j);
      if word !in wordCount {
        wordCount := wordCount[word := 1];
      } else {
        wordCount := wordCount[word := wordCount[word] + 1];
      }
    }
    CountedAll(wordCount, before, found);
  }

  /** A word occurs among all words as often as it does line by line. */
  lemma {:induction false} WordInLines(lines: seq<Line>, words: Tokenizer, w: Word)
    ensures multiset(AllWords(lines, words))[w] == SumOver(InLine(words, w), lines)
  {
    if lines != [] {
      var n := |lines| - 1;
      assert lines[..n + 1] == lines;
      WordInLines(lines[..n], words, w);
      AllWordsSnoc(lines, n, words);
    } else {
      assert Mapped(words, lines) == [];
    }
  }

  lemma WordInSomeLine(lines: seq<Line>, words: Tokenizer, w: Word)
    ensures w in AllWords(lines, words) <==> exists i :: 0 <= i < |lines| && w in words(lines[i])
  {
    FlattenHas(Mapped(words, lines), w);
    if k :| 0 <= k < |lines| && w in words(lines[k]) {
      assert w in Mapped(words, lines)[k];
    }
    if w in AllWords(lines, words) {
      var k :| 0 <= k < |Mapped(words, lines)| && w in Mapped(words, lines)[k];
      assert w in words(lines[k]);
    }
  }

  /** Counting all words is counting line by line. */
  lemma CountIsByLine(d: Dict, lines: seq<Line>, words: Tokenizer)
    requires IsCount(d, AllWords(lines, words))
    ensures CountsLines(d, lines, words)
  {
    forall w
      ensures w in d <==> exists i :: 0 <= i < |lines| && w in words(lines[i])
      ensures w in d ==> d[w] == SumOver((line: Line) => multiset(words(line))[w], lines)
    {
      WordInSomeLine(lines, words, w);
      WordInLines(lines, words, w);
      assert InLine(words, w) == ((line: Line) => multiset(words(line))[w]);
    }
  }

  /** The mapper's body. */
  method CountWords(lines: seq<Line>, words: Tokenizer) returns (wordCount: Dict)
    ensures IsCount(wordCount, AllWords(lines, words))
    ensures CountsLines(wordCount, lines, words)
  {
    wordCount := map[];
    for i := 0 to |lines|
      invariant IsCount(wordCount, AllWords(lines[..i], words))
    {
      wordCount := CountLine(wordCount, words(lines[i]), AllWords(lines[..i], words));
      AllWordsSnoc(lines, i, words);
    }
    assert lines[..|lines|] == lines;
    CountIsByLine(wordCount, lines, words);
  }

  // ---------------------------------------------------------------------------
  // Reducer
  // ---------------------------------------------------------------------------

  function CountIn(d: Dict, w: Word): nat
  {
    if w in d then d[w] else 0
  }

  function Total(ds: seq<Dict>, w: Word): nat
  {
    if ds == [] then 0 else Total(ds[..|ds| - 1], w) + CountIn(ds[|ds| - 1], w)
  }

  ghost predicate Occurs(ds: seq<Dict>, w: Word)
  {
    exists i :: 0 <= i < |ds| && w in ds[i]
  }

  /** `r` is the key-wise sum of these dictionaries. */
  ghost predicate IsSum(r: Dict, ds: seq<Dict>)
  {
    forall w :: (w in r <==> Occurs(ds, w)) && (w in r ==> r[w] == Total(ds, w))
  }

  /** Part of the next dictionary is added: the words of `d` that are no longer in `todo`. */
  ghost predicate IsPartialSum(r: Dict, ds: seq<Dict>, d: Dict, todo: set<Word>)
  {
    forall w :: (w in r <==> Occurs(ds, w) || (w in d && w !in todo))
             && (w in r ==> r[w] == Total(ds, w) + if w in todo then 0 else CountIn(d, w))
  }

  lemma OccursSplits(ds: seq<Dict>, w: Word)
    requires ds != []
    ensures Occurs(ds, w) <==> Occurs(ds[..|ds| - 1], w) || w in ds[|ds| - 1]
  {
    var n := |ds| - 1;
    if Occurs(ds, w) && w !in ds[n] {
      var i :| 0 <= i < |ds| && w in ds[i];
      assert w in ds[..n][i];
    }
    if i :| 0 <= i < n && w in ds[..n][i] {
      assert w in ds[i];
    }
  }

  lemma TotalOfNothing(ds: seq<Dict>, w: Word)
    requires !Occurs(ds, w)
    ensures Total(ds, w) == 0
  {
    if ds != [] {
      OccursSplits(ds, w);
      TotalOfNothing(ds[..|ds| - 1], w);
    }
  }

  lemma AddOneWord(r: Dict, ds: seq<Dict>, d: Dict, todo: set<Word>, w: Word)
    requires IsPartialSum(r, ds, d, todo) && w in todo && todo <= d.Keys
    ensures IsPartialSum(r[w := if w in r then r[w] + d[w] else d[w]], ds, d, todo - {w})
  {
    if w !in r {
      TotalOfNothing(ds, w);
    }
  }

  lemma SumOneMore(r: Dict, ds: seq<Dict>, d: Dict)
    requires IsPartialSum(r, ds, d, {})
    ensures IsSum(r, ds + [d])
  {
    var more := ds + [d];
    assert more[..|ds|] == ds;
    forall w
      ensures Occurs(more, w) <==> Occurs(ds, w) || w in d
    {
      if i :| 0 <= i < |ds| && w in ds[i] {
        assert w in more[i];
      }
      if w in d {
        assert w in more[|ds|];
      }
    }
  }

  /** The reducer's body; the order in which a dictionary is walked does not matter. */
  method MergeCounts(wordCounts: seq<Dict>) returns (wordCount: Dict)
    ensures IsSum(wordCount, wordCounts)
  {
    wordCount := map[];
    for i := 0 to |wordCounts|
      invariant IsSum(wordCount, wordCounts[..i])
    {
      var wc := wordCounts[i];
      var todo := wc.Keys;
      while todo != {}
        invariant todo <= wc.Keys
        invariant IsPartialSum(wordCount, wordCounts[..i], wc, todo)
      {
        var word :| word in todo;
        AddOneWord(wordCount, wordCounts[..i], wc, todo, word);
        if word !in wordCount {
          wordCount := wordCount[word := wc[word]];
        } else {
          wordCount := wordCount[word := wordCount[word] + wc[word]];
        }
        todo := todo - {word};
      }
      SumOneMore(wordCount, wordCounts[..i], wc);
      assert wordCounts[..i + 1] == wordCounts[..i] + [wc];
    }
    assert wordCounts[..|wordCounts|] == wordCounts;
  }

  // ---------------------------------------------------------------------------
  // The sum over the mappers is the count over the file
  // ---------------------------------------------------------------------------

  lemma AllWordsOfConcat(a: seq<Line>, b: seq<Line>, words: Tokenizer)
    ensures AllWords(a + b, words) == AllWords(a, words) + AllWords(b, words)
  {
    MappedAppend(words, a, b);
    FlattenAppend(Mapped(words, a), Mapped(words, b));
  }

  /** Mapper i's result counts chunk i. */
  ghost predicate AreCounts(outputs: seq<Dict>, chunks: seq<seq<Line>>, words: Tokenizer)
  {
    |outputs| == |chunks| && forall i :: 0 <= i < |chunks| ==> IsCount(outputs[i], AllWords(chunks[i], words))
  }

  /** One more chunk and its result. */
  lemma OneMoreMapper(outputs: seq<Dict>, before: seq<Word>, found: seq<Word>, w: Word)
    requires outputs != [] && IsCount(outputs[|outputs| - 1], found)
    requires Total(outputs[..|outputs| - 1], w) == multiset(before)[w]
    requires Occurs(outputs[..|outputs| - 1], w) <==> w in multiset(before)
    ensures Total(outputs, w) == multiset(before + found)[w]
    ensures Occurs(outputs, w) <==> w in multiset(before + found)
  {
    OccursSplits(outputs, w);
    assert multiset(before + found)[w] == multiset(before)[w] + multiset(found)[w];
  }

  lemma {:induction false} MappersAddUp(outputs: seq<Dict>, chunks: seq<seq<Line>>, words: Tokenizer, w: Word)
    requires AreCounts(outputs, chunks, words)
    ensures Total(outputs, w) == multiset(AllWords(Flatten(chunks), words))[w]
    ensures Occurs(outputs, w) <==> w in multiset(AllWords(Flatten(chunks), words))
  {
    if chunks != [] {
      var n := |chunks| - 1;
      MappersAddUp(outputs[..n], chunks[..n], words, w);
      AllWordsOfConcat(Flatten(chunks[..n]), chunks[n], words);
      assert IsCount(outputs[n], AllWords(chunks[n], words));
      OneMoreMapper(outputs, AllWords(Flatten(chunks[..n]), words), AllWords(chunks[n], words), w);
    }
  }

  lemma {:induction false} TotalOfConcat(a: seq<Dict>, b: seq<Dict>, w: Word)
    ensures Total(a + b, w) == Total(a, w) + Total(b, w)
  {
    if b == [] {
      assert a + b == a;
    } else {
      assert (a + b)[..|a + b| - 1] == a + b[..|b| - 1];
      TotalOfConcat(a, b[..|b| - 1], w);
    }
  }

  lemma TotalWithout(b: seq<Dict>, i: nat, w: Word)
    requires i < |b|
    ensures Total(b, w) == Total(b[..i] + b[i + 1..], w) + CountIn(b[i], w)
    ensures multiset(b[..i] + b[i + 1..]) == multiset(b) - multiset{b[i]}
  {
    assert b == b[..i] + [b[i]] + b[i + 1..];
    TotalOfConcat(b[..i], b[i + 1..], w);
    TotalOfConcat(b[..i] + [b[i]], b[i + 1..], w);
    assert (b[..i] + [b[i]])[..i] == b[..i];
  }

  /** The total does not depend on the order of arrival. */
  lemma {:induction false} TotalOfPermutation(a: seq<Dict>, b: seq<Dict>, w: Word)
    requires multiset(a) == multiset(b)
    ensures Total(a, w) == Total(b, w)
    decreases |a|
  {
    if a == [] {
      assert |multiset(b)| == |multiset(a)| == 0;
    } else {
      var n, d := |a| - 1, a[|a| - 1];
      assert a == a[..n] + [d];
      assert d in multiset(b);
      var i :| 0 <= i < |b| && b[i] == d;
      TotalWithout(b, i, w);
      assert multiset(b[..i] + b[i + 1..]) == multiset(a[..n]);
      TotalOfPermutation(a[..n], b[..i] + b[i + 1..], w);
    }
  }

  lemma OccursInPermutation(a: seq<Dict>, b: seq<Dict>, w: Word)
    requires multiset(a) == multiset(b)
    ensures Occurs(a, w) ==> Occurs(b, w)
  {
    if i :| 0 <= i < |a| && w in a[i] {
      assert a[i] in multiset(b);
      var j :| 0 <= j < |b| && b[j] == a[i];
      assert w in b[j];
    }
  }

  // ---------------------------------------------------------------------------
  // End to end
  // ---------------------------------------------------------------------------

  const REDUCER := Name("reducer")

  lemma OnceExactly(q: nat, r: nat, t: nat)
    requires r < t && q * t + r >= 1
    ensures q == 1 && r == 0 <==> t == q * t + r
  {
    QuotientIs(q * t + r, q, r, t);
    if t == q * t + r {
      QuotientIs(t, 1, 0, t);
    }
  }

  /** A fan-in of m events fires once and leaves nothing waiting exactly when the threshold is m. */
  lemma FiresOnceExactly<E>(arrivals: seq<Arrival<E>>, k: int, key: Key)
    requires EventsOf(arrivals, key) != []
    ensures |BatchesOf(FiredBy(arrivals, k), key)| == 1 && Waiting(PendingAfter(arrivals, k), key) == []
            <==> Threshold(k) == |EventsOf(arrivals, key)|
  {
    FiringCount(arrivals, k, key);
    OnceExactly(|BatchesOf(FiredBy(arrivals, k), key)|, |Waiting(PendingAfter(arrivals, k), key)|, Threshold(k));
  }

  /** Merging the mappers' results in any order counts the words of all chunks. */
  lemma SumIsCount(r: Dict, events: seq<Dict>, outputs: seq<Dict>, chunks: seq<seq<Line>>, words: Tokenizer)
    requires IsSum(r, events) && multiset(events) == multiset(outputs) && AreCounts(outputs, chunks, words)
    ensures IsCount(r, AllWords(Flatten(chunks), words))
  {
    var ws := AllWords(Flatten(chunks), words);
    forall w
      ensures (w in r <==> w in multiset(ws)) && (w in r ==> r[w] == multiset(ws)[w])
    {
      MappersAddUp(outputs, chunks, words, w);
      TotalOfPermutation(events, outputs, w);
      OccursInPermutation(events, outputs, w);
      OccursInPermutation(outputs, events, w);
    }
  }

  /**
    For any text, any number of mappers equal to the barrier's threshold, and any sequence of arrivals of any
    workflows in which this workflow's mapper results come in any order: the reducer fires once for this
    workflow, nothing of it stays behind, and whatever it merges counts the words of the whole file.
   */
  lemma DistributedEqualsSequential(lines: seq<Line>, words: Tokenizer, chunks: seq<seq<Line>>, outputs: seq<Dict>,
                                    arrivals: seq<Arrival<Dict>>, wf: Name, r: Dict)
    requires chunks != [] && Flatten(chunks) == lines && AreCounts(outputs, chunks, words)
    requires multiset(EventsOf(arrivals, Key(REDUCER, wf))) == multiset(outputs)
    ensures var key, k := Key(REDUCER, wf), |chunks|;
            var batches := BatchesOf(FiredBy(arrivals, k), key);
            && |batches| == 1 && Waiting(PendingAfter(arrivals, k), key) == []
            && (IsSum(r, batches[0]) ==> IsCount(r, AllWords(lines, words)) && CountsLines(r, lines, words))
  {
    var key, k := Key(REDUCER, wf), |chunks|;
    var events := EventsOf(arrivals, key);
    assert |events| == |multiset(events)| == |multiset(outputs)| == k;
    FiresOnceExactly(arrivals, k, key);
    BarrierRefines(arrivals, k, key);
    var batches := BatchesOf(FiredBy(arrivals, k), key);
    assert batches[..0] == [];
    assert Flatten(batches) == Flatten(batches[..0]) + batches[0] == batches[0];
    assert batches[0] + [] == batches[0];
    assert batches[0] == events;
    if IsSum(r, batches[0]) {
      SumIsCount(r, events, outputs, chunks, words);
      CountIsByLine(r, lines, words);
    }
  }
}
