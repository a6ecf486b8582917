/** Sequences of sequences. */
module Sequences {

  function Flatten<T>(parts: seq<seq<T>>): seq<T>
  {
    if parts == [] then [] else Flatten(parts[..|parts| - 1]) + parts[|parts| - 1]
  }

  lemma FlattenSnoc<T>(parts: seq<seq<T>>, last: seq<T>)
    ensures Flatten(parts + [last]) == Flatten(parts) + last
  {
    assert (parts + [last])[..|parts|] == parts;
  }

  lemma Regroup<T>(a: seq<T>, b: seq<T>, c: seq<T>)
    ensures (a + b) + c == a + (b + c)
  {
  }

  lemma {:induction false} FlattenCons<T>(first: seq<T>, parts: seq<seq<T>>)
    ensures Flatten([first] + parts) == first + Flatten(parts)
  {
    if parts == [] {
      FlattenSnoc([], first);
      assert [first] + parts == [] + [first];
    } else {
      var n := |parts| - 1;
      FlattenCons(first, parts[..n]);
      FlattenSnoc([first] + parts[..n], parts[n]);
      assert ([first] + parts[..n]) + [parts[n]] == [first] + parts;
      Regroup(first, Flatten(parts[..n]), parts[n]);
    }
  }

  lemma {:induction false} FlattenAppend<T>(a: seq<seq<T>>, b: seq<seq<T>>)
    ensures Flatten(a + b) == Flatten(a) + Flatten(b)
  {
    if b == [] {
      assert a + b == a;
    } else {
      var n := |b| - 1;
      FlattenAppend(a, b[..n]);
      FlattenSnoc(a + b[..n], b[n]);
      assert (a + b[..n]) + [b[n]] == a + b;
      Regroup(Flatten(a), Flatten(b[..n]), b[n]);
    }
  }

  /** The elements of the whole are those of the parts. */
  lemma {:induction false} FlattenHas<T>(parts: seq<seq<T>>, x: T)
    ensures x in Flatten(parts) <==> exists k :: 0 <= k < |parts| && x in parts[k]
  {
    if parts != [] {
      var n := |parts| - 1;
      FlattenHas(parts[..n], x);
      if k :| 0 <= k < |parts| && x in parts[k] && k < n {
        assert x in parts[..n][k];
      }
      if j :| 0 <= j < n && x in parts[..n][j] {
        assert x in parts[j];
      }
    }
  }

  function Mapped<T, U>(f: T -> U, s: seq<T>): (r: seq<U>)
    ensures |r| == |s|
    ensures forall i :: 0 <= i < |s| ==> r[i] == f(s[i])
  {
    seq(|s|, i requires 0 <= i < |s| => f(s[i]))
  }

  lemma MappedCons<T, U>(f: T -> U, first: T, s: seq<T>)
    ensures Mapped(f, [first] + s) == [f(first)] + Mapped(f, s)
  {
  }

  lemma MappedSnoc<T, U>(f: T -> U, s: seq<T>, last: T)
    ensures Mapped(f, s + [last]) == Mapped(f, s) + [f(last)]
  {
  }

  lemma MappedAppend<T, U>(f: T -> U, a: seq<T>, b: seq<T>)
    ensures Mapped(f, a + b) == Mapped(f, a) + Mapped(f, b)
  {
  }

  /** The sum of f over a sequence. */
  function SumOver<T>(f: T -> nat, s: seq<T>): nat
  {
    if s == [] then 0 else SumOver(f, s[..|s| - 1]) + f(s[|s| - 1])
  }

  lemma SumOverSnoc<T>(f: T -> nat, s: seq<T>, last: T)
    ensures SumOver(f, s + [last]) == SumOver(f, s) + f(last)
  {
    assert (s + [last])[..|s|] == s;
  }

  lemma {:induction false} SumOverAppend<T>(f: T -> nat, a: seq<T>, b: seq<T>)
    ensures SumOver(f, a + b) == SumOver(f, a) + SumOver(f, b)
  {
    if b == [] {
      assert a + b == a;
    } else {
      var n := |b| - 1;
      SumOverAppend(f, a, b[..n]);
      SumOverSnoc(f, a + b[..n], b[n]);
      assert (a + b[..n]) + [b[n]] == a + b;
    }
  }
}
