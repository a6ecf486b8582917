/** Machine words and their little-endian byte form. */
module Words {

  datatype Option<+T> = None | Some(value: T)

  const TWO_32: nat := 0x1_0000_0000
  const TWO_64: nat := 0x1_0000_0000_0000_0000
  const PAGE: nat := 4096

  type Byte = n: nat | n < 256

  function Pow256(width: nat): (p: nat)
    ensures p > 0
  {
    if width == 0 then 1 else 256 * Pow256(width - 1)
  }

  function ToBytes(n: nat, width: nat): (s: seq<Byte>)
    ensures |s| == width
  {
    if width == 0 then [] else [n % 256] + ToBytes(n / 256, width - 1)
  }

  function FromBytes(s: seq<Byte>): nat
  {
    if s == [] then 0 else s[0] + 256 * FromBytes(s[1..])
  }

  lemma Widths()
    ensures Pow256(4) == TWO_32
    ensures Pow256(8) == TWO_64
  {
    assert Pow256(2) == 256 * Pow256(1) == 65536;
    assert Pow256(4) == 256 * Pow256(3) == 256 * (256 * Pow256(2));
    assert Pow256(6) == 256 * Pow256(5) == 256 * (256 * Pow256(4));
    assert Pow256(8) == 256 * Pow256(7) == 256 * (256 * Pow256(6));
  }

  lemma {:induction false} WordRoundTrip(n: nat, width: nat)
    requires n < Pow256(width)
    ensures FromBytes(ToBytes(n, width)) == n
  {
    if width != 0 {
      WordRoundTrip(n / 256, width - 1);
      assert ToBytes(n, width)[1..] == ToBytes(n / 256, width - 1);
    }
  }

  lemma {:induction false} WordBound(s: seq<Byte>)
    ensures FromBytes(s) < Pow256(|s|)
  {
    if s != [] {
      WordBound(s[1..]);
    }
  }

  lemma AtLeastOne(x: nat, d: nat)
    requires x >= 1
    ensures x * d >= d
  {
  }

  lemma QuotientIs(n: nat, q: nat, r: nat, d: nat)
    requires n == q * d + r && r < d
    ensures n / d == q && n % d == r
  {
    var q', r' := n / d, n % d;
    assert n == q' * d + r' && 0 <= r' < d;
    assert (q' - q) * d == r - r';
    if q' > q {
      AtLeastOne(q' - q, d);
    } else if q > q' {
      AtLeastOne(q - q', d);
    }
  }

  lemma Product(q: nat, t: nat, b: nat, a: nat, u: nat, r: nat)
    requires q == t * b + u && u < b && r < a
    ensures q * a + r == t * (a * b) + (u * a + r)
    ensures u * a + r < a * b
  {
    assert (t * b + u) * a == t * b * a + u * a;
    assert t * b * a == t * (a * b);
    assert (u + 1) * a <= b * a;
  }

  lemma DivisionOf(n: nat, a: nat)
    requires a >= 1
    ensures n == n / a * a + n % a && n % a < a
  {
  }

  lemma DivideTwice(n: nat, a: nat, b: nat)
    requires a >= 1 && b >= 1
    ensures a * b >= 1 && n / a / b == n / (a * b)
  {
    var q, r := n / a, n % a;
    var t, u := q / b, q % b;
    DivisionOf(n, a);
    DivisionOf(q, b);
    Product(q, t, b, a, u, r);
    AtLeastOne(a, b);
    QuotientIs(n, t, u * a + r, a * b);
  }

  /** The i-th byte of a written word is the i-th digit to base 256, the lowest first. */
  lemma {:induction false} ByteOf(n: nat, width: nat, i: nat)
    requires i < width
    ensures ToBytes(n, width)[i] == n / Pow256(i) % 256
  {
    if i != 0 {
      ByteOf(n / 256, width - 1, i - 1);
      DivideTwice(n, 256, Pow256(i - 1));
    }
  }

  /** Reading and writing back gives the bytes read. */
  lemma {:induction false} BytesRoundTrip(s: seq<Byte>)
    ensures ToBytes(FromBytes(s), |s|) == s
  {
    if s != [] {
      BytesRoundTrip(s[1..]);
      QuotientIs(FromBytes(s), FromBytes(s[1..]), s[0], 256);
      assert [s[0]] + s[1..] == s;
    }
  }

  /** So each byte read is the digit at its place. */
  lemma DigitRead(s: seq<Byte>, i: nat)
    requires i < |s|
    ensures FromBytes(s) / Pow256(i) % 256 == s[i]
  {
    BytesRoundTrip(s);
    ByteOf(FromBytes(s), |s|, i);
  }
}
