/** Bytes, fixed-width little-endian words and single-bit operations on words. */
module Bytes {

  type byte = x: int | 0 <= x < 256

  const TWO_31: nat := 0x8000_0000
  const TWO_32: nat := 0x1_0000_0000
  const TWO_63: nat := 0x8000_0000_0000_0000
  const TWO_64: nat := 0x1_0000_0000_0000_0000

  datatype Option<+T> = None | Some(value: T)

  function Min(a: int, b: int): int { if a <= b then a else b }

  function Pow(b: nat, n: nat): (p: nat)
    requires b > 0
    ensures p > 0
  {
    if n == 0 then 1 else b * Pow(b, n - 1)
  }

  /** The n low-order bytes of v, least significant first; higher bytes are dropped. */
  function LE(n: nat, v: nat): (r: seq<byte>)
    ensures |r| == n
  {
    if n == 0 then [] else [v % 256] + LE(n - 1, v / 256)
  }

  /** The number whose little-endian bytes are s. */
  function FromLE(s: seq<byte>): (v: nat)
  {
    if |s| == 0 then 0 else s[0] + 256 * FromLE(s[1..])
  }

  lemma {:induction false} FromLEBound(s: seq<byte>)
    ensures FromLE(s) < Pow(256, |s|)
  {
    if |s| > 0 {
      FromLEBound(s[1..]);
    }
  }

  lemma {:induction false} FromLEOfLE(n: nat, v: nat)
    ensures FromLE(LE(n, v)) == v % Pow(256, n)
  {
    if n > 0 {
      FromLEOfLE(n - 1, v / 256);
      var r := LE(n, v);
      assert r[1..] == LE(n - 1, v / 256);
      SplitMod(v, Pow(256, n - 1));
    }
  }

  /** Byte i is the i-th digit to base 256, the lowest first. */
  lemma {:induction false} LEByte(n: nat, v: nat, i: nat)
    requires i < n
    ensures LE(n, v)[i] == v / Pow(256, i) % 256
    decreases n
  {
    if i > 0 {
      LEByte(n - 1, v / 256, i - 1);
      DivTwice(v, Pow(256, i - 1));
    }
  }

  lemma DivTwice(v: nat, m: nat)
    requires m > 0
    ensures v / 256 / m == v / (256 * m)
  {
    var q, r := v / 256, v % 256;
    var a, b := q / m, q % m;
    assert v == a * (256 * m) + (256 * b + r);
    DivModUnique(v, 256 * m, a, 256 * b + r);
  }

  lemma SplitMod(v: nat, m: nat)
    requires m > 0
    ensures v % (256 * m) == v % 256 + 256 * (v / 256 % m)
  {
    var q, r := v / 256, v % 256;
    var a, b := q / m, q % m;
    assert v == a * (256 * m) + (256 * b + r);
    DivModUnique(v, 256 * m, a, 256 * b + r);
  }

  lemma DivModUnique(v: int, m: int, q: int, r: int)
    requires 0 <= r < m && v == q * m + r
    ensures v / m == q && v % m == r
  {
    var q', r' := v / m, v % m;
    assert v == q' * m + r' && 0 <= r' < m;
    MultipleInRange(q - q', m, r' - r);
  }

  lemma MultipleInRange(a: int, m: int, d: int)
    requires a * m == d && -m < d < m
    ensures a == 0
  {
  }

  lemma {:induction false} LEOfFromLE(s: seq<byte>)
    ensures LE(|s|, FromLE(s)) == s
  {
    if |s| > 0 {
      LEOfFromLE(s[1..]);
      assert FromLE(s) / 256 == FromLE(s[1..]) && FromLE(s) % 256 == s[0];
    }
  }

  lemma Pow256Values()
    ensures Pow(256, 4) == TWO_32 && Pow(256, 8) == TWO_64 && Pow(256, 3) == 0x100_0000
  {
    assert Pow(256, 1) == 256;
    assert Pow(256, 2) == 0x1_0000;
    assert Pow(256, 3) == 0x100_0000;
    assert Pow(256, 4) == 0x1_0000_0000;
    assert Pow(256, 5) == 0x100_0000_0000;
    assert Pow(256, 6) == 0x1_0000_0000_0000;
    assert Pow(256, 7) == 0x100_0000_0000_0000;
  }

  lemma ReadBack(s: seq<byte>, n: nat, v: nat)
    requires s == LE(n, v) && (n == 4 ==> v < TWO_32) && (n == 8 ==> v < TWO_64) && (n == 4 || n == 8)
    ensures FromLE(s) == v
  {
    hide LE, FromLE, Pow;
    Pow256Values();
    FromLEOfLE(n, v);
  }

  /** Two's-complement reinterpretation of words, as Go's integer conversions do it. */
  function ToUint32(v: int): (u: nat) ensures u < TWO_32 { v % TWO_32 }
  function ToUint64(v: int): (u: nat) ensures u < TWO_64 { v % TWO_64 }
  function ToInt32(u: int): (v: int)
    ensures -0x8000_0000 <= v < TWO_31 && (u - v) % TWO_32 == 0
  {
    var w := u % TWO_32;
    if w < TWO_31 then w else w - TWO_32
  }
  function ToInt64(u: int): (v: int)
    ensures -0x8000_0000_0000_0000 <= v < TWO_63 && (u - v) % TWO_64 == 0
  {
    var w := u % TWO_64;
    if w < TWO_63 then w else w - TWO_64
  }

  lemma SignedRoundTrip(v: int)
    ensures ToInt64(ToUint64(v)) == v <==> -0x8000_0000_0000_0000 <= v < TWO_63
    ensures ToInt32(ToUint32(v)) == v <==> -0x8000_0000 <= v < TWO_31
  {
  }

  lemma UnsignedRoundTrip(v: nat)
    ensures ToUint64(ToInt64(v)) == v <==> v < TWO_64
    ensures ToUint32(ToInt32(v)) == v <==> v < TWO_32
  {
  }

  /** Bit k of a word, and the word with bit k set. */
  predicate Bit(w: nat, k: nat)
  {
    if k == 0 then w % 2 == 1 else Bit(w / 2, k - 1)
  }

  function SetBit(w: nat, k: nat): (r: nat)
  {
    if k > 0 then w % 2 + 2 * SetBit(w / 2, k - 1)
    else if w % 2 == 1 then w
    else w + 1
  }

  lemma {:induction false} SetBitBits(w: nat, k: nat, j: nat)
    ensures Bit(SetBit(w, k), j) == (j == k || Bit(w, j))
  {
    var r := SetBit(w, k);
    if k > 0 {
      assert r / 2 == SetBit(w / 2, k - 1) && r % 2 == w % 2;
    } else {
      assert r / 2 == w / 2;
    }
    if k > 0 && j > 0 {
      SetBitBits(w / 2, k - 1, j - 1);
    }
  }

  /** Setting a bit changes the word exactly if the bit was clear. */
  lemma {:induction false} SetBitSame(w: nat, k: nat)
    ensures SetBit(w, k) == w <==> Bit(w, k)
  {
    if k > 0 {
      SetBitSame(w / 2, k - 1);
    }
  }

  lemma {:induction false} SetBitBound(w: nat, k: nat, n: nat)
    requires w < Pow(2, n) && k < n
    ensures SetBit(w, k) < Pow(2, n)
  {
    if k > 0 {
      SetBitBound(w / 2, k - 1, n - 1);
    }
  }

  lemma PowTwo32()
    ensures Pow(2, 32) == TWO_32
  {
    assert Pow(2, 8) == 256;
    assert Pow(2, 16) == 0x1_0000;
    assert Pow(2, 24) == 0x100_0000;
  }
}
