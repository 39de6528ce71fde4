/** Chunk size and part count of a transfer. */
module Chunker {
  import opened Bytes

  const DEFAULT_CHUNK: nat := 512 * 1024

  /** The chunk size used for a requested one: a multiple of 1 KiB dividing 512 KiB. */
  function ChunkSize(custom: int): (c: nat)
    ensures 0 < c <= DEFAULT_CHUNK && c % 1024 == 0 && DEFAULT_CHUNK % c == 0
    ensures c == if custom > 0 && custom % 1024 == 0 && 524288 % custom == 0 then custom else 524288
  {
    if custom > 0 && custom % 1024 == 0 && DEFAULT_CHUNK % custom == 0 then
      ChunkDivides(custom);
      custom
    else DEFAULT_CHUNK
  }

  lemma ChunkDivides(c: nat)
    requires c > 0 && DEFAULT_CHUNK % c == 0
    ensures c <= DEFAULT_CHUNK
  {
  }

  /** Division as Go does it: rounding towards zero. */
  function GoDiv(a: int, b: nat): (q: int)
    requires b > 0
  {
    if a >= 0 then a / b else -(-a / b)
  }

  /** Chunk size and part count for a 64-bit size, in 64-bit arithmetic; 1 part for an unknown size. */
  function CalculateParts(total: int, custom: int): (r: (nat, int))
  {
    var c := ChunkSize(custom);
    if total <= 0 then (c, 1) else (c, GoDiv(ToInt64(total + c - 1), c))
  }

  /** n chunks hold the total, and fewer do not. */
  predicate SmallestCount(total: int, c: nat, n: int) { (n - 1) * c < total <= n * c }

  /** The count is the smallest that holds the size, exactly if the sum in it does not overflow. */
  lemma CountIff(total: int, custom: int)
    requires 0 < total < TWO_63
    ensures var (c, n) := CalculateParts(total, custom);
      && c == ChunkSize(custom)
      && (SmallestCount(total, c, n) <==> total + c - 1 < TWO_63)
      && (total + c - 1 >= TWO_63 ==> n < 0)
  {
    var c := ChunkSize(custom);
    var sum := total + c - 1;
    if sum < TWO_63 {
      assert ToInt64(sum) == sum;
      CeilBounds(total, c);
    } else {
      assert ToInt64(sum) == sum - TWO_64;
      NegativeCount(TWO_64 - sum, c);
      var n := GoDiv(sum - TWO_64, c);
      assert n * c <= 0;
    }
  }

  lemma NegativeCount(a: int, c: nat)
    requires a >= c > 0
    ensures GoDiv(-a, c) < 0
  {
    assert a == (a / c) * c + a % c;
    MulLess(0, a / c, c);
  }

  lemma CeilBounds(total: nat, c: nat)
    requires total > 0 && c > 0
    ensures var n := (total + c - 1) / c; n > 0 && (n - 1) * c < total <= n * c
  {
    var n := (total + c - 1) / c;
    var r := (total + c - 1) % c;
    assert total + c - 1 == n * c + r;
    assert (n - 1) * c == n * c - c;
  }

  /** The bounds fix the count. */
  lemma PartsUnique(total: nat, c: nat, m: int, n: int)
    requires c > 0 && SmallestCount(total, c, m) && SmallestCount(total, c, n)
    ensures m == n
  {
    MulLess(m - 1, n, c);
    MulLess(n - 1, m, c);
  }

  lemma MulLess(a: int, b: int, c: nat)
    requires a * c < b * c
    ensures a < b
  {
  }
}
