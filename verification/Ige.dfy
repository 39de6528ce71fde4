/** AES-256 in Infinite Garble Extension mode, over an arbitrary 16-byte block permutation. */
module Ige {
  import opened Bytes

  // ---- Bytewise exclusive or ----

  /** Exclusive or of the n low-order bits of a and b. */
  function XorBits(a: nat, b: nat, n: nat): (r: nat)
    ensures r < Pow(2, n)
  {
    if n == 0 then 0 else (if a % 2 == b % 2 then 0 else 1) + 2 * XorBits(a / 2, b / 2, n - 1)
  }

  lemma {:induction false} XorBitsCancel(a: nat, b: nat, n: nat)
    requires a < Pow(2, n)
    ensures XorBits(XorBits(a, b, n), b, n) == a
  {
    if n > 0 {
      var r := XorBits(a, b, n);
      assert r / 2 == XorBits(a / 2, b / 2, n - 1);
      assert r % 2 == if a % 2 == b % 2 then 0 else 1;
      XorBitsCancel(a / 2, b / 2, n - 1);
    }
  }

  lemma {:induction false} XorBitsCommutes(a: nat, b: nat, n: nat)
    ensures XorBits(a, b, n) == XorBits(b, a, n)
  {
    if n > 0 {
      XorBitsCommutes(a / 2, b / 2, n - 1);
    }
  }

  function XorByte(a: byte, b: byte): (r: byte)
  {
    assert Pow(2, 8) == 256;
    XorBits(a, b, 8)
  }

  type Block = s: seq<byte> | |s| == 16 witness seq(16, _ => 0)

  function Xor(a: Block, b: Block): (r: Block)
  {
    seq(16, i requires 0 <= i < 16 => XorByte(a[i], b[i]))
  }

  lemma XorCancel(a: Block, b: Block)
    ensures Xor(Xor(a, b), b) == a
  {
    assert Pow(2, 8) == 256;
    forall i | 0 <= i < 16 ensures Xor(Xor(a, b), b)[i] == a[i] {
      XorBitsCancel(a[i], b[i], 8);
    }
  }

  lemma XorCommutes(a: Block, b: Block)
    ensures Xor(a, b) == Xor(b, a)
  {
    forall i | 0 <= i < 16 ensures Xor(a, b)[i] == Xor(b, a)[i] {
      XorBitsCommutes(a[i], b[i], 8);
    }
  }

  /** Exclusive or with a fixed block is injective. */
  lemma XorInjective(t: Block, a: Block, b: Block)
    ensures Xor(t, a) == Xor(t, b) <==> a == b
  {
    if Xor(t, a) == Xor(t, b) {
      XorCommutes(t, a);
      XorCommutes(t, b);
      XorCancel(a, t);
      XorCancel(b, t);
    }
  }

  // ---- The recurrences ----

  type Cipher = Block -> Block

  ghost predicate Inverse(D: Cipher, E: Cipher) { forall b: Block :: D(E(b)) == b }

  /** One encryption step, E(M ^ C_prev) ^ M_prev, and one decryption step, D(C ^ M_prev) ^ C_prev. */
  function EncBlock(E: Cipher, c: Block, m: Block, x: Block): Block { Xor(E(Xor(x, c)), m) }
  function DecBlock(D: Cipher, c: Block, m: Block, x: Block): Block { Xor(D(Xor(x, m)), c) }

  /**
   * The encryption of the whole blocks of src after ciphertext block c and plaintext block m.
   * With inPlace == false this is the IGE recurrence C_i = E(M_i ^ C_{i-1}) ^ M_{i-1}. With
   * inPlace == true each block's ciphertext has replaced its plaintext by the time the next block
   * reads it, so that C_i = E(M_i ^ C_{i-1}) ^ C_{i-1} from the second block on.
   */
  function Encrypted(inPlace: bool, E: Cipher, c: Block, m: Block, src: seq<byte>): (r: seq<byte>)
    ensures |r| == |src| - |src| % 16
    decreases |src|
  {
    if |src| < 16 then []
    else
      var y := EncBlock(E, c, m, src[..16]);
      y + Encrypted(inPlace, E, y, if inPlace then y else src[..16], src[16..])
  }

  /** The mirror image: M_i = D(C_i ^ M_{i-1}) ^ C_{i-1}, in place M_i = D(C_i ^ M_{i-1}) ^ M_{i-1}. */
  function Decrypted(inPlace: bool, D: Cipher, c: Block, m: Block, src: seq<byte>): (r: seq<byte>)
    ensures |r| == |src| - |src| % 16
    decreases |src|
  {
    if |src| < 16 then []
    else
      var y := DecBlock(D, c, m, src[..16]);
      y + Decrypted(inPlace, D, if inPlace then y else src[..16], y, src[16..])
  }

  /** Decryption undoes encryption, for every IV, permutation and whole number of blocks. */
  lemma {:induction false} DecryptEncrypt(E: Cipher, D: Cipher, c: Block, m: Block, src: seq<byte>)
    requires Inverse(D, E) && |src| % 16 == 0
    ensures Decrypted(false, D, c, m, Encrypted(false, E, c, m, src)) == src
    decreases |src|
  {
    if |src| >= 16 {
      var x := src[..16];
      var y := EncBlock(E, c, m, x);
      var enc := Encrypted(false, E, c, m, src);
      assert enc[..16] == y && enc[16..] == Encrypted(false, E, y, x, src[16..]);
      XorCancel(E(Xor(x, c)), m);
      XorCancel(x, c);
      assert DecBlock(D, c, m, y) == x;
      DecryptEncrypt(E, D, y, x, src[16..]);
    }
  }

  /** And encryption undoes decryption. */
  lemma {:induction false} EncryptDecrypt(E: Cipher, D: Cipher, c: Block, m: Block, src: seq<byte>)
    requires Inverse(E, D) && |src| % 16 == 0
    ensures Encrypted(false, E, c, m, Decrypted(false, D, c, m, src)) == src
    decreases |src|
  {
    if |src| >= 16 {
      var x := src[..16];
      var y := DecBlock(D, c, m, x);
      var dec := Decrypted(false, D, c, m, src);
      assert dec[..16] == y && dec[16..] == Decrypted(false, D, x, y, src[16..]);
      XorCancel(D(Xor(x, m)), c);
      XorCancel(x, m);
      assert EncBlock(E, c, m, y) == x;
      EncryptDecrypt(E, D, x, y, src[16..]);
    }
  }

  /** Moving one block from the bytes still to be encrypted to the bytes done. */
  lemma EncryptedStep(inPlace: bool, E: Cipher, c: Block, m: Block, done: seq<byte>, src: seq<byte>)
    requires |src| >= 16
    ensures var y := EncBlock(E, c, m, src[..16]);
      done + Encrypted(inPlace, E, c, m, src)
        == (done + y) + Encrypted(inPlace, E, y, if inPlace then y else src[..16], src[16..])
  {
  }

  lemma DecryptedStep(inPlace: bool, D: Cipher, c: Block, m: Block, done: seq<byte>, src: seq<byte>)
    requires |src| >= 16
    ensures var y := DecBlock(D, c, m, src[..16]);
      done + Decrypted(inPlace, D, c, m, src)
        == (done + y) + Decrypted(inPlace, D, if inPlace then y else src[..16], y, src[16..])
  {
  }

  /** Bit by bit, the exclusive or. */
  lemma XorBit(a: byte, b: byte, k: nat)
    requires k < 8
    ensures Bit(XorByte(a, b), k) <==> Bit(a, k) != Bit(b, k)
  {
    XorBitsBit(a, b, 8, k);
  }

  lemma {:induction false} XorBitsBit(a: nat, b: nat, n: nat, k: nat)
    requires k < n
    ensures Bit(XorBits(a, b, n), k) <==> Bit(a, k) != Bit(b, k)
    decreases n
  {
    var r := XorBits(a, b, n);
    assert r / 2 == XorBits(a / 2, b / 2, n - 1);
    if k > 0 {
      XorBitsBit(a / 2, b / 2, n - 1, k - 1);
    }
  }

  lemma BlockShift(s: seq<byte>, rest: seq<byte>, i: nat)
    requires 0 < i && 16 * i + 16 <= |s| && rest == s[16..]
    ensures BlockAt(s, i) == BlockAt(rest, i - 1)
  {
  }

  lemma BlockFirst(s: seq<byte>)
    requires |s| >= 16
    ensures BlockAt(s, 0) == s[..16]
  {
  }

  /**
   * The recurrence of encryption, block by block: C_i = E(M_i ^ C_{i-1}) ^ M_{i-1}, with the IV's two
   * halves before the first block; in place the last term is C_{i-1}.
   */
  lemma {:induction false} EncryptRecurrence(inPlace: bool, E: Cipher, c: Block, m: Block, src: seq<byte>, i: nat)
    requires 16 * i + 16 <= |src|
    ensures var out := Encrypted(inPlace, E, c, m, src);
      BlockAt(out, i) == Xor(E(Xor(BlockAt(src, i), if i == 0 then c else BlockAt(out, i - 1))),
        if i == 0 then m else BlockAt(if inPlace then out else src, i - 1))
    decreases |src|
  {
    hide Xor, BlockAt;
    var out := Encrypted(inPlace, E, c, m, src);
    var y := EncBlock(E, c, m, src[..16]);
    var rest := Encrypted(inPlace, E, y, if inPlace then y else src[..16], src[16..]);
    assert out == y + rest && out[16..] == rest && out[..16] == y;
    if i == 0 {
      BlockFirst(out);
      BlockFirst(src);
    } else {
      EncryptRecurrence(inPlace, E, y, if inPlace then y else src[..16], src[16..], i - 1);
      BlockShift(out, rest, i);
      BlockShift(src, src[16..], i);
      if i > 1 {
        BlockShift(out, rest, i - 1);
        BlockShift(src, src[16..], i - 1);
      } else {
        BlockFirst(out);
        BlockFirst(src);
      }
    }
  }

  /** And of decryption: M_i = D(C_i ^ M_{i-1}) ^ C_{i-1}; in place the last term is M_{i-1}. */
  lemma {:induction false} DecryptRecurrence(inPlace: bool, D: Cipher, c: Block, m: Block, src: seq<byte>, i: nat)
    requires 16 * i + 16 <= |src|
    ensures var out := Decrypted(inPlace, D, c, m, src);
      BlockAt(out, i) == Xor(D(Xor(BlockAt(src, i), if i == 0 then m else BlockAt(out, i - 1))),
        if i == 0 then c else BlockAt(if inPlace then out else src, i - 1))
    decreases |src|
  {
    hide Xor, BlockAt;
    var out := Decrypted(inPlace, D, c, m, src);
    var y := DecBlock(D, c, m, src[..16]);
    var rest := Decrypted(inPlace, D, if inPlace then y else src[..16], y, src[16..]);
    assert out == y + rest && out[16..] == rest && out[..16] == y;
    if i == 0 {
      BlockFirst(out);
      BlockFirst(src);
    } else {
      DecryptRecurrence(inPlace, D, if inPlace then y else src[..16], y, src[16..], i - 1);
      BlockShift(out, rest, i);
      BlockShift(src, src[16..], i);
      if i > 1 {
        BlockShift(out, rest, i - 1);
        BlockShift(src, src[16..], i - 1);
      } else {
        BlockFirst(out);
        BlockFirst(src);
      }
    }
  }

  // ---- When in-place use is IGE ----

  function BlockAt(s: seq<byte>, i: nat): Block
    requires 16 * i + 16 <= |s|
  {
    s[16 * i..16 * i + 16]
  }

  /** Every one of the first k blocks is the same in s and t. */
  ghost predicate SameBlocks(s: seq<byte>, t: seq<byte>, k: nat)
    requires 16 * k <= |s| && 16 * k <= |t|
  {
    forall i :: 0 <= i < k ==> BlockAt(s, i) == BlockAt(t, i)
  }

  lemma SameBlocksStep(s: seq<byte>, t: seq<byte>, k: nat)
    requires 0 < k && 16 * k <= |s| && 16 * k <= |t|
    ensures SameBlocks(s, t, k) <==> s[..16] == t[..16] && SameBlocks(s[16..], t[16..], k - 1)
  {
    assert BlockAt(s, 0) == s[..16] && BlockAt(t, 0) == t[..16];
    forall i: nat | i < k - 1
      ensures BlockAt(s[16..], i) == BlockAt(s, i + 1) && BlockAt(t[16..], i) == BlockAt(t, i + 1)
    {
    }
    if s[..16] == t[..16] && SameBlocks(s[16..], t[16..], k - 1) {
      forall i | 0 <= i < k ensures BlockAt(s, i) == BlockAt(t, i) {
        if i > 0 {
          assert BlockAt(s[16..], i - 1) == BlockAt(t[16..], i - 1);
        }
      }
    }
    if SameBlocks(s, t, k) {
      forall i | 0 <= i < k - 1 ensures BlockAt(s[16..], i) == BlockAt(t[16..], i) {
        assert BlockAt(s, i + 1) == BlockAt(t, i + 1);
      }
    }
  }

  /**
   * In-place encryption agrees with IGE on the first k blocks exactly when IGE leaves each of the
   * first k - 1 blocks as it is.
   */
  lemma {:induction false} InPlaceEncryptLaw(E: Cipher, c: Block, m: Block, src: seq<byte>, k: nat)
    requires 0 < k && 16 * k <= |src|
    ensures SameBlocks(Encrypted(true, E, c, m, src), Encrypted(false, E, c, m, src), k)
       <==> SameBlocks(src, Encrypted(false, E, c, m, src), k - 1)
    decreases k
  {
    var x := src[..16];
    var y := EncBlock(E, c, m, x);
    var ige, inp := Encrypted(false, E, c, m, src), Encrypted(true, E, c, m, src);
    var ige', inp' := Encrypted(false, E, y, x, src[16..]), Encrypted(true, E, y, y, src[16..]);
    assert ige[..16] == y && ige[16..] == ige' && inp[..16] == y && inp[16..] == inp';
    SameBlocksStep(inp, ige, k);
    if k > 1 {
      SameBlocksStep(src, ige, k - 1);
      if x == y {
        InPlaceEncryptLaw(E, y, x, src[16..], k - 1);
      } else {
        // The second blocks E(..) ^ y and E(..) ^ x differ.
        var z := src[16..][..16];
        XorInjective(E(Xor(z, y)), x, y);
        assert ige'[..16] != inp'[..16];
        SameBlocksStep(inp', ige', k - 1);
      }
    }
  }

  /** The same law for in-place decryption. */
  lemma {:induction false} InPlaceDecryptLaw(D: Cipher, c: Block, m: Block, src: seq<byte>, k: nat)
    requires 0 < k && 16 * k <= |src|
    ensures SameBlocks(Decrypted(true, D, c, m, src), Decrypted(false, D, c, m, src), k)
       <==> SameBlocks(src, Decrypted(false, D, c, m, src), k - 1)
    decreases k
  {
    var x := src[..16];
    var y := DecBlock(D, c, m, x);
    var ige, inp := Decrypted(false, D, c, m, src), Decrypted(true, D, c, m, src);
    var ige', inp' := Decrypted(false, D, x, y, src[16..]), Decrypted(true, D, y, y, src[16..]);
    assert ige[..16] == y && ige[16..] == ige' && inp[..16] == y && inp[16..] == inp';
    SameBlocksStep(inp, ige, k);
    if k > 1 {
      SameBlocksStep(src, ige, k - 1);
      if x == y {
        InPlaceDecryptLaw(D, x, y, src[16..], k - 1);
      } else {
        var z := src[16..][..16];
        XorInjective(D(Xor(z, y)), x, y);
        assert ige'[..16] != inp'[..16];
        SameBlocksStep(inp', ige', k - 1);
      }
    }
  }

  /** Whole buffers of n blocks are equal exactly when all n blocks are. */
  lemma SameBlocksAll(s: seq<byte>, t: seq<byte>, n: nat)
    requires |s| == |t| == 16 * n
    ensures SameBlocks(s, t, n) <==> s == t
    decreases n
  {
    if n > 0 {
      SameBlocksStep(s, t, n);
      SameBlocksAll(s[16..], t[16..], n - 1);
      assert s == s[..16] + s[16..] && t == t[..16] + t[16..];
    } else {
      assert s == t;
    }
  }

  /** A two-block message and a cipher on which the documented in-place encryption is not IGE. */
  lemma InPlaceEncryptIsNotIge() returns (E: Cipher, D: Cipher, c: Block, m: Block, src: seq<byte>)
    ensures Inverse(D, E) && Inverse(E, D) && |src| == 32
    ensures Encrypted(true, E, c, m, src) != Encrypted(false, E, c, m, src)
  {
    E, D := b => b, b => b;
    c, m := seq(16, _ => 0), seq(16, _ => 1);
    src := seq(32, _ => 0);
    var ige := Encrypted(false, E, c, m, src);
    InPlaceEncryptLaw(E, c, m, src, 2);
    var x := src[..16];
    var y := EncBlock(E, c, m, x);
    XorSmall();
    assert y[0] == XorByte(XorByte(x[0], c[0]), m[0]) == 1;
    assert ige[..16] == y && BlockAt(ige, 0) == ige[..16] && BlockAt(src, 0) == x;
    SameBlocksAll(Encrypted(true, E, c, m, src), ige, 2);
  }

  /** And a two-block ciphertext on which in-place decryption is not IGE. */
  lemma InPlaceDecryptIsNotIge() returns (E: Cipher, D: Cipher, c: Block, m: Block, src: seq<byte>)
    ensures Inverse(D, E) && Inverse(E, D) && |src| == 32
    ensures Decrypted(true, D, c, m, src) != Decrypted(false, D, c, m, src)
  {
    E, D := b => b, b => b;
    c, m := seq(16, _ => 1), seq(16, _ => 0);
    src := seq(32, _ => 0);
    var ige := Decrypted(false, D, c, m, src);
    InPlaceDecryptLaw(D, c, m, src, 2);
    var x := src[..16];
    var y := DecBlock(D, c, m, x);
    XorSmall();
    assert y[0] == XorByte(XorByte(x[0], m[0]), c[0]) == 1;
    assert ige[..16] == y && BlockAt(ige, 0) == ige[..16] && BlockAt(src, 0) == x;
    SameBlocksAll(Decrypted(true, D, c, m, src), ige, 2);
  }

  lemma XorSmall()
    ensures XorByte(0, 0) == 0 && XorByte(0, 1) == 1
  {
    XorZero(8);
    XorZero(7);
  }

  lemma {:induction false} XorZero(n: nat)
    ensures XorBits(0, 0, n) == 0
  {
    if n > 0 {
      XorZero(n - 1);
    }
  }

  // ---- The loops over shared memory ----

  datatype IgeError = InvalidBlockSize | DestinationTooSmall

  /** t[j] = a[i+j] ^ b[k+j] for the 16 bytes of a block. */
  method XorViews(a: array<byte>, i: nat, b: array<byte>, k: nat) returns (t: Block)
    requires i + 16 <= a.Length && k + 16 <= b.Length
    ensures t == Xor(a[i..i + 16], b[k..k + 16])
  {
    var buf: seq<byte> := [];
    for j := 0 to 16
      invariant |buf| == j
      invariant forall l :: 0 <= l < j ==> buf[l] == XorByte(a[i + l], b[k + l])
    {
      buf := buf + [XorByte(a[i + j], b[k + j])];
    }
    t := buf;
    assert t == Xor(a[i..i + 16], b[k..k + 16]);
  }

  /** dst[i+j] = t[j] ^ prev[k+j]; the view read lies in another array or before the bytes written. */
  method StoreXor(dst: array<byte>, i: nat, t: Block, prev: array<byte>, k: nat)
    requires i + 16 <= dst.Length && k + 16 <= prev.Length && (prev != dst || k + 16 <= i)
    modifies dst
    ensures dst[i..i + 16] == Xor(t, old(prev[k..k + 16]))
    ensures dst[..i] == old(dst[..i]) && dst[i + 16..] == old(dst[i + 16..])
  {
    for j := 0 to 16
      invariant forall l :: 0 <= l < j ==> dst[i + l] == XorByte(t[l], old(prev[k + l]))
      invariant forall l :: 0 <= l < dst.Length && (l < i || l >= i + j) ==> dst[l] == old(dst[l])
    {
      dst[i + j] := XorByte(t[j], prev[k + j]);
    }
    assert dst[i..i + 16] == Xor(t, old(prev[k..k + 16]));
  }

  /** The body of the block loop: one block read from src through the views and stored to dst. */
  method EncryptAt(E: Cipher, dst: array<byte>, src: array<byte>, i: nat,
                  cArr: array<byte>, cOff: nat, mArr: array<byte>, mOff: nat)
    requires i + 16 <= src.Length && i + 16 <= dst.Length
    requires cOff + 16 <= cArr.Length && mOff + 16 <= mArr.Length
    requires mArr != dst || mOff + 16 <= i
    modifies dst
    ensures dst[..i] == old(dst[..i]) && dst[i + 16..] == old(dst[i + 16..])
    ensures dst[i..i + 16] ==
      EncBlock(E, old(cArr[cOff..cOff + 16]), old(mArr[mOff..mOff + 16]), old(src[i..i + 16]))
  {
    var t := XorViews(src, i, cArr, cOff);
    t := E(t);
    StoreXor(dst, i, t, mArr, mOff);
  }

  /**
   * IGE.Encrypt. cPrev and mPrev are views: an array and an offset into it. The view mPrev points
   * into src, so when dst and src are the same array the store to dst changes what it shows.
   */
  method Encrypt(E: Cipher, iv: array<byte>, dst: array<byte>, src: array<byte>)
    returns (err: Option<IgeError>)
    requires iv.Length == 32 && iv != dst
    modifies dst
    ensures err == if src.Length % 16 != 0 then Some(InvalidBlockSize)
                   else if dst.Length < src.Length then Some(DestinationTooSmall)
                   else None
    ensures err.Some? ==> dst[..] == old(dst[..])
    ensures err == None ==>
      dst[..src.Length] == Encrypted(dst == src, E, iv[..16], iv[16..], old(src[..]))
    ensures err == None ==> dst[src.Length..] == old(dst[src.Length..])
  {
    hide Xor, XorByte, EncBlock, DecBlock, Encrypted, Decrypted;
    var n := src.Length;
    if n % 16 != 0 {
      return Some(InvalidBlockSize);
    }
    if dst.Length < n {
      return Some(DestinationTooSmall);
    }
    var cArr, cOff, mArr, mOff := iv, 0, iv, 16;
    var i := 0;
    ghost var goal := Encrypted(dst == src, E, iv[..16], iv[16..], src[..]);
    assert src[0..] == src[..] && iv[0..16] == iv[..16] && iv[16..32] == iv[16..];
    while i < n
      invariant 0 <= i <= n && i % 16 == 0
      invariant cOff + 16 <= cArr.Length && mOff + 16 <= mArr.Length
      invariant mArr != dst || mOff + 16 <= i
      invariant src[i..] == old(src[i..]) && dst[n..] == old(dst[n..])
      invariant dst[..i] + Encrypted(dst == src, E, cArr[cOff..cOff + 16], mArr[mOff..mOff + 16], src[i..]) == goal
    {
      ghost var c, m, todo, done := cArr[cOff..cOff + 16], mArr[mOff..mOff + 16], src[i..], dst[..i];
      assert src[i..i + 16] == todo[..16];
      EncryptedStep(dst == src, E, c, m, done, todo);
      EncryptAt(E, dst, src, i, cArr, cOff, mArr, mOff);
      assert src[i + 16..] == todo[16..] == old(src[i + 16..]) && dst[n..] == old(dst[n..]);
      assert dst[..i + 16] == done + dst[i..i + 16];
      cArr, cOff, mArr, mOff := dst, i, src, i;
      i := i + 16;
    }
    assert dst[..n] == goal;
    return None;
  }

  /** The body of the block loop: one block read from src through the views and stored to dst. */
  method DecryptAt(D: Cipher, dst: array<byte>, src: array<byte>, i: nat,
                  cArr: array<byte>, cOff: nat, mArr: array<byte>, mOff: nat)
    requires i + 16 <= src.Length && i + 16 <= dst.Length
    requires cOff + 16 <= cArr.Length && mOff + 16 <= mArr.Length
    requires cArr != dst || cOff + 16 <= i
    modifies dst
    ensures dst[..i] == old(dst[..i]) && dst[i + 16..] == old(dst[i + 16..])
    ensures dst[i..i + 16] ==
      DecBlock(D, old(cArr[cOff..cOff + 16]), old(mArr[mOff..mOff + 16]), old(src[i..i + 16]))
  {
    var t := XorViews(src, i, mArr, mOff);
    t := D(t);
    StoreXor(dst, i, t, cArr, cOff);
  }

  /** IGE.Decrypt, with the same views. */
  method Decrypt(D: Cipher, iv: array<byte>, dst: array<byte>, src: array<byte>)
    returns (err: Option<IgeError>)
    requires iv.Length == 32 && iv != dst
    modifies dst
    ensures err == if src.Length % 16 != 0 then Some(InvalidBlockSize)
                   else if dst.Length < src.Length then Some(DestinationTooSmall)
                   else None
    ensures err.Some? ==> dst[..] == old(dst[..])
    ensures err == None ==>
      dst[..src.Length] == Decrypted(dst == src, D, iv[..16], iv[16..], old(src[..]))
    ensures err == None ==> dst[src.Length..] == old(dst[src.Length..])
  {
    hide Xor, XorByte, EncBlock, DecBlock, Encrypted, Decrypted;
    var n := src.Length;
    if n % 16 != 0 {
      return Some(InvalidBlockSize);
    }
    if dst.Length < n {
      return Some(DestinationTooSmall);
    }
    var cArr, cOff, mArr, mOff := iv, 0, iv, 16;
    var i := 0;
    ghost var goal := Decrypted(dst == src, D, iv[..16], iv[16..], src[..]);
    assert src[0..] == src[..] && iv[0..16] == iv[..16] && iv[16..32] == iv[16..];
    while i < n
      invariant 0 <= i <= n && i % 16 == 0
      invariant cOff + 16 <= cArr.Length && mOff + 16 <= mArr.Length
      invariant cArr != dst || cOff + 16 <= i
      invariant src[i..] == old(src[i..]) && dst[n..] == old(dst[n..])
      invariant dst[..i] + Decrypted(dst == src, D, cArr[cOff..cOff + 16], mArr[mOff..mOff + 16], src[i..]) == goal
    {
      ghost var c, m, todo, done := cArr[cOff..cOff + 16], mArr[mOff..mOff + 16], src[i..], dst[..i];
      assert src[i..i + 16] == todo[..16];
      DecryptedStep(dst == src, D, c, m, done, todo);
      DecryptAt(D, dst, src, i, cArr, cOff, mArr, mOff);
      assert src[i + 16..] == todo[16..] == old(src[i + 16..]) && dst[n..] == old(dst[n..]);
      assert dst[..i + 16] == done + dst[i..i + 16];
      cArr, cOff, mArr, mOff := src, i, dst, i;
      i := i + 16;
    }
    assert dst[..n] == goal;
    return None;
  }
}
