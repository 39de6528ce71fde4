/** The TL wire primitives: what the encoder appends and what the decoder reads. */
module Wire {
  import opened Bytes

  const CRC_VECTOR: nat := 0x1cb5c415
  const CRC_BOOL_TRUE: nat := 0x997275b5
  const CRC_BOOL_FALSE: nat := 0xbc799737

  datatype Error = UnexpectedEOF | InvalidBool | InvalidVector | NegativeLength | LengthTooLarge
                 | InvalidPadding | WrongConstructor | UnknownConstructor

  /** The outcome of reading a value off the front of a byte string. */
  datatype Read<+T> = Ok(value: T, rest: seq<byte>) | Fail(error: Error)

  function Zeros(n: nat): (r: seq<byte>)
    ensures |r| == n
  {
    seq(n, _ => 0)
  }

  // ---- Written forms ----

  function Uint(v: nat): (r: seq<byte>) ensures |r| == 4 { LE(4, v) }
  function Int(v: int): (r: seq<byte>) ensures |r| == 4 { LE(4, ToUint32(v)) }
  function Long(v: int): (r: seq<byte>) ensures |r| == 8 { LE(8, ToUint64(v)) }
  function Bool(v: bool): (r: seq<byte>) ensures |r| == 4 { Uint(if v then CRC_BOOL_TRUE else CRC_BOOL_FALSE) }
  function VectorHeader(n: nat): (r: seq<byte>) ensures |r| == 8 { Uint(CRC_VECTOR) + Int(n) }

  function PadOf(n: nat): (p: nat)
    ensures p < 4 && (n + p) % 4 == 0
  {
    (4 - n % 4) % 4
  }

  function LengthBytes(n: nat): (r: seq<byte>)
    ensures |r| == if n <= 253 then 1 else 4
  {
    if n <= 253 then [n] else [0xfe] + LE(3, n)
  }

  /** A byte string: a length of one byte up to 253, of three bytes after 0xfe above, zero padded. */
  function ByteString(v: seq<byte>): (r: seq<byte>)
    ensures |r| % 4 == 0 && |r| >= 4
  {
    var body := LengthBytes(|v|) + v;
    body + Zeros(PadOf(|body|))
  }

  // ---- Reading ----

  function ReadUint(s: seq<byte>): (r: Read<nat>)
    ensures r.Ok? ==> r.value < TWO_32 && |r.rest| == |s| - 4
  {
    if |s| < 4 then Fail(UnexpectedEOF)
    else
      FromLEBound(s[..4]);
      Pow256Values();
      Ok(FromLE(s[..4]), s[4..])
  }

  function ReadInt(s: seq<byte>): (r: Read<int>)
    ensures r.Ok? ==> |r.rest| == |s| - 4
  {
    match ReadUint(s)
    case Ok(v, rest) => Ok(ToInt32(v), rest)
    case Fail(e) => Fail(e)
  }

  function ReadUint64(s: seq<byte>): (r: Read<nat>)
    ensures r.Ok? ==> r.value < TWO_64 && |r.rest| == |s| - 8
  {
    if |s| < 8 then Fail(UnexpectedEOF)
    else
      FromLEBound(s[..8]);
      Pow256Values();
      Ok(FromLE(s[..8]), s[8..])
  }

  function ReadLong(s: seq<byte>): (r: Read<int>)
    ensures r.Ok? ==> |r.rest| == |s| - 8
  {
    match ReadUint64(s)
    case Ok(v, rest) => Ok(ToInt64(v), rest)
    case Fail(e) => Fail(e)
  }

  function ReadBool(s: seq<byte>): (r: Read<bool>)
    ensures r.Ok? ==> |r.rest| == |s| - 4
  {
    match ReadUint(s)
    case Fail(e) => Fail(e)
    case Ok(crc, rest) =>
      if crc == CRC_BOOL_TRUE then Ok(true, rest)
      else if crc == CRC_BOOL_FALSE then Ok(false, rest)
      else Fail(InvalidBool)
  }

  function ReadRaw(s: seq<byte>, n: int): (r: Read<seq<byte>>)
    ensures r.Ok? ==> s == r.value + r.rest && |r.value| == n
  {
    if n < 0 then Fail(NegativeLength)
    else if |s| < n then Fail(UnexpectedEOF)
    else Ok(s[..n], s[n..])
  }

  /** The number with the three given little-endian bytes. */
  function Three(a: int, b: int, c: int): int { a + 256 * b + 65536 * c }

  /** Header length and data length of a byte string, from its first bytes. */
  function Framing(s: seq<byte>): (r: Option<(nat, nat)>)
  {
    if |s| < 1 then None
    else if s[0] <= 253 then Some((1, s[0]))
    else if |s| < 4 then None
    else Some((4, Three(s[1], s[2], s[3])))
  }

  function ReadBytes(s: seq<byte>): (r: Read<seq<byte>>)
    ensures r.Ok? ==> |r.rest| <= |s| - 4 && (|s| - |r.rest|) % 4 == 0
  {
    match Framing(s)
    case None => Fail(UnexpectedEOF)
    case Some((h, n)) =>
      var total := h + n + PadOf(h + n);
      if |s| < total then Fail(UnexpectedEOF)
      else if s[h + n..total] != Zeros(PadOf(h + n)) then Fail(InvalidPadding)
      else Ok(s[h..h + n], s[total..])
  }

  /** How far a vector header moves the cursor, read or refused: past the words that were there. */
  function HeaderUsed(s: seq<byte>): (n: nat)
    ensures n <= |s|
  {
    match ReadUint(s)
    case Fail(_) => 0
    case Ok(crc, rest) => if crc == CRC_VECTOR && ReadInt(rest).Ok? then 8 else 4
  }

  function ReadVectorHeader(s: seq<byte>): (r: Read<nat>)
    ensures r.Ok? ==> |r.rest| == |s| - 8 && 4 * r.value <= |r.rest|
  {
    match ReadUint(s)
    case Fail(e) => Fail(e)
    case Ok(crc, s') =>
      if crc != CRC_VECTOR then Fail(InvalidVector)
      else
        match ReadInt(s')
        case Fail(e) => Fail(e)
        case Ok(n, rest) =>
          if n < 0 then Fail(NegativeLength)
          else if n > |rest| / 4 then Fail(LengthTooLarge)
          else Ok(n, rest)
  }

  // ---- Reading undoes writing ----

  lemma UintRoundTrip(v: nat, rest: seq<byte>)
    requires v < TWO_32
    ensures ReadUint(Uint(v) + rest) == Ok(v, rest)
  {
    hide LE, FromLE;
    var s := Uint(v) + rest;
    assert s[..4] == LE(4, v) && s[4..] == rest;
    ReadBack(s[..4], 4, v);
  }

  lemma IntRoundTrip(v: int, rest: seq<byte>)
    requires -0x8000_0000 <= v < TWO_31
    ensures ReadInt(Int(v) + rest) == Ok(v, rest)
  {
    hide LE, FromLE, ReadUint;
    assert Int(v) == Uint(ToUint32(v));
    UintRoundTrip(ToUint32(v), rest);
    SignedRoundTrip(v);
  }

  lemma LongRoundTrip(v: int, rest: seq<byte>)
    requires -0x8000_0000_0000_0000 <= v < TWO_63
    ensures ReadLong(Long(v) + rest) == Ok(v, rest)
  {
    hide LE, FromLE;
    var s := Long(v) + rest;
    assert s[..8] == LE(8, ToUint64(v)) && s[8..] == rest;
    ReadBack(s[..8], 8, ToUint64(v));
    SignedRoundTrip(v);
  }

  lemma BoolRoundTrip(v: bool, rest: seq<byte>)
    ensures ReadBool(Bool(v) + rest) == Ok(v, rest)
  {
    hide LE, FromLE, ReadUint;
    UintRoundTrip(if v then CRC_BOOL_TRUE else CRC_BOOL_FALSE, rest);
  }

  lemma FramingOfLong(n: nat, rest: seq<byte>)
    ensures Framing([0xfe] + LE(3, n) + rest) == Some((4, n % 0x100_0000))
  {
    hide LE, FromLE;
    var s := [0xfe] + LE(3, n) + rest;
    var b := LE(3, n);
    assert s[1] == b[0] && s[2] == b[1] && s[3] == b[2];
    assert FromLE(b) == Three(b[0], b[1], b[2]) by { ThreeBytes(b); }
    FromLEOfLE(3, n);
    Pow256Values();
  }

  lemma ThreeBytes(b: seq<byte>)
    requires |b| == 3
    ensures FromLE(b) == Three(b[0], b[1], b[2])
  {
    assert b[1..][1..] == [b[2]];
    assert FromLE([b[2]]) == b[2];
  }

  lemma PadAfterHeader(n: nat)
    ensures PadOf(4 + n) == PadOf(n)
  {
  }

  /** The padding PutBytes works out is that of header and data together. */
  lemma PadIs(n: nat, pad: nat)
    requires pad == if n <= 253 then (4 - (1 + n) % 4) % 4 else (4 - n % 4) % 4
    ensures pad == PadOf(|LengthBytes(n)| + n)
  {
    if n > 253 {
      PadAfterHeader(n);
    }
  }

  lemma ReadFramed(s: seq<byte>, head: seq<byte>, v: seq<byte>, rest: seq<byte>)
    requires Framing(s) == Some((|head|, |v|)) && s == head + v + Zeros(PadOf(|head| + |v|)) + rest
    ensures ReadBytes(s) == Ok(v, rest)
  {
    hide PadOf, Framing;
    var h, n := |head|, |v|;
    var p := PadOf(h + n);
    assert s[h..h + n] == v && s[h + n..h + n + p] == Zeros(p) && s[h + n + p..] == rest;
  }

  lemma ReadBytesLength(s: seq<byte>)
    requires ReadBytes(s).Ok?
    ensures |ReadBytes(s).value| < 0x100_0000
  {
    hide PadOf;
  }

  /** A byte string is read back exactly when its length fits three bytes. */
  lemma ByteStringRoundTrip(v: seq<byte>, rest: seq<byte>)
    ensures ReadBytes(ByteString(v) + rest) == Ok(v, rest) <==> |v| < 0x100_0000
  {
    hide ByteString, ReadBytes;
    if |v| < 0x100_0000 {
      FittingByteString(v, rest);
    } else if ReadBytes(ByteString(v) + rest).Ok? {
      ReadBytesLength(ByteString(v) + rest);
    }
  }

  lemma FittingByteString(v: seq<byte>, rest: seq<byte>)
    requires |v| < 0x100_0000
    ensures ReadBytes(ByteString(v) + rest) == Ok(v, rest)
  {
    hide LE, PadOf, ReadBytes, Framing, Zeros;
    var n := |v|;
    var head := LengthBytes(n);
    var s := ByteString(v) + rest;
    var tail := v + Zeros(PadOf(|head| + n)) + rest;
    assert s == head + tail;
    if n <= 253 {
      FramingOfShort(n, tail);
    } else {
      FramingOfLong(n, tail);
    }
    assert s == head + v + Zeros(PadOf(|head| + n)) + rest;
    ReadFramed(s, head, v, rest);
  }

  lemma FramingOfShort(n: nat, tail: seq<byte>)
    requires n <= 253
    ensures Framing([n] + tail) == Some((1, n))
  {
  }

  /** Which accepted byte strings are in the written form: not 0xff, and not over-long. */
  lemma CanonicalByteString(s: seq<byte>)
    requires ReadBytes(s).Ok?
    ensures var Ok(v, rest) := ReadBytes(s);
      ByteString(v) + rest == s <==> s[0] <= 253 || (s[0] == 0xfe && |v| >= 254)
  {
    hide ReadBytes, Framing, LengthBytes, Zeros, PadOf;
    BytesParts(s);
    var Ok(v, rest) := ReadBytes(s);
    var Some((h, n)) := Framing(s);
    HeaderCanonical(s);
    var pad := Zeros(PadOf(h + n));
    if LengthBytes(n) == s[..h] {
      assert ByteString(v) == s[..h] + v + pad;
    } else {
      assert (ByteString(v) + rest)[0] == LengthBytes(n)[0];
    }
  }

  lemma BytesParts(s: seq<byte>)
    requires ReadBytes(s).Ok?
    ensures Framing(s).Some?
    ensures var Ok(v, rest) := ReadBytes(s); var Some((h, n)) := Framing(s);
      h <= |s| && |v| == n && s == s[..h] + v + Zeros(PadOf(h + n)) + rest
  {
    hide Framing, PadOf, Zeros;
  }

  lemma HeaderCanonical(s: seq<byte>)
    requires Framing(s).Some? && Framing(s).value.0 <= |s|
    ensures var Some((h, n)) := Framing(s);
      if s[0] <= 253 || (s[0] == 0xfe && n >= 254) then LengthBytes(n) == s[..h] else LengthBytes(n)[0] != s[0]
  {
    hide LE, FromLE;
    var Some((h, n)) := Framing(s);
    if s[0] <= 253 {
      assert s[..1] == [s[0]];
    } else if s[0] == 0xfe && n >= 254 {
      var b := s[1..4];
      ThreeBytes(b);
      LEOfFromLE(b);
      assert s[..4] == [0xfe] + b;
    }
  }

  // ---- Nothing else is read ----

  lemma UintWritten(s: seq<byte>)
    requires ReadUint(s).Ok?
    ensures var Ok(v, rest) := ReadUint(s); s == Uint(v) + rest
  {
    hide LE, FromLE;
    LEOfFromLE(s[..4]);
    assert s == s[..4] + s[4..];
  }

  lemma IntWritten(s: seq<byte>)
    requires ReadInt(s).Ok?
    ensures var Ok(v, rest) := ReadInt(s); -0x8000_0000 <= v < 0x8000_0000 && s == Int(v) + rest
  {
    hide LE, FromLE;
    UintWritten(s);
    UnsignedRoundTrip(ReadUint(s).value);
  }

  lemma LongWritten(s: seq<byte>)
    requires ReadLong(s).Ok?
    ensures var Ok(v, rest) := ReadLong(s);
      -0x8000_0000_0000_0000 <= v < 0x8000_0000_0000_0000 && s == Long(v) + rest
  {
    hide LE, FromLE;
    LEOfFromLE(s[..8]);
    FromLEBound(s[..8]);
    Pow256Values();
    UnsignedRoundTrip(FromLE(s[..8]));
    assert s == s[..8] + s[8..];
  }

  /** A boolean is one of two words, and every other word is refused. */
  lemma BoolIff(s: seq<byte>, on: bool, rest: seq<byte>)
    ensures ReadBool(s) == Ok(on, rest) <==> s == LE(4, if on then 0x997275b5 else 0xbc799737) + rest
    ensures ReadBool(s).Fail? <==>
      |s| < 4 || (s[..4] != LE(4, 0x997275b5) && s[..4] != LE(4, 0xbc799737))
  {
    hide LE, FromLE;
    if s == LE(4, if on then 0x997275b5 else 0xbc799737) + rest {
      BoolRoundTrip(on, rest);
    }
    if |s| >= 4 {
      UintWritten(s);
      assert s[..4] == Uint(ReadUint(s).value);
      UintRoundTrip(0x997275b5, s[4..]);
      UintRoundTrip(0xbc799737, s[4..]);
      assert s == s[..4] + s[4..];
    }
  }

  /** A vector header is the vector constructor and a count, and why anything else is refused. */
  lemma VectorHeaderIff(s: seq<byte>, n: nat, rest: seq<byte>)
    ensures ReadVectorHeader(s) == Ok(n, rest) <==>
      n < 0x8000_0000 && s == LE(4, 0x1cb5c415) + LE(4, n) + rest && 4 * n <= |rest|
  {
    hide LE, FromLE;
    if ReadVectorHeader(s) == Ok(n, rest) {
      UintWritten(s);
      IntWritten(ReadUint(s).rest);
      assert s == LE(4, 0x1cb5c415) + (LE(4, n) + rest);
    }
    if n < 0x8000_0000 && s == LE(4, 0x1cb5c415) + LE(4, n) + rest {
      assert s == VectorHeader(n) + rest;
      VectorHeaderRoundTrip(n, rest);
    }
  }

  lemma VectorHeaderErrors(crc: nat, count: int, rest: seq<byte>)
    requires crc < TWO_32 && -0x8000_0000 <= count < 0x8000_0000
    ensures var r := ReadVectorHeader(LE(4, crc) + (LE(4, ToUint32(count)) + rest));
      && (crc != 0x1cb5c415 ==> r == Fail(InvalidVector))
      && (crc == 0x1cb5c415 && count < 0 ==> r == Fail(NegativeLength))
      && (crc == 0x1cb5c415 && count >= 0 && 4 * count > |rest| ==> r == Fail(LengthTooLarge))
  {
    hide LE, FromLE, ReadUint, ReadInt;
    UintRoundTrip(crc, LE(4, ToUint32(count)) + rest);
    IntRoundTrip(count, rest);
  }

  /** A byte string whose padding is not zero is refused as such, and one that breaks off as cut. */
  lemma ByteStringErrors(v: seq<byte>, pad: seq<byte>, rest: seq<byte>, k: nat)
    requires |v| <= 253 && |pad| == PadOf(1 + |v|)
    ensures pad != Zeros(|pad|) ==> ReadBytes([|v|] + v + pad + rest) == Fail(InvalidPadding)
    ensures k < 1 + |v| + |pad| ==> ReadBytes(([|v|] + v + pad)[..k]) == Fail(UnexpectedEOF)
  {
    hide PadOf, Zeros;
    var s := [|v|] + v + pad + rest;
    var n := 1 + |v|;
    assert s[0] == |v| && s[n..n + |pad|] == pad;
    if k < n + |pad| {
      var t := ([|v|] + v + pad)[..k];
      assert k > 0 ==> t[0] == |v|;
    }
  }

  /** Raw bytes are read exactly if there are as many, and a negative number of them never. */
  lemma RawIff(s: seq<byte>, n: int)
    ensures ReadRaw(s, n).Ok? <==> 0 <= n <= |s|
    ensures n < 0 ==> ReadRaw(s, n) == Fail(NegativeLength)
    ensures n > |s| ==> ReadRaw(s, n) == Fail(UnexpectedEOF)
  {
  }

  lemma ReadBytesUses(s: seq<byte>)
    requires ReadBytes(s).Ok?
    ensures |ReadBytes(s).rest| <= |s| - 4
  {
  }

  /** A vector header is read back exactly when enough bytes follow for 4 per element. */
  lemma VectorHeaderRoundTrip(n: nat, rest: seq<byte>)
    requires n < TWO_31
    ensures ReadVectorHeader(VectorHeader(n) + rest) == Ok(n, rest) <==> 4 * n <= |rest|
  {
    hide LE, FromLE, ReadUint, ReadInt;
    assert VectorHeader(n) + rest == Uint(CRC_VECTOR) + (Int(n) + rest);
    UintRoundTrip(CRC_VECTOR, Int(n) + rest);
    IntRoundTrip(n, rest);
  }

  // ---- The encoder and the decoder ----

  class Encoder {
    var buf: seq<byte>

    constructor ()
      ensures buf == []
    {
      buf := [];
    }

    method PutUint(v: nat)
      modifies this
      ensures buf == old(buf) + Uint(v)
    {
      buf := buf + LE(4, v);
    }

    method PutInt(v: int)
      modifies this
      ensures buf == old(buf) + Int(v)
    {
      PutUint(ToUint32(v));
    }

    method PutLong(v: int)
      modifies this
      ensures buf == old(buf) + Long(v)
    {
      buf := buf + LE(8, ToUint64(v));
    }

    method PutRaw(v: seq<byte>)
      modifies this
      ensures buf == old(buf) + v
    {
      buf := buf + v;
    }

    method PutBytes(v: seq<byte>)
      modifies this
      ensures buf == old(buf) + ByteString(v)
    {
      hide LengthBytes, PadOf, Zeros;
      var n := |v|;
      ghost var start := buf;
      PutLength(n);
      buf := buf + v;
      var pad := if n <= 253 then (4 - (1 + n) % 4) % 4 else (4 - n % 4) % 4;
      PadIs(n, pad);
      ghost var body := LengthBytes(n) + v;
      assert buf == start + body;
      if pad > 0 {
        buf := buf + Zeros(pad);
      }
      assert buf == start + (body + Zeros(pad));
    }

    /** The length in front of a byte string. */
    method PutLength(n: nat)
      modifies this
      ensures buf == old(buf) + LengthBytes(n)
    {
      if n <= 253 {
        buf := buf + [n];
      } else {
        var hdr: seq<byte> := [0xfe, n % 256, n / 256 % 256, n / 65536 % 256];
        assert LE(3, n) == [n % 256] + LE(2, n / 256);
        assert LE(2, n / 256) == [n / 256 % 256] + LE(1, n / 256 / 256);
        assert LE(1, n / 256 / 256) == [n / 256 / 256 % 256];
        assert hdr == [0xfe] + LE(3, n);
        buf := buf + hdr;
      }
    }

    method PutVectorHeader(n: nat)
      modifies this
      ensures buf == old(buf) + VectorHeader(n)
    {
      PutUint(CRC_VECTOR);
      PutInt(n);
    }
  }

  datatype Result<+T> = Success(value: T) | Failure(error: Error)

  class Decoder {
    var buf: seq<byte>
    var pos: nat

    ghost predicate Valid() reads this { pos <= |buf| }

    function Rest(): (r: seq<byte>)
      reads this
      requires Valid()
    {
      buf[pos..]
    }

    constructor (data: seq<byte>)
      ensures Valid() && buf == data && Rest() == data
    {
      buf, pos := data, 0;
    }

    method Skip(n: int) returns (r: Result<()>)
      requires Valid()
      modifies this`pos
      ensures Valid() && (r.Success? <==> 0 <= n <= |old(Rest())|)
      ensures Rest() == if r.Success? then old(Rest())[n..] else old(Rest())
    {
      if n < 0 || |buf| - pos < n {
        return Failure(UnexpectedEOF);
      }
      pos := pos + n;
      return Success(());
    }

    method PeekUint() returns (r: Result<nat>)
      requires Valid()
      ensures match ReadUint(Rest())
              case Ok(v, _) => r == Success(v)
              case Fail(e) => r == Failure(e)
    {
      if |buf| - pos < 4 {
        return Failure(UnexpectedEOF);
      }
      assert Rest()[..4] == buf[pos..pos + 4];
      r := Success(FromLE(buf[pos..pos + 4]));
    }

    /** A failed fixed-width read leaves the cursor in place. */
    method Uint() returns (r: Result<nat>)
      requires Valid()
      modifies this`pos
      ensures Valid()
      ensures match ReadUint(old(Rest()))
              case Ok(v, rest) => r == Success(v) && Rest() == rest
              case Fail(e) => r == Failure(e) && pos == old(pos)
    {
      if |buf| - pos < 4 {
        return Failure(UnexpectedEOF);
      }
      assert Rest()[..4] == buf[pos..pos + 4];
      r := Success(FromLE(buf[pos..pos + 4]));
      pos := pos + 4;
    }

    method Int() returns (r: Result<int>)
      requires Valid()
      modifies this`pos
      ensures Valid()
      ensures match ReadInt(old(Rest()))
              case Ok(v, rest) => r == Success(v) && Rest() == rest
              case Fail(e) => r == Failure(e) && pos == old(pos)
    {
      var u := Uint();
      match u
      case Success(v) => r := Success(ToInt32(v));
      case Failure(e) => r := Failure(e);
    }

    method Long() returns (r: Result<int>)
      requires Valid()
      modifies this`pos
      ensures Valid()
      ensures match ReadLong(old(Rest()))
              case Ok(v, rest) => r == Success(v) && Rest() == rest
              case Fail(e) => r == Failure(e) && pos == old(pos)
    {
      if |buf| - pos < 8 {
        return Failure(UnexpectedEOF);
      }
      assert Rest()[..8] == buf[pos..pos + 8];
      r := Success(ToInt64(FromLE(buf[pos..pos + 8])));
      pos := pos + 8;
    }

    /** An unknown boolean constructor is consumed before it is refused. */
    method Bool() returns (r: Result<bool>)
      requires Valid()
      modifies this`pos
      ensures Valid()
      ensures match ReadBool(old(Rest()))
              case Ok(v, rest) => r == Success(v) && Rest() == rest
              case Fail(e) => r == Failure(e) && pos == old(pos) + if e == InvalidBool then 4 else 0
    {
      var u := Uint();
      match u
      case Failure(e) =>
        r := Failure(e);
      case Success(crc) =>
        r := if crc == CRC_BOOL_TRUE then Success(true)
             else if crc == CRC_BOOL_FALSE then Success(false)
             else Failure(InvalidBool);
    }

    /** Int128 and Int256 are Raw(16) and Raw(32). */
    method Raw(n: int) returns (r: Result<seq<byte>>)
      requires Valid()
      modifies this`pos
      ensures Valid()
      ensures match ReadRaw(old(Rest()), n)
              case Ok(v, rest) => r == Success(v) && Rest() == rest
              case Fail(e) => r == Failure(e) && pos == old(pos)
    {
      if n < 0 {
        return Failure(NegativeLength);
      }
      if |buf| - pos < n {
        return Failure(UnexpectedEOF);
      }
      assert Rest()[..n] == buf[pos..pos + n];
      r := Success(buf[pos..pos + n]);
      pos := pos + n;
    }

    /** Header, data and padding lengths of the byte string at the cursor. */
    method FrameAt() returns (r: Option<(nat, nat, nat)>)
      requires Valid()
      ensures match Framing(Rest())
              case None => r == None
              case Some((h, n)) => r == Some((h, n, PadOf(h + n)))
    {
      var remaining := |buf| - pos;
      if remaining < 1 {
        return None;
      }
      var first := buf[pos];
      if first <= 253 {
        r := Some((1, first, (4 - (1 + first) % 4) % 4));
      } else if remaining < 4 {
        r := None;
      } else {
        var length := Three(buf[pos + 1], buf[pos + 2], buf[pos + 3]);
        PadAfterHeader(length);
        r := Some((4, length, (4 - length % 4) % 4));
      }
    }

    /** Whether the padding at a position is zero. */
    method AllZero(start: nat, pad: nat) returns (ok: bool)
      requires start + pad <= |buf|
      ensures ok <==> buf[start..start + pad] == Zeros(pad)
    {
      for i := 0 to pad
        invariant buf[start..start + i] == Zeros(i)
      {
        if buf[start + i] != 0 {
          assert buf[start..start + pad][i] != Zeros(pad)[i];
          return false;
        }
        assert buf[start..start + i + 1] == buf[start..start + i] + [0];
      }
      ok := true;
    }

    /** readBytesView, on which Bytes and String rest. A failed read leaves the cursor in place. */
    method Bytes() returns (r: Result<seq<byte>>)
      requires Valid()
      modifies this`pos
      ensures Valid()
      ensures match ReadBytes(old(Rest()))
              case Ok(v, rest) => r == Success(v) && Rest() == rest
              case Fail(e) => r == Failure(e) && pos == old(pos)
    {
      hide Framing, PadOf;
      var remaining := |buf| - pos;
      ghost var s := Rest();
      var frame := FrameAt();
      if frame.None? {
        return Failure(UnexpectedEOF);
      }
      var (headerLen, length, pad) := frame.value;
      var total := headerLen + length + pad;
      if remaining < total {
        return Failure(UnexpectedEOF);
      }
      var padStart := pos + headerLen + length;
      assert s[headerLen + length..total] == buf[padStart..padStart + pad];
      var zero := AllZero(padStart, pad);
      if !zero {
        return Failure(InvalidPadding);
      }
      var dataStart := pos + headerLen;
      assert s[headerLen..headerLen + length] == buf[dataStart..dataStart + length];
      r := Success(buf[dataStart..dataStart + length]);
      pos := pos + total;
    }

    method VectorHeader() returns (r: Result<nat>)
      requires Valid()
      modifies this`pos
      ensures Valid()
      ensures match ReadVectorHeader(old(Rest()))
              case Ok(n, rest) => r == Success(n) && Rest() == rest
              case Fail(e) => r == Failure(e)
      ensures pos == old(pos) + HeaderUsed(old(Rest()))
    {
      var u := Uint();
      if u.Failure? {
        return u;
      }
      if u.value != CRC_VECTOR {
        return Failure(InvalidVector);
      }
      var n := Int();
      if n.Failure? {
        return Failure(n.error);
      }
      if n.value < 0 {
        return Failure(NegativeLength);
      }
      if n.value > (|buf| - pos) / 4 {
        return Failure(LengthTooLarge);
      }
      return Success(n.value);
    }
  }
}
