/** The four stream framings of the MTProto TCP transports. */
module Transport {
  import opened Bytes
  import E = Envelope

  const MAX_PACKET: nat := 16 * 1024 * 1024

  datatype Error = InvalidLength | CrcMismatch | StreamEnd

  /** What reading one frame off a stream gives: a packet or an error, and the stream after it. */
  datatype Packet = Packet(payload: seq<byte>, rest: seq<byte>) | Broken(error: Error, rest: seq<byte>)

  datatype Codec = Abridged | Intermediate | Padded | Full

  /** The checksum of the full transport: some function to 32-bit words. */
  type Crc = seq<byte> -> nat

  ghost predicate IsCrc(crc: Crc) { forall s :: crc(s) < TWO_32 }

  // ---- Frames ----

  function AbridgedFrame(p: seq<byte>): (r: seq<byte>)
  {
    var n := |p| / 4;
    (if n < 127 then [n] else [0x7f] + LE(3, n)) + p
  }

  function LengthFrame(p: seq<byte>): (r: seq<byte>) { LE(4, |p|) + p }

  function FullBody(seqNo: nat, p: seq<byte>): (r: seq<byte>) { LE(4, |p| + 12) + LE(4, seqNo) + p }

  function FullFrame(crc: Crc, seqNo: nat, p: seq<byte>): (r: seq<byte>)
  {
    FullBody(seqNo, p) + LE(4, crc(FullBody(seqNo, p)))
  }

  /** The frame a codec writes for payload p: with its sequence number, or with random pad bytes. */
  function Frame(c: Codec, crc: Crc, seqNo: nat, p: seq<byte>, pad: seq<byte>): (r: seq<byte>)
  {
    match c
    case Abridged => AbridgedFrame(p)
    case Intermediate => LengthFrame(p)
    case Padded => LengthFrame(p + pad)
    case Full => FullFrame(crc, seqNo, p)
  }

  // ---- Reading ----

  /** The next n bytes, once their count has been accepted. */
  function TakePacket(n: nat, s: seq<byte>): (r: Packet)
  {
    if n <= 0 || n > MAX_PACKET then Broken(InvalidLength, s)
    else if |s| < n then Broken(StreamEnd, [])
    else Packet(s[..n], s[n..])
  }

  function ReadAbridged(s: seq<byte>): (r: Packet)
  {
    if |s| < 1 then Broken(StreamEnd, [])
    else if s[0] < 0x7f then TakePacket(4 * (s[0] as int), s[1..])
    else if |s| < 4 then Broken(StreamEnd, [])
    else TakePacket(4 * FromLE(s[1..4]), s[4..])
  }

  function ReadLength(s: seq<byte>): (r: Packet)
  {
    if |s| < 4 then Broken(StreamEnd, []) else TakePacket(FromLE(s[..4]), s[4..])
  }

  function ReadFull(crc: Crc, s: seq<byte>): (r: Packet)
  {
    if |s| < 4 then Broken(StreamEnd, [])
    else
      var n := FromLE(s[..4]);
      if n < 12 || n > MAX_PACKET then Broken(InvalidLength, s[4..])
      else if |s| < n then Broken(StreamEnd, [])
      else if FromLE(s[n - 4..n]) != crc(s[..n - 4]) then Broken(CrcMismatch, s[n..])
      else Packet(s[8..n - 4], s[n..])
  }

  function ReadFrame(c: Codec, crc: Crc, s: seq<byte>): (r: Packet)
  {
    match c
    case Abridged => ReadAbridged(s)
    case Intermediate => ReadLength(s)
    case Padded => ReadLength(s)
    case Full => ReadFull(crc, s)
  }

  /** The payloads a codec can carry. */
  predicate InBounds(c: Codec, p: seq<byte>, pad: seq<byte>)
  {
    match c
    case Abridged => |p| % 4 == 0 && 0 < |p| <= 0x100_0000
    case Intermediate => 0 < |p| <= 0x100_0000
    case Padded => |pad| <= 15 && 0 < |p + pad| <= 0x100_0000
    case Full => |p| + 12 <= 0x100_0000
  }

  /** What the reader gets: for the padded codec the pad bytes are still there. */
  function Delivered(c: Codec, p: seq<byte>, pad: seq<byte>): seq<byte>
  {
    if c == Padded then p + pad else p
  }

  /** Where the frames have their fields, as the transports' pages lay them out. */
  lemma FrameLayout(crc: Crc, seqNo: nat, p: seq<byte>, pad: seq<byte>)
    ensures var f := Frame(Abridged, crc, seqNo, p, pad);
      if |p| / 4 < 127 then f == [|p| / 4] + p else f[0] == 0x7f && f[1..4] == LE(3, |p| / 4) && f[4..] == p
    ensures Frame(Intermediate, crc, seqNo, p, pad) == LE(4, |p|) + p
    ensures Frame(Padded, crc, seqNo, p, pad) == LE(4, |p| + |pad|) + p + pad
    ensures var f := Frame(Full, crc, seqNo, p, pad); var n := |p| + 12;
      && |f| == n && f[..4] == LE(4, n) && f[4..8] == LE(4, seqNo) && f[8..n - 4] == p
      && f[n - 4..] == LE(4, crc(f[..n - 4]))
  {
    hide LE;
    assert LE(4, |p + pad|) + (p + pad) == LE(4, |p| + |pad|) + p + pad;
    var f, n := FullFrame(crc, seqNo, p), |p| + 12;
    assert f[..n - 4] == FullBody(seqNo, p);
  }

  // ---- Reading undoes writing ----

  lemma ReadTaken(p: seq<byte>, rest: seq<byte>)
    ensures TakePacket(|p|, p + rest) == Packet(p, rest) <==> 0 < |p| <= MAX_PACKET
  {
    assert (p + rest)[..|p|] == p && (p + rest)[|p|..] == rest;
  }

  lemma AbridgedRoundTrip(p: seq<byte>, rest: seq<byte>)
    requires |p| % 4 == 0 && 0 < |p| <= MAX_PACKET
    ensures ReadAbridged(AbridgedFrame(p) + rest) == Packet(p, rest)
  {
    hide LE, FromLE, TakePacket;
    var n := |p| / 4;
    var s := AbridgedFrame(p) + rest;
    ReadTaken(p, rest);
    if n < 127 {
      assert s == [n] + (p + rest);
    } else {
      var head := [0x7f] + LE(3, n);
      assert s == head + (p + rest);
      assert s[1..4] == LE(3, n);
      LengthField(n);
      assert s[4..] == p + rest;
    }
  }

  lemma LengthField(n: nat)
    requires n < 0x100_0000
    ensures FromLE(LE(3, n)) == n
  {
    FromLEOfLE(3, n);
    Pow256Values();
  }

  lemma LengthRoundTrip(p: seq<byte>, rest: seq<byte>)
    requires 0 < |p| <= MAX_PACKET
    ensures ReadLength(LengthFrame(p) + rest) == Packet(p, rest)
  {
    hide LE, FromLE;
    var s := LengthFrame(p) + rest;
    assert s[..4] == LE(4, |p|) && s[4..] == p + rest;
    ReadBack(s[..4], 4, |p|);
    ReadTaken(p, rest);
  }

  lemma FullRoundTrip(crc: Crc, seqNo: nat, p: seq<byte>, rest: seq<byte>)
    requires IsCrc(crc) && |p| + 12 <= MAX_PACKET
    ensures ReadFull(crc, FullFrame(crc, seqNo, p) + rest) == Packet(p, rest)
  {
    hide LE, FromLE;
    var body := FullBody(seqNo, p);
    var n := |p| + 12;
    var s := FullFrame(crc, seqNo, p) + rest;
    assert s[..4] == LE(4, n) && s[..n - 4] == body && s[8..n - 4] == p && s[n..] == rest;
    assert s[n - 4..n] == LE(4, crc(body));
    ReadBack(s[..4], 4, n);
    ReadBack(s[n - 4..n], 4, crc(body));
  }

  /** One frame followed by anything is read back, and exactly the rest of the stream is left. */
  lemma FrameRoundTrip(c: Codec, crc: Crc, seqNo: nat, p: seq<byte>, pad: seq<byte>, rest: seq<byte>)
    requires IsCrc(crc) && InBounds(c, p, pad)
    ensures ReadFrame(c, crc, Frame(c, crc, seqNo, p, pad) + rest) == Packet(Delivered(c, p, pad), rest)
  {
    hide ReadAbridged, ReadLength, ReadFull, AbridgedFrame, LengthFrame, FullFrame;
    match c
    case Abridged => AbridgedRoundTrip(p, rest);
    case Intermediate => LengthRoundTrip(p, rest);
    case Padded => LengthRoundTrip(p + pad, rest);
    case Full => FullRoundTrip(crc, seqNo, p, rest);
  }

  /** Outside the bounds no codec returns the packet: the bounds are exact. */
  lemma OnlyInBounds(c: Codec, crc: Crc, seqNo: nat, p: seq<byte>, pad: seq<byte>, rest: seq<byte>)
    requires IsCrc(crc) && |pad| <= 15 && (c == Abridged ==> |p| % 4 == 0)
    ensures ReadFrame(c, crc, Frame(c, crc, seqNo, p, pad) + rest) == Packet(Delivered(c, p, pad), rest)
       <==> InBounds(c, p, pad)
  {
    if InBounds(c, p, pad) {
      hide *;
      FrameRoundTrip(c, crc, seqNo, p, pad, rest);
    } else if ReadFrame(c, crc, Frame(c, crc, seqNo, p, pad) + rest).Packet? {
      hide Frame, ReadFrame;
      ReadBounds(c, crc, Frame(c, crc, seqNo, p, pad) + rest);
    }
  }

  lemma ReadBounds(c: Codec, crc: Crc, s: seq<byte>)
    requires ReadFrame(c, crc, s).Packet?
    ensures var n := |ReadFrame(c, crc, s).payload|;
      if c == Full then n + 12 <= MAX_PACKET else 0 < n <= MAX_PACKET
  {
    hide FromLE;
  }

  /** A full frame with a wrong checksum is refused as such, and only the frame is used up. */
  lemma WrongChecksum(crc: Crc, seqNo: nat, p: seq<byte>, sum: nat, rest: seq<byte>)
    requires |p| + 12 <= 0x100_0000 && sum < TWO_32 && sum != crc(FullBody(seqNo, p))
    ensures ReadFrame(Full, crc, FullBody(seqNo, p) + LE(4, sum) + rest) == Broken(CrcMismatch, rest)
  {
    hide LE, FromLE;
    var body, n := FullBody(seqNo, p), |p| + 12;
    var s := body + LE(4, sum) + rest;
    assert s[..4] == LE(4, n) && s[..n - 4] == body && s[n - 4..n] == LE(4, sum) && s[n..] == rest;
    ReadBack(s[..4], 4, n);
    ReadBack(s[n - 4..n], 4, sum);
  }

  /** A length that no packet may have is refused after it was read; a frame that breaks off uses up the stream. */
  lemma WrongLength(crc: Crc, n: nat, rest: seq<byte>)
    requires n < TWO_32
    ensures n == 0 || n > 0x100_0000 ==>
      && ReadFrame(Intermediate, crc, LE(4, n) + rest) == Broken(InvalidLength, rest)
      && ReadFrame(Padded, crc, LE(4, n) + rest) == Broken(InvalidLength, rest)
    ensures n < 12 || n > 0x100_0000 ==> ReadFrame(Full, crc, LE(4, n) + rest) == Broken(InvalidLength, rest)
    ensures 0 < n <= 0x100_0000 && |rest| < n ==> ReadFrame(Intermediate, crc, LE(4, n) + rest) == Broken(StreamEnd, [])
    ensures 12 <= n <= 0x100_0000 && |rest| < n - 4 ==> ReadFrame(Full, crc, LE(4, n) + rest) == Broken(StreamEnd, [])
  {
    hide LE, FromLE;
    var s := LE(4, n) + rest;
    assert s[..4] == LE(4, n) && s[4..] == rest;
    ReadBack(s[..4], 4, n);
  }

  /** A packet as sent: payload and, for the padded codec, pad bytes. */
  datatype Sent = Sent(payload: seq<byte>, pad: seq<byte>)

  function Stream(c: Codec, crc: Crc, seqNo: nat, ps: seq<Sent>): (r: seq<byte>)
    decreases |ps|
  {
    if |ps| == 0 then []
    else Frame(c, crc, seqNo, ps[0].payload, ps[0].pad) + Stream(c, crc, (seqNo + 1) % TWO_32, ps[1..])
  }

  function DeliveredAll(c: Codec, ps: seq<Sent>): (r: seq<seq<byte>>)
    ensures |r| == |ps| && forall i :: 0 <= i < |ps| ==> r[i] == Delivered(c, ps[i].payload, ps[i].pad)
  {
    if |ps| == 0 then [] else [Delivered(c, ps[0].payload, ps[0].pad)] + DeliveredAll(c, ps[1..])
  }

  /** n frames in a row; None if one of them cannot be read. */
  function ReadMany(c: Codec, crc: Crc, n: nat, s: seq<byte>): (r: Option<(seq<seq<byte>>, seq<byte>)>)
    decreases n
  {
    if n == 0 then Some(([], s))
    else
      match ReadFrame(c, crc, s)
      case Broken(_, _) => None
      case Packet(p, s') =>
        match ReadMany(c, crc, n - 1, s')
        case None => None
        case Some((ps, rest)) => Some(([p] + ps, rest))
  }

  /** Reading the concatenated frames of any list of payloads returns the list and leaves the rest. */
  lemma {:induction false} StreamRoundTrip(c: Codec, crc: Crc, seqNo: nat, ps: seq<Sent>, rest: seq<byte>)
    requires IsCrc(crc) && forall i :: 0 <= i < |ps| ==> InBounds(c, ps[i].payload, ps[i].pad)
    ensures ReadMany(c, crc, |ps|, Stream(c, crc, seqNo, ps) + rest)
         == Some((DeliveredAll(c, ps), rest))
    decreases |ps|
  {
    hide ReadFrame, Frame, Delivered, InBounds;
    if |ps| == 0 {
      assert [] + rest == rest;
    } else {
      var next := (seqNo + 1) % TWO_32;
      var head := Frame(c, crc, seqNo, ps[0].payload, ps[0].pad);
      var tail := Stream(c, crc, next, ps[1..]);
      assert Stream(c, crc, seqNo, ps) + rest == head + (tail + rest);
      FrameRoundTrip(c, crc, seqNo, ps[0].payload, ps[0].pad, tail + rest);
      StreamRoundTrip(c, crc, next, ps[1..], rest);
    }
  }

  // ---- Padded frames and the envelope ----

  /** The pad bytes of a padded frame do not disturb a plaintext message. */
  lemma PaddedPlaintext(crc: Crc, msgId: int, payload: seq<byte>, pad: seq<byte>, rest: seq<byte>)
    requires E.Int64(msgId) && |pad| <= 15 && 20 + |payload| + |pad| <= MAX_PACKET
    ensures var r := ReadFrame(Padded, crc, Frame(Padded, crc, 0, E.PackedUnencrypted(msgId, payload), pad) + rest);
      r.Packet? && r.rest == rest && E.UnpackUnencrypted(r.payload) == E.PlainOk(msgId, payload)
  {
    hide E.UnpackUnencrypted, E.PackedUnencrypted, LengthFrame, ReadLength;
    LengthRoundTrip(E.PackedUnencrypted(msgId, payload) + pad, rest);
    E.UnpackPackedUnencrypted(msgId, payload, pad);
  }

  /** But an encrypted packet survives padded framing only when no pad byte was drawn. */
  lemma PaddedEncrypted(u: E.Suite, role: E.Role, session: int, inPlace: bool, inner: seq<byte>, pad: seq<byte>,
                        crc: Crc, rest: seq<byte>)
    requires u.Valid() && 32 <= |inner| && |inner| % 16 == 0 && |pad| <= 15 && 24 + |inner| + |pad| <= MAX_PACKET
    ensures var r := ReadFrame(Padded, crc, Frame(Padded, crc, 0, E.Sealed(u, role, inPlace, inner), pad) + rest);
      && r.Packet? && r.rest == rest
      && (E.Unpacked(u, role, session, r.payload) == E.OpenErr(E.PacketTooShort) <==> pad != [])
  {
    hide E.Unpacked, E.Sealed, LengthFrame, ReadLength;
    LengthRoundTrip(E.Sealed(u, role, inPlace, inner) + pad, rest);
    E.PaddedSealedRejected(u, role, session, inPlace, inner, pad);
  }

  // ---- The methods on a stream ----

  class Pipe {
    var data: seq<byte>

    method Write(b: seq<byte>)
      modifies this
      ensures data == old(data) + b
    {
      data := data + b;
    }

    /** io.ReadFull: n bytes or the end of the stream; a short read consumes what there was. */
    method ReadFull(n: nat) returns (r: Option<seq<byte>>)
      modifies this
      ensures |old(data)| >= n ==> r == Some(old(data)[..n]) && data == old(data)[n..]
      ensures |old(data)| < n ==> r == None && data == []
    {
      if |data| < n {
        data := [];
        return None;
      }
      r := Some(data[..n]);
      data := data[n..];
    }
  }

  method WriteAbridged(w: Pipe, p: seq<byte>) returns (err: Option<Error>)
    modifies w
    ensures err == Some(InvalidLength) <==> |p| % 4 != 0
    ensures err.Some? ==> w.data == old(w.data)
    ensures err.None? ==> w.data == old(w.data) + AbridgedFrame(p)
  {
    if |p| % 4 != 0 {
      return Some(InvalidLength);
    }
    var len4 := |p| / 4;
    ghost var start := w.data;
    if len4 < 127 {
      w.Write([len4]);
    } else {
      w.Write([0x7f] + LE(3, len4));
    }
    w.Write(p);
    assert w.data == start + AbridgedFrame(p);
    return None;
  }

  method ReadPacketAbridged(r: Pipe) returns (out: Packet)
    modifies r
    ensures out == ReadAbridged(old(r.data)) && r.data == out.rest
  {
    var first := r.ReadFull(1);
    if first == None {
      return Broken(StreamEnd, r.data);
    }
    var length: nat;
    if first.value[0] < 0x7f {
      length := 4 * (first.value[0] as int);
    } else {
      var lenBytes := r.ReadFull(3);
      if lenBytes == None {
        return Broken(StreamEnd, r.data);
      }
      assert old(r.data)[1..][..3] == old(r.data)[1..4] && old(r.data)[1..][3..] == old(r.data)[4..];
      length := 4 * FromLE(lenBytes.value);
    }
    out := FinishRead(r, length);
  }

  method FinishRead(r: Pipe, length: nat) returns (out: Packet)
    modifies r
    ensures out == TakePacket(length, old(r.data)) && r.data == out.rest
  {
    if length <= 0 || length > MAX_PACKET {
      return Broken(InvalidLength, r.data);
    }
    var body := r.ReadFull(length);
    if body == None {
      return Broken(StreamEnd, r.data);
    }
    out := Packet(body.value, r.data);
  }

  method WriteIntermediate(w: Pipe, p: seq<byte>)
    modifies w
    ensures w.data == old(w.data) + LengthFrame(p)
  {
    w.Write(LE(4, |p|));
    w.Write(p);
  }

  /** Intermediate and padded frames are read alike. */
  method ReadPacketLength(r: Pipe) returns (out: Packet)
    modifies r
    ensures out == ReadLength(old(r.data)) && r.data == out.rest
  {
    var lenBuf := r.ReadFull(4);
    if lenBuf == None {
      return Broken(StreamEnd, r.data);
    }
    out := FinishRead(r, FromLE(lenBuf.value));
  }

  /** Padded frames: `random` is the drawn pad count byte and `pad` the drawn bytes. */
  method WritePadded(w: Pipe, p: seq<byte>, random: byte, pad: seq<byte>)
    requires |pad| == random % 16
    modifies w
    ensures w.data == old(w.data) + LengthFrame(p + pad)
  {
    var padLen := random % 16;
    w.Write(LE(4, |p| + padLen));
    w.Write(p);
    if padLen > 0 {
      w.Write(pad);
    }
    assert p + pad == if padLen > 0 then p + pad else p;
  }

  class FullCodec {
    const crc: Crc
    var sendSeq: nat
    var recvSeq: nat

    constructor (crc: Crc)
      ensures this.crc == crc && sendSeq == 0 && recvSeq == 0
    {
      this.crc := crc;
      sendSeq, recvSeq := 0, 0;
    }

    /** Each packet carries the next 32-bit sequence number. */
    method WritePacket(w: Pipe, p: seq<byte>)
      modifies w, this`sendSeq
      ensures sendSeq == (old(sendSeq) + 1) % TWO_32
      ensures w.data == old(w.data) + FullFrame(crc, old(sendSeq), p)
    {
      var seqNo := sendSeq;
      sendSeq := (sendSeq + 1) % TWO_32;
      var body := LE(4, |p| + 12) + LE(4, seqNo) + p;
      w.Write(body + LE(4, crc(body)));
    }

    /** The sequence number of a received packet is counted, but not compared. */
    method ReadPacket(r: Pipe) returns (out: Packet)
      modifies r, this`recvSeq
      ensures out == ReadFull(crc, old(r.data)) && r.data == out.rest
      ensures recvSeq == if out.Packet? then (old(recvSeq) + 1) % TWO_32 else old(recvSeq)
    {
      ghost var s := r.data;
      var lenBuf := r.ReadFull(4);
      if lenBuf == None {
        return Broken(StreamEnd, r.data);
      }
      var n := FromLE(lenBuf.value);
      if n < 12 || n > MAX_PACKET {
        return Broken(InvalidLength, r.data);
      }
      var body := r.ReadFull(n - 4);
      if body == None {
        return Broken(StreamEnd, r.data);
      }
      var raw := lenBuf.value + body.value;
      assert raw == s[..n] && r.data == s[n..];
      if FromLE(raw[n - 4..]) != crc(raw[..n - 4]) {
        assert raw[n - 4..] == s[n - 4..n] && raw[..n - 4] == s[..n - 4];
        return Broken(CrcMismatch, r.data);
      }
      assert raw[n - 4..] == s[n - 4..n] && raw[..n - 4] == s[..n - 4] && raw[8..n - 4] == s[8..n - 4];
      recvSeq := (recvSeq + 1) % TWO_32;
      out := Packet(raw[8..n - 4], r.data);
    }
  }
}
