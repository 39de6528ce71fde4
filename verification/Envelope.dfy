/** The MTProto 2.0 message envelope: plaintext messages and encrypted packets. */
module Envelope {
  import opened Bytes
  import opened Ige

  datatype Role = ClientRole | ServerRole

  type Key = s: seq<byte> | |s| == 32 witness seq(32, _ => 0)

  /** One auth key: its id, the msg_key hash, the key derivation, and AES under a derived key. */
  datatype Suite = Suite(
    id: nat,
    msgKey: (seq<byte>, Role) -> Block,
    aesKey: (Block, Role) -> Key,
    aesIV: (Block, Role) -> Key,
    enc: Key -> Cipher,
    dec: Key -> Cipher)
  {
    ghost predicate Valid()
    {
      id < TWO_64 && forall k: Key :: Inverse(dec(k), enc(k)) && Inverse(enc(k), dec(k))
    }
  }

  // ---- Layout of the inner data ----

  function Header(salt: int, session: int, msgId: int, seqNo: int, n: nat): (r: seq<byte>)
    ensures |r| == 32
  {
    LE(8, ToUint64(salt)) + LE(8, ToUint64(session)) + LE(8, ToUint64(msgId)) + LE(4, ToUint32(seqNo)) +
    LE(4, ToUint32(n))
  }

  function Inner(salt: int, session: int, msgId: int, seqNo: int, payload: seq<byte>, pad: seq<byte>): (r: seq<byte>)
    ensures |r| == 32 + |payload| + |pad|
  {
    Header(salt, session, msgId, seqNo, |payload|) + payload + pad
  }

  /** The padding PackEncrypted adds: the inner data fill whole blocks, with 12 to 27 pad bytes. */
  function PadLen(n: nat): (p: nat)
    ensures 12 <= p <= 27 && (32 + n + p) % 16 == 0
  {
    var p := 16 - (32 + n) % 16;
    if p < 12 then p + 16 else p
  }

  /** Reading back a little-endian field of a byte string. */
  function U64At(s: seq<byte>, i: nat): (v: nat) requires i + 8 <= |s| { FromLE(s[i..i + 8]) }
  function U32At(s: seq<byte>, i: nat): (v: nat) requires i + 4 <= |s| { FromLE(s[i..i + 4]) }

  lemma FieldsOfHeader(salt: int, session: int, msgId: int, seqNo: int, n: nat, rest: seq<byte>)
    ensures var s := Header(salt, session, msgId, seqNo, n) + rest;
      && U64At(s, 0) == ToUint64(salt) && U64At(s, 8) == ToUint64(session)
      && U64At(s, 16) == ToUint64(msgId) && U32At(s, 24) == ToUint32(seqNo)
      && U32At(s, 28) == n % TWO_32
  {
    hide LE, FromLE;
    var s := Header(salt, session, msgId, seqNo, n) + rest;
    ReadBack(s[0..8], 8, ToUint64(salt));
    ReadBack(s[8..16], 8, ToUint64(session));
    ReadBack(s[16..24], 8, ToUint64(msgId));
    ReadBack(s[24..28], 4, ToUint32(seqNo));
    ReadBack(s[28..32], 4, ToUint32(n));
  }

  // ---- Plaintext messages ----

  datatype Error = PacketTooShort | AuthKeyMismatch | MsgKeyMismatch | SessionMismatch
                 | InvalidMsgLength | NotPlaintext(id: nat)

  datatype Plain = PlainOk(msgId: int, payload: seq<byte>) | PlainErr(error: Error)

  function PackedUnencrypted(msgId: int, payload: seq<byte>): (r: seq<byte>)
    ensures |r| == 20 + |payload|
  {
    LE(8, 0) + LE(8, ToUint64(msgId)) + LE(4, ToUint32(|payload|)) + payload
  }

  function UnpackUnencrypted(data: seq<byte>): (r: Plain)
    ensures r.PlainOk? ==> 20 + |r.payload| <= |data| && r.payload == data[20..20 + |r.payload|]
  {
    if |data| < 20 then PlainErr(PacketTooShort)
    else
      var id := U64At(data, 0);
      if id != 0 then PlainErr(NotPlaintext(id))
      else
        var n := U32At(data, 16);
        if |data| < 20 + n then PlainErr(PacketTooShort)
        else PlainOk(ToInt64(U64At(data, 8)), data[20..20 + n])
  }

  /** A plaintext message is read back whatever follows it, if its length fits the length field. */
  lemma UnpackPackedUnencrypted(msgId: int, payload: seq<byte>, trailer: seq<byte>)
    requires -0x8000_0000_0000_0000 <= msgId < TWO_63
    ensures UnpackUnencrypted(PackedUnencrypted(msgId, payload) + trailer) == PlainOk(msgId, payload)
       <==> |payload| < TWO_32
  {
    hide LE, FromLE;
    var data := PackedUnencrypted(msgId, payload) + trailer;
    ReadBack(data[0..8], 8, 0);
    ReadBack(data[8..16], 8, ToUint64(msgId));
    ReadBack(data[16..20], 4, ToUint32(|payload|));
    SignedRoundTrip(msgId);
    assert data[20..20 + |payload|] == payload;
  }

  /**
   * Reading is exact: a message is accepted if and only if its packed form is how the data begins,
   * and refused as not plain if and only if there is a header with that nonzero key id.
   */
  lemma PlainIff(data: seq<byte>, msgId: int, payload: seq<byte>, id: nat)
    ensures UnpackUnencrypted(data) == PlainOk(msgId, payload) <==>
      Int64(msgId) && |payload| < TWO_32 && PackedUnencrypted(msgId, payload) <= data
    ensures UnpackUnencrypted(data) == PlainErr(NotPlaintext(id)) <==>
      |data| >= 20 && 0 < id < TWO_64 && LE(8, id) == data[..8]
  {
    hide LE, FromLE;
    if |data| >= 20 {
      HeaderBytes(data);
      if id < TWO_64 && LE(8, id) == data[..8] {
        ReadBack(data[0..8], 8, id);
      }
    }
    if Int64(msgId) && |payload| < TWO_32 && PackedUnencrypted(msgId, payload) <= data {
      var n := 20 + |payload|;
      assert data == PackedUnencrypted(msgId, payload) + data[n..];
      UnpackPackedUnencrypted(msgId, payload, data[n..]);
    }
    if UnpackUnencrypted(data) == PlainOk(msgId, payload) {
      PackedAgain(data);
    }
  }

  /** The header words written again are the header. */
  lemma HeaderBytes(data: seq<byte>)
    requires |data| >= 20
    ensures LE(8, U64At(data, 0)) == data[..8] && LE(8, U64At(data, 8)) == data[8..16]
    ensures LE(4, U32At(data, 16)) == data[16..20]
    ensures U64At(data, 0) < TWO_64 && U64At(data, 8) < TWO_64 && U32At(data, 16) < TWO_32
  {
    hide LE, FromLE, Pow;
    LEOfFromLE(data[0..8]);
    LEOfFromLE(data[8..16]);
    LEOfFromLE(data[16..20]);
    FromLEBound(data[0..8]);
    FromLEBound(data[8..16]);
    FromLEBound(data[16..20]);
    Pow256Values();
  }

  lemma PackedAgain(data: seq<byte>)
    requires UnpackUnencrypted(data).PlainOk?
    ensures var r := UnpackUnencrypted(data);
      Int64(r.msgId) && |r.payload| < TWO_32 && PackedUnencrypted(r.msgId, r.payload) <= data
  {
    hide LE, FromLE;
    HeaderBytes(data);
    var r := UnpackUnencrypted(data);
    var u := U64At(data, 8);
    UnsignedRoundTrip(u);
    assert ToUint32(|r.payload|) == |r.payload|;
    var p := PackedUnencrypted(r.msgId, r.payload);
    assert p == data[..8] + data[8..16] + data[16..20] + data[20..20 + |r.payload|];
  }

  /** Where a plain packet has its fields. */
  lemma PlainLayout(msgId: int, payload: seq<byte>)
    ensures var p := PackedUnencrypted(msgId, payload);
      && p[..8] == LE(8, 0) && p[8..16] == LE(8, ToUint64(msgId))
      && p[16..20] == LE(4, ToUint32(|payload|)) && p[20..] == payload
  {
    hide LE;
  }

  /** PackUnencrypted: the fields are written into one buffer by offset. */
  method PackUnencrypted(msgId: int, payload: seq<byte>) returns (out: seq<byte>)
    ensures out == PackedUnencrypted(msgId, payload)
  {
    hide LE;
    var buf := new byte[20 + |payload|](_ => 0);
    ZeroBytes(8);
    ghost var head := LE(8, 0);
    assert buf[..8] == head;
    Put(buf, 8, LE(8, ToUint64(msgId)));
    assert buf[..16] == head + LE(8, ToUint64(msgId));
    Put(buf, 16, LE(4, ToUint32(|payload|)));
    assert buf[..20] == head + LE(8, ToUint64(msgId)) + LE(4, ToUint32(|payload|));
    Put(buf, 20, payload);
    out := buf[..];
    assert out == buf[..20] + buf[20..];
  }

  lemma {:induction false} ZeroBytes(n: nat)
    ensures LE(n, 0) == seq(n, _ => 0)
  {
    if n > 0 {
      ZeroBytes(n - 1);
    }
  }

  /** Copying s into a buffer at an offset. */
  method Put(buf: array<byte>, at: nat, s: seq<byte>)
    requires at + |s| <= buf.Length
    modifies buf
    ensures buf[at..at + |s|] == s
    ensures buf[..at] == old(buf[..at]) && buf[at + |s|..] == old(buf[at + |s|..])
  {
    for j := 0 to |s|
      invariant buf[at..at + j] == s[..j]
      invariant buf[..at] == old(buf[..at]) && buf[at + j..] == old(buf[at + j..])
    {
      buf[at + j] := s[j];
      assert buf[at..at + j + 1] == buf[at..at + j] + [s[j]];
      assert old(buf[at + j + 1..]) == old(buf[at + j..])[1..];
    }
  }

  // ---- Encrypted packets ----

  /** A packet around the inner data; inPlace says how the body was encrypted. */
  function Sealed(u: Suite, role: Role, inPlace: bool, inner: seq<byte>): (r: seq<byte>)
    ensures |r| == 24 + |inner| - |inner| % 16
  {
    var mk := u.msgKey(inner, role);
    var key, iv := u.aesKey(mk, role), u.aesIV(mk, role);
    LE(8, ToUint64(u.id)) + mk + Encrypted(inPlace, u.enc(key), iv[..16], iv[16..], inner)
  }

  datatype Opened = OpenOk(salt: int, msgId: int, seqNo: int, payload: seq<byte>) | OpenErr(error: Error)

  /** What a receiver in the given role makes of a packet. */
  function Unpacked(u: Suite, role: Role, session: int, data: seq<byte>): (r: Opened)
  {
    if |data| < 56 then OpenErr(PacketTooShort)
    else if U64At(data, 0) != u.id then OpenErr(AuthKeyMismatch)
    else if |data[24..]| % 16 != 0 then OpenErr(PacketTooShort)
    else
      var mk: Block := data[8..24];
      var key, iv := u.aesKey(mk, role), u.aesIV(mk, role);
      OpenInner(u, role, session, mk, Decrypted(false, u.dec(key), iv[..16], iv[16..], data[24..]))
  }

  function OpenInner(u: Suite, role: Role, session: int, mk: Block, inner: seq<byte>): (r: Opened)
    requires |inner| >= 32
  {
    if mk != u.msgKey(inner, role) then OpenErr(MsgKeyMismatch)
    else if session != 0 && ToInt64(U64At(inner, 8)) != session then OpenErr(SessionMismatch)
    else
      var n := U32At(inner, 28);
      if 32 + n > |inner| then OpenErr(InvalidMsgLength)
      else OpenOk(ToInt64(U64At(inner, 0)), ToInt64(U64At(inner, 16)), ToInt32(U32At(inner, 24)), inner[32..32 + n])
  }

  predicate Int64(v: int) { -0x8000_0000_0000_0000 <= v < TWO_63 }
  predicate Int32(v: int) { -0x8000_0000 <= v < TWO_31 }

  lemma OpenSealedInner(u: Suite, role: Role, expected: int,
                        salt: int, session: int, msgId: int, seqNo: int, payload: seq<byte>, pad: seq<byte>)
    requires Int64(salt) && Int64(session) && Int64(msgId) && Int32(seqNo) && |payload| < TWO_32
    requires expected == 0 || expected == session
    ensures var inner := Inner(salt, session, msgId, seqNo, payload, pad);
      OpenInner(u, role, expected, u.msgKey(inner, role), inner) == OpenOk(salt, msgId, seqNo, payload)
  {
    var inner := Inner(salt, session, msgId, seqNo, payload, pad);
    hide LE, FromLE, Header;
    assert inner == Header(salt, session, msgId, seqNo, |payload|) + (payload + pad);
    SignedRoundTrip(salt);
    SignedRoundTrip(session);
    SignedRoundTrip(msgId);
    SignedRoundTrip(seqNo);
    FieldsOfHeader(salt, session, msgId, seqNo, |payload|, payload + pad);
    assert inner[32..32 + |payload|] == payload;
  }

  /** Splitting a sealed packet, with anything appended, back into its three parts. */
  lemma SealedParts(u: Suite, role: Role, inPlace: bool, inner: seq<byte>, trailer: seq<byte>)
    requires u.id < TWO_64 && |inner| % 16 == 0
    ensures var mk := u.msgKey(inner, role);
      var key, iv := u.aesKey(mk, role), u.aesIV(mk, role);
      var data := Sealed(u, role, inPlace, inner) + trailer;
      && U64At(data, 0) == u.id && data[8..24] == mk
      && data[24..] == Encrypted(inPlace, u.enc(key), iv[..16], iv[16..], inner) + trailer
  {
    hide LE, FromLE, Encrypted;
    var data := Sealed(u, role, inPlace, inner) + trailer;
    assert data[0..8] == LE(8, u.id);
    ReadBack(data[0..8], 8, u.id);
  }

  /**
   * A receiver recovers every field and the payload from a packet whose body is the IGE encryption
   * of the inner data, for all header values, payloads and pad bytes that fill whole blocks.
   */
  lemma UnpackSealed(u: Suite, role: Role, expected: int,
                     salt: int, session: int, msgId: int, seqNo: int, payload: seq<byte>, pad: seq<byte>)
    requires u.Valid() && Int64(salt) && Int64(session) && Int64(msgId) && Int32(seqNo) && |payload| < TWO_32
    requires expected == 0 || expected == session
    requires (32 + |payload| + |pad|) % 16 == 0
    ensures var inner := Inner(salt, session, msgId, seqNo, payload, pad);
      Unpacked(u, role, expected, Sealed(u, role, false, inner)) == OpenOk(salt, msgId, seqNo, payload)
  {
    var inner := Inner(salt, session, msgId, seqNo, payload, pad);
    var data := Sealed(u, role, false, inner);
    SealedParts(u, role, false, inner, []);
    assert data + [] == data;
    var mk := u.msgKey(inner, role);
    var key, iv := u.aesKey(mk, role), u.aesIV(mk, role);
    DecryptEncrypt(u.enc(key), u.dec(key), iv[..16], iv[16..], inner);
    OpenSealedInner(u, role, expected, salt, session, msgId, seqNo, payload, pad);
  }

  /** The inner data a receiver has accepted, field by field. */
  lemma OpenedInner(u: Suite, role: Role, expected: int, mk: Block, inner: seq<byte>)
    returns (session: int, pad: seq<byte>)
    requires |inner| >= 32 && OpenInner(u, role, expected, mk, inner).OpenOk?
    ensures mk == u.msgKey(inner, role)
    ensures var r := OpenInner(u, role, expected, mk, inner);
      && Int64(r.salt) && Int64(session) && Int64(r.msgId) && Int32(r.seqNo) && |r.payload| < TWO_32
      && (expected == 0 || expected == session)
      && inner == Inner(r.salt, session, r.msgId, r.seqNo, r.payload, pad)
  {
    hide LE, FromLE;
    var r := OpenInner(u, role, expected, mk, inner);
    var n := U32At(inner, 28);
    session, pad := ToInt64(U64At(inner, 8)), inner[32 + n..];
    WordAgain(inner[0..8], 8);
    WordAgain(inner[8..16], 8);
    WordAgain(inner[16..24], 8);
    WordAgain(inner[24..28], 4);
    WordAgain(inner[28..32], 4);
    assert Header(r.salt, session, r.msgId, r.seqNo, n) ==
      inner[0..8] + inner[8..16] + inner[16..24] + inner[24..28] + inner[28..32];
    assert Header(r.salt, session, r.msgId, r.seqNo, n) == inner[..32];
    assert inner == inner[..32] + inner[32..32 + n] + inner[32 + n..];
  }

  /** A word read as signed and written again is the word. */
  lemma WordAgain(s: seq<byte>, n: nat)
    requires |s| == n && (n == 4 || n == 8)
    ensures n == 8 ==> LE(8, ToUint64(ToInt64(FromLE(s)))) == s && FromLE(s) < TWO_64
    ensures n == 4 ==> LE(4, ToUint32(ToInt32(FromLE(s)))) == s && FromLE(s) < TWO_32
    ensures n == 4 ==> LE(4, ToUint32(FromLE(s))) == s
  {
    hide LE, FromLE, Pow, ToInt32, ToInt64;
    LEOfFromLE(s);
    FromLEBound(s);
    Pow256Values();
    UnsignedRoundTrip(FromLE(s));
  }

  /** Nothing else is accepted: a packet that opens is the sealed form of what it opens to. */
  lemma OpenedIsSealed(u: Suite, role: Role, expected: int, data: seq<byte>) returns (session: int, pad: seq<byte>)
    requires u.Valid() && Unpacked(u, role, expected, data).OpenOk?
    ensures var r := Unpacked(u, role, expected, data);
      SealedAs(u, role, expected, data, r.salt, session, r.msgId, r.seqNo, r.payload, pad)
  {
    hide LE, FromLE, Encrypted, Decrypted, OpenInner, Inner, Inverse;
    var mk: Block := data[8..24];
    var key, iv := u.aesKey(mk, role), u.aesIV(mk, role);
    var inner := Decrypted(false, u.dec(key), iv[..16], iv[16..], data[24..]);
    session, pad := OpenedInner(u, role, expected, mk, inner);
    EncryptDecrypt(u.enc(key), u.dec(key), iv[..16], iv[16..], data[24..]);
    assert data[0..8] == LE(8, u.id) by { LEOfFromLE(data[0..8]); }
    assert data == data[0..8] + data[8..24] + data[24..];
    assert data == Sealed(u, role, false, inner);
  }

  /** The data are these fields sealed, for the expected session, with pad bytes that fill whole blocks. */
  predicate SealedAs(u: Suite, role: Role, expected: int, data: seq<byte>,
      salt: int, session: int, msgId: int, seqNo: int, payload: seq<byte>, pad: seq<byte>)
  {
    && Int64(salt) && Int64(session) && Int64(msgId) && Int32(seqNo) && |payload| < TWO_32
    && (expected == 0 || expected == session) && (32 + |payload| + |pad|) % 16 == 0
    && data == Sealed(u, role, false, Inner(salt, session, msgId, seqNo, payload, pad))
  }

  /**
   * Reading is exact: a packet opens to these fields if and only if it is their sealed form for the
   * expected session, with some pad bytes; any number of them, as no minimum is checked.
   */
  lemma UnpackIff(u: Suite, role: Role, expected: int, data: seq<byte>,
                  salt: int, msgId: int, seqNo: int, payload: seq<byte>)
    requires u.Valid()
    ensures Unpacked(u, role, expected, data) == OpenOk(salt, msgId, seqNo, payload) <==>
      exists session, pad :: SealedAs(u, role, expected, data, salt, session, msgId, seqNo, payload, pad)
  {
    hide Unpacked, Sealed, Inner, Inverse;
    if Unpacked(u, role, expected, data) == OpenOk(salt, msgId, seqNo, payload) {
      var session, pad := OpenedIsSealed(u, role, expected, data);
    }
    if session, pad :| SealedAs(u, role, expected, data, salt, session, msgId, seqNo, payload, pad) {
      UnpackSealed(u, role, expected, salt, session, msgId, seqNo, payload, pad);
    }
  }

  /** A packet for another session, and one that announces more than it holds, are refused as such. */
  lemma RefusedSealed(u: Suite, role: Role, expected: int, salt: int, session: int, msgId: int, seqNo: int,
                      n: nat, rest: seq<byte>)
    requires u.Valid() && Int64(session) && n < TWO_32 && (32 + |rest|) % 16 == 0
    ensures var data := Sealed(u, role, false, Header(salt, session, msgId, seqNo, n) + rest);
      && (expected != 0 && expected != session ==> Unpacked(u, role, expected, data) == OpenErr(SessionMismatch))
      && ((expected == 0 || expected == session) && n > |rest| ==>
            Unpacked(u, role, expected, data) == OpenErr(InvalidMsgLength))
  {
    hide LE, FromLE, Header, Encrypted, Decrypted, Sealed, Inverse;
    var inner := Header(salt, session, msgId, seqNo, n) + rest;
    var data := Sealed(u, role, false, inner);
    SealedParts(u, role, false, inner, []);
    assert data + [] == data;
    var mk := u.msgKey(inner, role);
    var key, iv := u.aesKey(mk, role), u.aesIV(mk, role);
    var body := Encrypted(false, u.enc(key), iv[..16], iv[16..], inner);
    assert body + [] == body;
    DecryptEncrypt(u.enc(key), u.dec(key), iv[..16], iv[16..], inner);
    assert Unpacked(u, role, expected, data) == OpenInner(u, role, expected, mk, inner);
    FieldsOfHeader(salt, session, msgId, seqNo, n, rest);
    SignedRoundTrip(session);
  }

  /** A packet under another key, and one that is too short or not in whole blocks, are refused first. */
  lemma RefusedFirst(u: Suite, role: Role, expected: int, id: nat, rest: seq<byte>)
    requires id < TWO_64
    ensures var data := LE(8, id) + rest;
      && (|data| < 56 ==> Unpacked(u, role, expected, data) == OpenErr(PacketTooShort))
      && (|data| >= 56 && id != u.id ==> Unpacked(u, role, expected, data) == OpenErr(AuthKeyMismatch))
      && (|data| >= 56 && id == u.id && (|data| - 24) % 16 != 0 ==>
            Unpacked(u, role, expected, data) == OpenErr(PacketTooShort))
  {
    hide LE, FromLE, Decrypted, OpenInner;
    var data := LE(8, id) + rest;
    assert data[0..8] == LE(8, id);
    ReadBack(data[0..8], 8, id);
  }

  /** IGE leaves every block but the last of the inner data as it is. */
  ghost predicate FixedButLast(u: Suite, role: Role, inner: seq<byte>)
    requires |inner| >= 16
  {
    var mk := u.msgKey(inner, role);
    var key, iv := u.aesKey(mk, role), u.aesIV(mk, role);
    SameBlocks(inner, Encrypted(false, u.enc(key), iv[..16], iv[16..], inner), |inner| / 16 - 1)
  }

  /**
   * The packet PackEncrypted really builds, encrypting in place, is the IGE packet exactly when
   * FixedButLast holds, and exactly then does the peer's decryption give the inner data back.
   */
  lemma InPlaceSealLaw(u: Suite, role: Role, inner: seq<byte>)
    requires u.Valid() && |inner| >= 16 && |inner| % 16 == 0
    ensures Sealed(u, role, true, inner) == Sealed(u, role, false, inner) <==> FixedButLast(u, role, inner)
    ensures var mk := u.msgKey(inner, role);
      var key, iv := u.aesKey(mk, role), u.aesIV(mk, role);
      Decrypted(false, u.dec(key), iv[..16], iv[16..], Sealed(u, role, true, inner)[24..]) == inner
      <==> FixedButLast(u, role, inner)
  {
    var mk := u.msgKey(inner, role);
    var key, iv := u.aesKey(mk, role), u.aesIV(mk, role);
    var E, D := u.enc(key), u.dec(key);
    var n := |inner| / 16;
    var inp, ige := Encrypted(true, E, iv[..16], iv[16..], inner), Encrypted(false, E, iv[..16], iv[16..], inner);
    InPlaceEncryptLaw(E, iv[..16], iv[16..], inner, n);
    SameBlocksAll(inp, ige, n);
    SealedParts(u, role, true, inner, []);
    SealedParts(u, role, false, inner, []);
    var p, q := Sealed(u, role, true, inner), Sealed(u, role, false, inner);
    assert p + [] == p && q + [] == q && inp + [] == inp && ige + [] == ige;
    DecryptEncrypt(E, D, iv[..16], iv[16..], inner);
    EncryptDecrypt(E, D, iv[..16], iv[16..], inp);
  }

  /** What the peer's decryption makes of a packet built in place. */
  function Garbled(u: Suite, role: Role, inner: seq<byte>): (r: seq<byte>)
    requires |inner| % 16 == 0
  {
    var mk := u.msgKey(inner, role);
    var key, iv := u.aesKey(mk, role), u.aesIV(mk, role);
    Decrypted(false, u.dec(key), iv[..16], iv[16..], Sealed(u, role, true, inner)[24..])
  }

  /**
   * So, unless the hash collides on the inner data and their wrong decryption, the peer reads the
   * packet PackEncrypted builds exactly when FixedButLast holds, and otherwise rejects its key.
   */
  lemma PeerReads(u: Suite, role: Role, expected: int,
                  salt: int, session: int, msgId: int, seqNo: int, payload: seq<byte>, pad: seq<byte>)
    requires u.Valid() && Int64(salt) && Int64(session) && Int64(msgId) && Int32(seqNo) && |payload| < TWO_32
    requires (expected == 0 || expected == session) && (32 + |payload| + |pad|) % 16 == 0
    requires var inner := Inner(salt, session, msgId, seqNo, payload, pad);
      Garbled(u, role, inner) != inner ==> u.msgKey(Garbled(u, role, inner), role) != u.msgKey(inner, role)
    ensures var inner := Inner(salt, session, msgId, seqNo, payload, pad);
      Unpacked(u, role, expected, Sealed(u, role, true, inner)) ==
        if FixedButLast(u, role, inner) then OpenOk(salt, msgId, seqNo, payload) else OpenErr(MsgKeyMismatch)
  {
    hide LE, FromLE, Encrypted, Decrypted, Inner, Inverse, FixedButLast;
    var inner := Inner(salt, session, msgId, seqNo, payload, pad);
    InPlaceSealLaw(u, role, inner);
    if FixedButLast(u, role, inner) {
      hide Unpacked, Sealed;
      UnpackSealed(u, role, expected, salt, session, msgId, seqNo, payload, pad);
    } else {
      var data := Sealed(u, role, true, inner);
      SealedParts(u, role, true, inner, []);
      assert data + [] == data;
      hide Sealed;
      assert Unpacked(u, role, expected, data) ==
        OpenInner(u, role, expected, u.msgKey(inner, role), Garbled(u, role, inner));
    }
  }

  /** A packet followed by pad bytes passes the length check only if they fill whole blocks. */
  lemma PaddedSealedRejected(u: Suite, role: Role, expected: int, inPlace: bool, inner: seq<byte>, pad: seq<byte>)
    requires u.Valid() && |inner| >= 32 && |inner| % 16 == 0 && |pad| <= 15
    ensures Unpacked(u, role, expected, Sealed(u, role, inPlace, inner) + pad) == OpenErr(PacketTooShort)
       <==> pad != []
  {
    hide Sealed, OpenInner, Encrypted, Decrypted, U64At, Inverse;
    SealedParts(u, role, inPlace, inner, pad);
    var data := Sealed(u, role, inPlace, inner) + pad;
    assert |data[24..]| == |inner| + |pad|;
    if pad == [] && U64At(data, 0) == u.id {
      var mk: Block := data[8..24];
      NeverTooShort(u, role, expected, mk,
        Decrypted(false, u.dec(u.aesKey(mk, role)), u.aesIV(mk, role)[..16], u.aesIV(mk, role)[16..], data[24..]));
    }
  }

  lemma NeverTooShort(u: Suite, role: Role, session: int, mk: Block, inner: seq<byte>)
    requires |inner| >= 32
    ensures OpenInner(u, role, session, mk, inner) != OpenErr(PacketTooShort)
  {
    hide FromLE;
  }

  /**
   * PackEncrypted. `random` is what the random source delivers for the padding, None if it fails.
   * The body is encrypted with source and destination the same buffer.
   */
  method PackEncrypted(u: Suite, salt: int, session: int, msgId: int, seqNo: int, payload: seq<byte>,
                       random: Option<seq<byte>>) returns (r: Option<seq<byte>>)
    requires random.Some? ==> |random.value| == PadLen(|payload|)
    ensures r.None? <==> random.None?
    ensures r.Some? ==>
      r.value == Sealed(u, ClientRole, true, Inner(salt, session, msgId, seqNo, payload, random.value))
  {
    hide LE, Header, Encrypted, Inner, PadLen;
    var filled := FillInner(Header(salt, session, msgId, seqNo, |payload|), payload, random);
    if filled == None {
      return None;
    }
    var inner := filled.value;
    ghost var plain := Inner(salt, session, msgId, seqNo, payload, random.value);
    assert inner[..] == plain by { InnerParts(salt, session, msgId, seqNo, payload, random.value); }
    var mk := u.msgKey(inner[..], ClientRole);
    var key, ivBytes := u.aesKey(mk, ClientRole), u.aesIV(mk, ClientRole);
    var iv := new byte[32](i requires 0 <= i < 32 => ivBytes[i]);
    assert iv[..] == ivBytes && iv[..16] == ivBytes[..16] && iv[16..] == ivBytes[16..];
    var err := Encrypt(u.enc(key), iv, inner, inner);
    assert err == None;
    assert inner[..] == inner[..inner.Length];
    assert inner[..] == Encrypted(true, u.enc(key), ivBytes[..16], ivBytes[16..], plain);
    r := Some(LE(8, ToUint64(u.id)) + mk + inner[..]);
  }

  lemma InnerParts(salt: int, session: int, msgId: int, seqNo: int, payload: seq<byte>, pad: seq<byte>)
    ensures Inner(salt, session, msgId, seqNo, payload, pad) ==
      Header(salt, session, msgId, seqNo, |payload|) + payload + pad
  {
  }

  /** The inner buffer, filled by offset; None if no random bytes could be had. */
  method FillInner(header: seq<byte>, payload: seq<byte>, random: Option<seq<byte>>) returns (r: Option<array<byte>>)
    requires |header| == 32 && (random.Some? ==> |random.value| == PadLen(|payload|))
    ensures r.None? <==> random.None?
    ensures r.Some? ==> fresh(r.value) && r.value[..] == header + payload + random.value
  {
    var contentLen := 32 + |payload|;
    var padLen := 16 - contentLen % 16;
    if padLen < 12 {
      padLen := padLen + 16;
    }
    var inner := new byte[contentLen + padLen](_ => 0);
    Put(inner, 0, header);
    assert inner[..32] == header;
    Put(inner, 32, payload);
    assert inner[..contentLen] == header + payload;
    if random == None {
      return None;
    }
    Put(inner, contentLen, random.value);
    assert inner[..] == inner[..contentLen] + inner[contentLen..];
    r := Some(inner);
  }

  /** UnpackEncrypted: the client reads packets in the server's role, decrypting into a new buffer. */
  method UnpackEncrypted(u: Suite, session: int, data: seq<byte>) returns (r: Opened)
    ensures r == Unpacked(u, ServerRole, session, data)
  {
    hide FromLE, Decrypted;
    if |data| < 56 {
      return OpenErr(PacketTooShort);
    }
    if U64At(data, 0) != u.id {
      return OpenErr(AuthKeyMismatch);
    }
    var mk: Block := data[8..24];
    var encrypted := data[24..];
    if |encrypted| % 16 != 0 {
      return OpenErr(PacketTooShort);
    }
    var key, ivBytes := u.aesKey(mk, ServerRole), u.aesIV(mk, ServerRole);
    var iv := new byte[32](i requires 0 <= i < 32 => ivBytes[i]);
    assert iv[..] == ivBytes && iv[..16] == ivBytes[..16] && iv[16..] == ivBytes[16..];
    var src := new byte[|encrypted|](i requires 0 <= i < |encrypted| => encrypted[i]);
    assert src[..] == encrypted;
    var dst := new byte[|encrypted|](_ => 0);
    var err := Decrypt(u.dec(key), iv, dst, src);
    var inner := dst[..];
    assert inner == dst[..src.Length];
    assert dst != src;
    assert inner == Decrypted(false, u.dec(key), ivBytes[..16], ivBytes[16..], data[24..]);
    if mk != u.msgKey(inner, ServerRole) {
      return OpenErr(MsgKeyMismatch);
    }
    if session != 0 && ToInt64(U64At(inner, 8)) != session {
      return OpenErr(SessionMismatch);
    }
    var n := U32At(inner, 28);
    if 32 + n > |inner| {
      return OpenErr(InvalidMsgLength);
    }
    r := OpenOk(ToInt64(U64At(inner, 0)), ToInt64(U64At(inner, 16)), ToInt32(U32At(inner, 24)), inner[32..32 + n]);
  }
}
