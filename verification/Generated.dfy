/** Generated structs at work: msgs_ack and upload.getFile. */
module Generated {
  import opened Bytes
  import opened Schemas
  import opened Generator
  import opened Codec
  import opened RoundTrip
  import W = Wire

  function Plain(name: string, typ: string): Param { Param(name, typ, None, false, "") }
  function TrueBit(name: string, bit: nat): Param
  {
    Param(name, "true", Some(FlagCondition("flags", bit, true)), false, "")
  }

  const MSGS_ACK :=
    Definition("msgs_ack", 0x62d6b459, [Param("msg_ids", "Vector<long>", None, true, "long")], "MsgsAck", false)

  // ---- msgs_ack ----

  function AckItems(ids: seq<int>): (vs: seq<Value>) ensures |vs| == |ids|
  {
    seq(|ids|, i requires 0 <= i < |ids| => VLong(ids[i]))
  }

  function AckValue(ids: seq<int>): Value { VObj(MSGS_ACK, 0, [VVec(AckItems(ids))]) }

  function Longs(ids: seq<int>): (b: seq<byte>)
    ensures |b| == 8 * |ids|
  {
    if |ids| == 0 then [] else Longs(ids[..|ids| - 1]) + W.Long(ids[|ids| - 1])
  }

  function AckBytes(ids: seq<int>): (b: seq<byte>) { W.Uint(0x62d6b459) + W.VectorHeader(|ids|) + Longs(ids) }

  lemma {:induction false} EncodeLongs(ids: seq<int>)
    ensures EncodePrims(PLong, AckItems(ids)) == Some(Longs(ids))
  {
    if |ids| > 0 {
      var n := |ids| - 1;
      EncodeLongs(ids[..n]);
      var vs := AckItems(ids);
      assert vs[..n] == AckItems(ids[..n]);
      EncodePrimsAppend(PLong, vs[..n], vs[n]);
      assert vs == vs[..n] + [vs[n]];
    }
  }

  lemma {:induction false} EncodePrimsAppend(p: Prim, items: seq<Value>, last: Value)
    ensures EncodePrims(p, items + [last]) == Append(EncodePrims(p, items), EncodePrim(p, last))
    decreases |items|
  {
    hide EncodePrim;
    if |items| == 0 {
      assert items + [last] == [last];
      assert [last][1..] == [];
      if EncodePrim(p, last).Some? {
        assert EncodePrim(p, last).value + [] == EncodePrim(p, last).value == [] + EncodePrim(p, last).value;
      }
    } else {
      var all := items + [last];
      assert all[0] == items[0] && all[1..] == items[1..] + [last];
      EncodePrimsAppend(p, items[1..], last);
      var a, b, c := EncodePrim(p, items[0]), EncodePrims(p, items[1..]), EncodePrim(p, last);
      if a.Some? && b.Some? && c.Some? {
        assert a.value + (b.value + c.value) == a.value + b.value + c.value;
      }
    }
  }

  lemma AckCode(s: Schema)
    ensures CodeFor(s, MSGS_ACK).enc == [Put(EVecPrim(PLong))]
    ensures CodeFor(s, MSGS_ACK).dec == [Get(DVecPrim(PLong))]
    ensures CodeFor(s, MSGS_ACK).or == [NoOr] && !HasFlags(MSGS_ACK.params)
  {
    var p := MSGS_ACK.params[0];
    assert p.typ == "Vector<long>" && p.elemType == "long" && |p.typ| == 12;
    assert FieldPrim(p.typ) == None;
    assert EncFor(p) == Put(EVecPrim(PLong));
    assert DecFor(s, p) == Get(DVecPrim(PLong));
  }

  /** PackMsgsAck writes what the generated Encode writes for the same ids. */
  lemma PackedAckIsGenerated(s: Schema, ids: seq<int>)
    ensures EncodeObj(s, AckValue(ids)) == Some(AckBytes(ids))
  {
    hide CodeFor, EncodePrims, W.Uint, W.VectorHeader, Longs;
    AckCode(s);
    EncodeLongs(ids);
    var v := AckValue(ids);
    var items := v.fields[0];
    var head, body := W.VectorHeader(|ids|), Longs(ids);
    assert EncodeData(s, EVecPrim(PLong), items) == Some(head + body);
    AckFields(s, items, FlagsOf(s, v));
    AckId(s);
    assert W.Uint(0x62d6b459) + (head + body) == AckBytes(ids);
  }

  lemma AckId(s: Schema)
    ensures CodeFor(s, MSGS_ACK).id == 0x62d6b459
  {
  }

  lemma AckFields(s: Schema, v: Value, f: nat)
    ensures EncodeFields(s, [Put(EVecPrim(PLong))], f, [v]) == EncodeData(s, EVecPrim(PLong), v)
  {
    hide EncodeData;
    var d := EncodeData(s, EVecPrim(PLong), v);
    assert [v][1..] == [] && [Put(EVecPrim(PLong))][1..] == [];
    assert EncodeFields(s, [], f, []) == Some([]);
    if d.Some? {
      assert d.value + [] == d.value;
    }
  }

  /** And it decodes back to the ids, whatever follows. */
  lemma AckRoundTrip(s: Schema, ids: seq<int>, rest: seq<byte>)
    requires WFSchema(s) && MSGS_ACK in s.constructors && |ids| < TWO_31
    requires forall i :: 0 <= i < |ids| ==> -0x8000_0000_0000_0000 <= ids[i] < TWO_63
    ensures DecodeObj(s, MSGS_ACK, AckBytes(ids) + rest) == W.Ok(AckValue(ids), rest)
  {
    hide EncodeObj, DecodeObj, CodeFor;
    var v := AckValue(ids);
    AckCode(s);
    assert TypedFields(s, MSGS_ACK.params, v.fields) by { AckTyped(s, ids); }
    assert Fits(v.fields[0]) by { assert forall i :: 0 <= i < |ids| ==> AckItems(ids)[i] == VLong(ids[i]); }
    assert Fits(v);
    PackedAckIsGenerated(s, ids);
    ObjRoundTrip(s, v, rest);
    AckNormal(s, ids);
  }

  lemma AckTyped(s: Schema, ids: seq<int>)
    requires forall i :: 0 <= i < |ids| ==> -0x8000_0000_0000_0000 <= ids[i] < TWO_63
    ensures TypedFields(s, MSGS_ACK.params, AckValue(ids).fields)
  {
    hide TypedFields, CodeFor, DecFor;
    var ps, fs := MSGS_ACK.params, AckValue(ids).fields;
    AckDec(s);
    assert TypedStep(s, Get(DVecPrim(PLong)), fs[0]);
    assert ps[1..] == [] && fs[1..] == [];
    TypedNone(s);
    TypedNext(s, ps, fs);
  }

  lemma AckDec(s: Schema)
    ensures DecFor(s, MSGS_ACK.params[0]) == Get(DVecPrim(PLong))
  {
    hide DecFor;
    AckCode(s);
    assert DecFor(s, MSGS_ACK.params[0]) == CodeFor(s, MSGS_ACK).dec[0];
  }

  lemma AckNormal(s: Schema, ids: seq<int>)
    requires forall i :: 0 <= i < |ids| ==> -0x8000_0000_0000_0000 <= ids[i] < TWO_63
    ensures NormalObj(s, AckValue(ids)) == AckValue(ids)
  {
    hide CodeFor;
    AckCode(s);
    var v := AckValue(ids);
    NormalPrims(s, PLong, AckItems(ids));
    assert RunOr([NoOr], v.fields, 0) == 0 by { RunOrNothing([NoOr], v.fields, 0); }
    assert [Get(DVecPrim(PLong))][1..] == [] && v.fields[1..] == [];
    assert NormalFields(s, [], 0, []) == [];
    assert NormalValue(s, v.fields[0]) == v.fields[0];
    assert NormalFields(s, [Get(DVecPrim(PLong))], 0, v.fields) ==
      [NormalStep(s, Get(DVecPrim(PLong)), 0, v.fields[0])] + [];
  }

  /** PackMsgsAck: one buffer, filled by offset. */
  method PackMsgsAck(ids: seq<int>) returns (out: seq<byte>)
    ensures out == AckBytes(ids)
  {
    hide LE;
    var buf := LE(4, 0x62d6b459) + LE(4, 0x1cb5c415) + LE(4, ToUint32(|ids|));
    assert buf == W.Uint(0x62d6b459) + W.VectorHeader(|ids|);
    ghost var head := buf;
    for i := 0 to |ids|
      invariant buf == head + Longs(ids[..i])
    {
      buf := buf + LE(8, ToUint64(ids[i]));
      assert ids[..i + 1][..i] == ids[..i];
      assert Longs(ids[..i + 1]) == Longs(ids[..i]) + W.Long(ids[i]);
    }
    assert ids[..|ids|] == ids;
    out := buf;
  }

  // ---- upload.getFile ----

  const GET_FILE := Definition("upload_getFile", 0xbe250529,
    [Plain("flags", "#"), TrueBit("precise", 0), TrueBit("cdn_supported", 1),
     Plain("location", "InputFileLocation"), Plain("offset", "long"), Plain("limit", "int")], "UploadFile", true)

  /** The flags word after an Encode that finds the two booleans set so. */
  function OrFlags(f: nat, precise: bool, cdn: bool): (r: nat)
  {
    var g := if precise then SetBit(f, 0) else f;
    if cdn then SetBit(g, 1) else g
  }

  /** The request bytes for a flags word, the encoding of a location, an offset and a limit. */
  function Request(f: nat, location: seq<byte>, offset: int, limit: int): (b: seq<byte>)
  {
    W.Uint(0xbe250529) + W.Uint(f) + location + W.Long(offset) + W.Int(limit)
  }

  lemma GetFileCode(s: Schema)
    ensures CodeFor(s, GET_FILE).or == [NoOr, OrTrue(0), OrTrue(1), NoOr, NoOr, NoOr]
    ensures CodeFor(s, GET_FILE).enc ==
      [PutFlags, PutNothing, PutNothing, Put(EObj), Put(EPrim(PLong)), Put(EPrim(PInt))]
    ensures CodeFor(s, GET_FILE).dec ==
      [GetFlags, GetTrue(0), GetTrue(1), Get(DObj("InputFileLocation", IsPolymorphic(s, "InputFileLocation"))),
       Get(DPrim(PLong)), Get(DPrim(PInt))]
  {
    var ps := GET_FILE.params;
    assert ps[0].typ == "#";
    assert HasFlags(ps);
    assert |ps[1].typ| == 4 && |ps[2].typ| == 4 && |ps[3].typ| == 17 && |ps[4].typ| == 4 && |ps[5].typ| == 3;
    assert EncFor(ps[3]) == Put(EObj) && EncFor(ps[4]) == Put(EPrim(PLong)) && EncFor(ps[5]) == Put(EPrim(PInt));
  }

  function GetFileValue(f: nat, precise: bool, cdn: bool, location: Value, offset: int, limit: int): Value
  {
    VObj(GET_FILE, f, [VFlags, VBool(precise), VBool(cdn), location, VLong(offset), VInt(limit)])
  }

  /** The generated Encode of upload.getFile writes that request. */
  lemma RequestIsGenerated(s: Schema, f: nat, precise: bool, cdn: bool, location: Value, offset: int, limit: int)
    requires EncodeRef(s, location).Some?
    ensures var v := GetFileValue(f, precise, cdn, location, offset, limit);
      && FlagsOf(s, v) == OrFlags(f, precise, cdn)
      && EncodeObj(s, v) == Some(Request(OrFlags(f, precise, cdn), EncodeRef(s, location).value, offset, limit))
  {
    hide CodeFor, EncodeRef, EncodeFields, EncodeStep, EncodeData, RunOr, W.Uint, W.Long, W.Int, SetBit, OrFlags;
    GetFileCode(s);
    var v := GetFileValue(f, precise, cdn, location, offset, limit);
    var vs := v.fields;
    var g := OrFlags(f, precise, cdn);
    GetFileFlags(f, precise, cdn, vs);
    GetFileFields(s, g, vs);
    GetFileId(s);
    var l := EncodeRef(s, location).value;
    var tail := W.Uint(g) + (l + (W.Long(offset) + W.Int(limit)));
    assert W.Uint(0xbe250529) + tail == Request(g, l, offset, limit);
  }

  lemma GetFileId(s: Schema)
    ensures CodeFor(s, GET_FILE).id == 0xbe250529
  {
  }

  lemma GetFileFlags(f: nat, precise: bool, cdn: bool, vs: seq<Value>)
    requires |vs| == 6 && vs[1] == VBool(precise) && vs[2] == VBool(cdn)
    ensures RunOr([NoOr, OrTrue(0), OrTrue(1), NoOr, NoOr, NoOr], vs, f) == OrFlags(f, precise, cdn)
  {
    hide SetBit;
    var or := [NoOr, OrTrue(0), OrTrue(1), NoOr, NoOr, NoOr];
    var g := if precise then SetBit(f, 0) else f;
    assert RunOr(or, vs, f) == RunOr(or[1..], vs[1..], f);
    assert or[1..][0] == OrTrue(0) && vs[1..][0] == vs[1];
    assert RunOr(or[1..], vs[1..], f) == RunOr(or[1..][1..], vs[1..][1..], g);
    var or2, vs2 := or[1..][1..], vs[1..][1..];
    assert or2[0] == OrTrue(1) && vs2[0] == vs[2];
    assert RunOr(or2, vs2, g) == RunOr(or2[1..], vs2[1..], OrFlags(f, precise, cdn));
    RunOrNothing(or2[1..], vs2[1..], OrFlags(f, precise, cdn));
  }

  lemma GetFileFields(s: Schema, g: nat, vs: seq<Value>)
    requires |vs| == 6 && vs[4].VLong? && vs[5].VInt? && EncodeRef(s, vs[3]).Some?
    ensures EncodeFields(s, [PutFlags, PutNothing, PutNothing, Put(EObj), Put(EPrim(PLong)), Put(EPrim(PInt))], g, vs)
         == Some(W.Uint(g) + (EncodeRef(s, vs[3]).value + (W.Long(vs[4].l) + W.Int(vs[5].i))))
  {
    hide *;
    var e := [PutFlags, PutNothing, PutNothing, Put(EObj), Put(EPrim(PLong)), Put(EPrim(PInt))];
    var b5 := W.Int(vs[5].i);
    var b4 := W.Long(vs[4].l) + b5;
    var b3 := EncodeRef(s, vs[3]).value + b4;
    StepData(s, g, vs);
    FieldsStep(s, [], g, [], e[5], vs[5], b5, []);
    FieldsStep(s, e[5..], g, vs[5..], e[4], vs[4], W.Long(vs[4].l), b5);
    FieldsStep(s, e[4..], g, vs[4..], e[3], vs[3], EncodeRef(s, vs[3]).value, b4);
    FieldsStep(s, e[3..], g, vs[3..], e[2], vs[2], [], b3);
    FieldsStep(s, e[2..], g, vs[2..], e[1], vs[1], [], b3);
    FieldsStep(s, e[1..], g, vs[1..], e[0], vs[0], W.Uint(g), b3);
    assert b5 + [] == b5 && [] + b3 == b3;
    assert [e[5]] + [] == e[5..] && [vs[5]] + [] == vs[5..];
    assert [e[4]] + e[5..] == e[4..] && [vs[4]] + vs[5..] == vs[4..];
    assert [e[3]] + e[4..] == e[3..] && [vs[3]] + vs[4..] == vs[3..];
    assert [e[2]] + e[3..] == e[2..] && [vs[2]] + vs[3..] == vs[2..];
    assert [e[1]] + e[2..] == e[1..] && [vs[1]] + vs[2..] == vs[1..];
    assert [e[0]] + e[1..] == e && [vs[0]] + vs[1..] == vs;
    NoFields(s, g);
  }

  lemma NoFields(s: Schema, g: nat)
    ensures EncodeFields(s, [], g, []) == Some([])
  {
  }

  lemma StepData(s: Schema, g: nat, vs: seq<Value>)
    requires |vs| == 6 && vs[4].VLong? && vs[5].VInt?
    ensures EncodeStep(s, PutFlags, g, vs[0]) == Some(W.Uint(g))
    ensures EncodeStep(s, PutNothing, g, vs[1]) == EncodeStep(s, PutNothing, g, vs[2]) == Some([])
    ensures EncodeStep(s, Put(EObj), g, vs[3]) == EncodeRef(s, vs[3])
    ensures EncodeStep(s, Put(EPrim(PLong)), g, vs[4]) == Some(W.Long(vs[4].l))
    ensures EncodeStep(s, Put(EPrim(PInt)), g, vs[5]) == Some(W.Int(vs[5].i))
  {
    hide EncodeRef, W.Uint, W.Long, W.Int;
  }

  lemma FieldsStep(s: Schema, steps: seq<EncStep>, g: nat, vs: seq<Value>, step: EncStep, v: Value,
                   a: seq<byte>, b: seq<byte>)
    requires |steps| == |vs|
    ensures EncodeStep(s, step, g, v) == Some(a) && EncodeFields(s, steps, g, vs) == Some(b) ==>
      EncodeFields(s, [step] + steps, g, [v] + vs) == Some(a + b)
  {
    hide EncodeStep;
    assert ([step] + steps)[1..] == steps && ([v] + vs)[1..] == vs;
  }

  lemma Assembled(b: seq<byte>, f: nat, location: seq<byte>, offset: int, limit: int)
    ensures b + W.Uint(0xbe250529) + W.Uint(f) + location + W.Long(offset) + W.Int(limit)
         == b + Request(f, location, offset, limit)
  {
    hide W.Uint, W.Long, W.Int;
  }

  class UploadGetFile {
    var flags: nat
    var precise: bool
    var cdnSupported: bool
    var location: seq<byte>
    var locationOk: bool
    var offset: int
    var limit: int

    /** The location is known by the bytes its Encode writes, and whether that then succeeds. */
    constructor (location: seq<byte>, locationOk: bool, offset: int, limit: int)
      ensures flags == 0 && precise && cdnSupported
      ensures this.location == location && this.locationOk == locationOk
      ensures this.offset == offset && this.limit == limit
    {
      flags, precise, cdnSupported := 0, true, true;
      this.locationOk := locationOk;
      this.location, this.offset, this.limit := location, offset, limit;
    }

    /** Encode ORs into the flags word of the struct, which keeps it, even if it fails half-way. */
    method Encode(e: W.Encoder) returns (ok: bool)
      modifies e, this`flags
      ensures flags == OrFlags(old(flags), precise, cdnSupported) && ok == locationOk
      ensures ok ==> e.buf == old(e.buf) + Request(flags, location, offset, limit)
      ensures !ok ==> e.buf == old(e.buf) + (W.Uint(0xbe250529) + W.Uint(flags) + location)
    {
      hide W.Uint, W.Long, W.Int, SetBit, LE, Request;
      e.PutUint(0xbe250529);
      if precise {
        flags := SetBit(flags, 0);
      }
      if cdnSupported {
        flags := SetBit(flags, 1);
      }
      e.PutUint(flags);
      e.PutRaw(location);
      if !locationOk {
        return false;
      }
      e.PutLong(offset);
      e.PutInt(limit);
      Assembled(old(e.buf), flags, location, offset, limit);
      ok := true;
    }
  }

  /** The flags word after Encodes at which the struct held these (precise, cdnSupported) pairs. */
  function FlagsAfter(f: nat, held: seq<(bool, bool)>): (g: nat)
  {
    if |held| == 0 then f
    else OrFlags(FlagsAfter(f, held[..|held| - 1]), held[|held| - 1].0, held[|held| - 1].1)
  }

  /**
   * Over any sequence of Encodes of one request, a sent bit is the OR of the initial bit and of
   * all the values held so far: setting a field back to false never clears its bit.
   */
  lemma {:induction false} FlagBitsAccumulate(f: nat, held: seq<(bool, bool)>, k: nat)
    ensures Bit(FlagsAfter(f, held), k) <==>
      || Bit(f, k)
      || (k == 0 && exists i :: 0 <= i < |held| && held[i].0)
      || (k == 1 && exists i :: 0 <= i < |held| && held[i].1)
  {
    hide Bit, SetBit;
    if |held| > 0 {
      var n := |held| - 1;
      var front, last := held[..n], held[n];
      FlagBitsAccumulate(f, front, k);
      OrFlagsBits(FlagsAfter(f, front), last.0, last.1, k);
      assert forall i :: 0 <= i < n ==> front[i] == held[i];
      assert (exists i :: 0 <= i < |held| && held[i].0) <==> last.0 || exists i :: 0 <= i < n && front[i].0 by {
        if i :| 0 <= i < n && front[i].0 { assert held[i].0; }
      }
      assert (exists i :: 0 <= i < |held| && held[i].1) <==> last.1 || exists i :: 0 <= i < n && front[i].1 by {
        if i :| 0 <= i < n && front[i].1 { assert held[i].1; }
      }
    }
  }

  lemma OrFlagsBits(f: nat, precise: bool, cdn: bool, k: nat)
    ensures Bit(OrFlags(f, precise, cdn), k) <==> Bit(f, k) || (k == 0 && precise) || (k == 1 && cdn)
  {
    hide Bit, SetBit;
    SetBitBits(f, 0, k);
    SetBitBits(f, 1, k);
    SetBitBits(SetBit(f, 0), 1, k);
  }

  /** A further Encode changes the flags word exactly if it holds a value whose bit was never set. */
  lemma ReencodeSameIff(f: nat, held: seq<(bool, bool)>, precise: bool, cdn: bool)
    ensures OrFlags(FlagsAfter(f, held), precise, cdn) == FlagsAfter(f, held) <==>
      && (precise ==> Bit(f, 0) || exists i :: 0 <= i < |held| && held[i].0)
      && (cdn ==> Bit(f, 1) || exists i :: 0 <= i < |held| && held[i].1)
  {
    hide Bit, SetBit, FlagsAfter;
    var g := FlagsAfter(f, held);
    FlagBitsAccumulate(f, held, 0);
    FlagBitsAccumulate(f, held, 1);
    OrFlagsBits(g, precise, cdn, 0);
    OrFlagsBits(g, precise, cdn, 1);
    SetBitSame(g, 0);
    SetBitSame(g, 1);
  }

  /**
   * So, whatever the flags word and the Encodes before, once an Encode has held CdnSupported a next
   * one without it sends the same request: clearing the field has no effect.
   */
  lemma FallbackRequestUnchanged(f: nat, held: seq<(bool, bool)>, cdn: bool,
      location: seq<byte>, offset: int, limit: int)
    requires |held| > 0 && held[|held| - 1].1
    ensures var g := FlagsAfter(f, held); var precise := held[|held| - 1].0;
      Request(OrFlags(g, precise, cdn), location, offset, limit) == Request(g, location, offset, limit)
  {
    hide Request, OrFlags, FlagsAfter, Bit;
    ReencodeSameIff(f, held, held[|held| - 1].0, cdn);
  }

  // ---- A stale bit ----

  /** A schema with a location that has no fields, and upload.getFile. */
  const LOCATION := Definition("noLocation", 1, [], "InputFileLocation", false)
  const SMALL_SCHEMA := Schema([LOCATION], [GET_FILE])

  /** A request whose word has bit 1 set while CdnSupported is false: it encodes, and comes back changed. */
  lemma StaleBitComesBack(rest: seq<byte>) returns (v: Value)
    ensures WFSchema(SMALL_SCHEMA) && TypedObj(SMALL_SCHEMA, v) && Fits(v) && !Stable(SMALL_SCHEMA, v)
    ensures EncodeObj(SMALL_SCHEMA, v).Some?
    ensures DecodeObj(SMALL_SCHEMA, GET_FILE, EncodeObj(SMALL_SCHEMA, v).value + rest)
         != W.Ok(Completed(SMALL_SCHEMA, v), rest)
  {
    v := GetFileValue(2, true, false, VObj(LOCATION, 0, []), 0, 0);
    StaleTyped(v);
    StaleNotStable(v);
    hide *;
    LocationEncodes();
    RequestIsGenerated(SMALL_SCHEMA, 2, true, false, VObj(LOCATION, 0, []), 0, 0);
    GeneratedRoundTrip(SMALL_SCHEMA, v, rest);
  }

  lemma LocationEncodes()
    ensures EncodeRef(SMALL_SCHEMA, VObj(LOCATION, 0, [])).Some?
  {
  }

  lemma StaleTyped(v: Value)
    requires v == GetFileValue(2, true, false, VObj(LOCATION, 0, []), 0, 0)
    ensures WFSchema(SMALL_SCHEMA) && TypedObj(SMALL_SCHEMA, v) && Fits(v)
  {
    hide TypedFields, WFParams, TypedStep, DecFor;
    SmallSchema();
    var ps, vs := GET_FILE.params, v.fields;
    StaleStepsTyped(vs);
    assert ps[6..] == [] && vs[6..] == [];
    TypedNone(SMALL_SCHEMA);
    for k := 6 downto 0
      invariant TypedFields(SMALL_SCHEMA, ps[k..], vs[k..])
    {
      TypedNext(SMALL_SCHEMA, ps[k..], vs[k..]);
      assert ps[k..][1..] == ps[k + 1..] && vs[k..][1..] == vs[k + 1..];
    }
    assert ps[0..] == ps && vs[0..] == vs;
    assert HasFlags(ps) by { assert ps[0].typ == "#"; }
  }

  lemma StaleStepsTyped(vs: seq<Value>)
    requires vs == GetFileValue(2, true, false, VObj(LOCATION, 0, []), 0, 0).fields
    ensures forall i :: 0 <= i < 6 ==> TypedStep(SMALL_SCHEMA, DecFor(SMALL_SCHEMA, GET_FILE.params[i]), vs[i])
  {
    var s := SMALL_SCHEMA;
    GetFileCode(s);
    var dec := CodeFor(s, GET_FILE).dec;
    assert forall i :: 0 <= i < 6 ==> dec[i] == DecFor(s, GET_FILE.params[i]);
    LocationTyped();
  }

  lemma LocationTyped()
    ensures TypedRef(SMALL_SCHEMA, "InputFileLocation", IsPolymorphic(SMALL_SCHEMA, "InputFileLocation"),
      VObj(LOCATION, 0, []))
  {
    assert SMALL_SCHEMA.constructors[1..] == [];
    assert CtorsOf(SMALL_SCHEMA.constructors, "InputFileLocation") == [LOCATION];
  }

  lemma TypedNone(s: Schema)
    ensures TypedFields(s, [], [])
  {
  }

  /** TypedFields, one field at a time. */
  lemma TypedNext(s: Schema, params: seq<Param>, fields: seq<Value>)
    requires |params| == |fields| > 0
    ensures TypedFields(s, params, fields) <==>
      TypedStep(s, DecFor(s, params[0]), fields[0]) && TypedFields(s, params[1..], fields[1..])
  {
  }

  lemma SmallSchema()
    ensures WFSchema(SMALL_SCHEMA)
  {
    hide WFParams;
    var s := SMALL_SCHEMA;
    assert s.constructors + s.functions == [LOCATION, GET_FILE];
    NoParams(s);
    GetFileParams(s);
  }

  lemma NoParams(s: Schema)
    ensures WFParams(s, [], false) && WFParams(s, [], true)
  {
  }

  lemma GetFileParams(s: Schema)
    ensures WFParams(s, GET_FILE.params, false)
  {
    hide WFParams;
    var ps := GET_FILE.params;
    NoParams(s);
    assert ps[6..] == [];
    for k := 6 downto 1
      invariant WFParams(s, ps[k..], true)
    {
      PlainNext(s, ps[k..]);
      assert ps[k..][1..] == ps[k + 1..] && ps[k..][0] == ps[k];
    }
    FlagsNext(s, ps);
  }

  lemma PlainNext(s: Schema, ps: seq<Param>)
    requires |ps| > 0 && ps[0].typ != "#" && WFParams(s, ps[1..], true)
    requires ps[0].flag.None? || (ps[0].flag.value.isTrue && ps[0].flag.value.bit < 32)
    ensures WFParams(s, ps, true)
  {
  }

  lemma FlagsNext(s: Schema, ps: seq<Param>)
    requires |ps| > 0 && ps[0].typ == "#" && ps[0].flag.None? && WFParams(s, ps[1..], true)
    ensures WFParams(s, ps, false)
  {
  }

  lemma StaleNotStable(v: Value)
    requires v == GetFileValue(2, true, false, VObj(LOCATION, 0, []), 0, 0)
    ensures !Stable(SMALL_SCHEMA, v)
  {
    hide StableFields, CodeFor, Bit, SetBit, FlagsOf, OrFlags, Request, EncodeObj, EncodeRef;
    var s := SMALL_SCHEMA;
    GetFileCode(s);
    var f := FlagsOf(s, v);
    LocationEncodes();
    RequestIsGenerated(s, 2, true, false, VObj(LOCATION, 0, []), 0, 0);
    OrFlagsBits(2, true, false, 1);
    assert Bit(2, 1) by { BitOfTwo(); }
    if StableFields(s, CodeFor(s, GET_FILE).dec, f, v.fields) {
      StableAt(s, CodeFor(s, GET_FILE).dec, f, v.fields, 2);
    }
  }

  lemma BitOfTwo()
    ensures Bit(2, 1)
  {
  }

  lemma {:induction false} StableAt(s: Schema, steps: seq<DecStep>, f: nat, fields: seq<Value>, k: nat)
    requires |steps| == |fields| && k < |fields| && StableFields(s, steps, f, fields)
    ensures StableStep(s, steps[k], f, fields[k])
    decreases k
  {
    if k > 0 {
      StableAt(s, steps[1..], f, fields[1..], k - 1);
    }
  }
}
