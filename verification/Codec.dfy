/** Running the generated code, and what it means: Decode undoes Encode for every schema. */
module Codec {
  import opened Bytes
  import opened Schemas
  import opened Generator
  import W = Wire

  /** A field value of a generated struct. VFlags stands at the place of the flags word itself. */
  datatype Value =
    | VInt(i: int) | VLong(l: int) | VDouble(bits: nat) | VString(s: seq<byte>) | VBytes(b: seq<byte>)
    | VBool(on: bool) | VRaw(r: seq<byte>)
    | VVec(items: seq<Value>)
    | VObj(def: Definition, flags: nat, fields: seq<Value>)
    | VNil
    | VFlags

  // ---- Encode ----

  function EncodePrim(p: Prim, v: Value): (r: Option<seq<byte>>)
  {
    match (p, v)
    case (PInt, VInt(i)) => Some(W.Int(i))
    case (PLong, VLong(l)) => Some(W.Long(l))
    case (PDouble, VDouble(bits)) => Some(LE(8, bits))
    case (PString, VString(s)) => Some(W.ByteString(s))
    case (PBytes, VBytes(b)) => Some(W.ByteString(b))
    case (PBool, VBool(on)) => Some(W.Bool(on))
    case (PInt128, VRaw(r)) => Some(r)
    case (PInt256, VRaw(r)) => Some(r)
    case _ => None
  }

  /** Whether a field makes Encode set a bit of the flags word, and the word after all fields. */
  predicate Sets(o: OrStep, v: Value)
  {
    match o
    case NoOr => false
    case OrTrue(_) => v == VBool(true)
    case OrNonNil(_) => v != VNil
    case OrNonEmpty(_) => (v.VString? && |v.s| > 0) || (v.VBytes? && |v.b| > 0) || (v.VVec? && |v.items| > 0)
  }

  function RunOr(or: seq<OrStep>, fields: seq<Value>, flags: nat): (f: nat)
    requires |or| == |fields|
    decreases |or|
  {
    if |or| == 0 then flags
    else RunOr(or[1..], fields[1..], if Sets(or[0], fields[0]) then SetBit(flags, or[0].bit) else flags)
  }

  function Append(a: Option<seq<byte>>, b: Option<seq<byte>>): (r: Option<seq<byte>>)
  {
    if a.Some? && b.Some? then Some(a.value + b.value) else None
  }

  /** Encode of a struct: None where the generated code dereferences nil. */
  function EncodeObj(s: Schema, v: Value): (r: Option<seq<byte>>)
    requires v.VObj? && |v.fields| == |v.def.params|
    decreases v, 0
  {
    var code := CodeFor(s, v.def);
    Append(Some(W.Uint(code.id)), EncodeFields(s, code.enc, FlagsOf(s, v), v.fields))
  }

  /** The completed flags word: the one Encode writes, and leaves in the struct. */
  function FlagsOf(s: Schema, v: Value): (f: nat)
    requires v.VObj? && |v.fields| == |v.def.params|
  {
    RunOr(CodeFor(s, v.def).or, v.fields, v.flags)
  }

  function EncodeFields(s: Schema, steps: seq<EncStep>, flags: nat, fields: seq<Value>): (r: Option<seq<byte>>)
    requires |steps| == |fields|
    decreases fields, 0
  {
    if |fields| == 0 then Some([])
    else
      Append(EncodeStep(s, steps[0], flags, fields[0]), EncodeFields(s, steps[1..], flags, fields[1..]))
  }

  function EncodeStep(s: Schema, step: EncStep, flags: nat, v: Value): (r: Option<seq<byte>>)
    decreases v, 3
  {
    match step
    case PutFlags => Some(W.Uint(flags))
    case PutNothing => Some([])
    case Put(op) => EncodeData(s, op, v)
    case PutIf(bit, op) => if Bit(flags, bit) then EncodeData(s, op, v) else Some([])
  }

  function EncodeData(s: Schema, op: EncOp, v: Value): (r: Option<seq<byte>>)
    decreases v, 2
  {
    match op
    case EPrim(p) => EncodePrim(p, v)
    case EVecPrim(p) => if v.VVec? then Append(Some(W.VectorHeader(|v.items|)), EncodePrims(p, v.items)) else None
    case EVecNothing => if v.VVec? then Some(W.VectorHeader(|v.items|)) else None
    case EVecObj => if v.VVec? then Append(Some(W.VectorHeader(|v.items|)), EncodeItems(s, v.items)) else None
    case EObj => EncodeRef(s, v)
  }

  function EncodeRef(s: Schema, v: Value): (r: Option<seq<byte>>)
    decreases v, 1
  {
    if v.VObj? && |v.fields| == |v.def.params| then EncodeObj(s, v) else None
  }

  function EncodePrims(p: Prim, items: seq<Value>): (r: Option<seq<byte>>)
  {
    if |items| == 0 then Some([]) else Append(EncodePrim(p, items[0]), EncodePrims(p, items[1..]))
  }

  function EncodeItems(s: Schema, items: seq<Value>): (r: Option<seq<byte>>)
    decreases items, 0
  {
    if |items| == 0 then Some([]) else Append(EncodeRef(s, items[0]), EncodeItems(s, items[1..]))
  }

  // ---- Decode ----

  function Lift<T>(r: W.Read<T>, f: T -> Value): (q: W.Read<Value>)
  {
    match r case Ok(x, rest) => W.Ok(f(x), rest) case Fail(e) => W.Fail(e)
  }

  function DecodePrim(p: Prim, b: seq<byte>): (r: W.Read<Value>)
    ensures r.Ok? ==> |r.rest| <= |b| - 4
  {
    match p
    case PInt => Lift(W.ReadInt(b), i => VInt(i))
    case PLong => Lift(W.ReadLong(b), l => VLong(l))
    case PDouble => Lift(W.ReadUint64(b), d => VDouble(d))
    case PString => Lift(W.ReadBytes(b), s => VString(s))
    case PBytes => Lift(W.ReadBytes(b), s => VBytes(s))
    case PBool => Lift(W.ReadBool(b), on => VBool(on))
    case PInt128 => Lift(W.ReadRaw(b, 16), r => VRaw(r))
    case PInt256 => Lift(W.ReadRaw(b, 32), r => VRaw(r))
  }

  function FindCtor(ctors: seq<Definition>, id: nat): (r: Option<Definition>)
    ensures r.Some? ==> r.value in ctors && r.value.id == id
  {
    if |ctors| == 0 then None else if ctors[0].id == id then Some(ctors[0]) else FindCtor(ctors[1..], id)
  }

  /** Decode of a struct: every object consumes its 4-byte constructor id, so nesting ends. */
  function DecodeObj(s: Schema, d: Definition, b: seq<byte>): (r: W.Read<Value>)
    ensures r.Ok? ==> |r.rest| <= |b| - 4
    decreases |b|, 1, 0
  {
    match W.ReadUint(b)
    case Fail(e) => W.Fail(e)
    case Ok(id, b') =>
      if id != CodeFor(s, d).id then W.Fail(W.WrongConstructor)
      else
        match DecodeFields(s, CodeFor(s, d).dec, 0, b')
        case Fail(e) => W.Fail(e)
        case Ok((flags, fields), rest) => W.Ok(VObj(d, flags, fields), rest)
  }

  /** The value of a field that Decode does not assign. */
  function Zero(op: DecOp): (v: Value)
  {
    match op
    case DPrim(PInt) => VInt(0)
    case DPrim(PLong) => VLong(0)
    case DPrim(PDouble) => VDouble(0)
    case DPrim(PString) => VString([])
    case DPrim(PBytes) => VBytes([])
    case DPrim(PBool) => VBool(false)
    case DPrim(PInt128) => VRaw(W.Zeros(16))
    case DPrim(PInt256) => VRaw(W.Zeros(32))
    case DObj(_, _) => VNil
    case _ => VVec([])
  }

  function DecodeFields(s: Schema, steps: seq<DecStep>, flags: nat, b: seq<byte>): (r: W.Read<(nat, seq<Value>)>)
    ensures r.Ok? ==> |r.rest| <= |b| && |r.value.1| == |steps|
    decreases |b|, 5, |steps|
  {
    if |steps| == 0 then W.Ok((flags, []), b)
    else
      match DecodeStep(s, steps[0], flags, b)
      case Fail(e) => W.Fail(e)
      case Ok((flags', v), b') =>
        match DecodeFields(s, steps[1..], flags', b')
        case Fail(e) => W.Fail(e)
        case Ok((f, vs), rest) => W.Ok((f, [v] + vs), rest)
  }

  /** One step: the flags word after it, and the value of its field. */
  function DecodeStep(s: Schema, step: DecStep, flags: nat, b: seq<byte>): (r: W.Read<(nat, Value)>)
    ensures r.Ok? ==> |r.rest| <= |b|
    decreases |b|, 5, 0
  {
    match step
    case GetFlags => (match W.ReadUint(b) case Ok(f, b') => W.Ok((f, VFlags), b') case Fail(e) => W.Fail(e))
    case GetTrue(bit) => W.Ok((flags, VBool(Bit(flags, bit))), b)
    case Get(op) => (match DecodeData(s, op, b) case Ok(v, b') => W.Ok((flags, v), b') case Fail(e) => W.Fail(e))
    case GetIf(bit, op) =>
      if !Bit(flags, bit) then W.Ok((flags, Zero(op)), b)
      else (match DecodeData(s, op, b) case Ok(v, b') => W.Ok((flags, v), b') case Fail(e) => W.Fail(e))
  }

  function DecodeData(s: Schema, op: DecOp, b: seq<byte>): (r: W.Read<Value>)
    ensures r.Ok? ==> |r.rest| <= |b| - 4
    decreases |b|, 4, 0
  {
    match op
    case DPrim(p) => DecodePrim(p, b)
    case DObj(t, poly) => DecodeRef(s, t, poly, b)
    case _ =>
      match W.ReadVectorHeader(b)
      case Fail(e) => W.Fail(e)
      case Ok(n, b') =>
        match DecodeElems(s, op, n, b')
        case Ok(vs, rest) => W.Ok(VVec(vs), rest)
        case Fail(e) => W.Fail(e)
  }

  function DecodeElems(s: Schema, op: DecOp, n: nat, b: seq<byte>): (r: W.Read<seq<Value>>)
    ensures r.Ok? ==> |r.rest| <= |b|
    decreases |b|, 4, 0
  {
    if op.DVecPrim? then DecodePrims(op.p, n, b)
    else if op.DVecObj? then DecodeItems(s, op.t, op.poly, n, b)
    else W.Ok([], b)
  }

  function DecodePrims(p: Prim, n: nat, b: seq<byte>): (r: W.Read<seq<Value>>)
    ensures r.Ok? ==> |r.rest| <= |b|
    decreases n
  {
    if n == 0 then W.Ok([], b)
    else
      match DecodePrim(p, b)
      case Fail(e) => W.Fail(e)
      case Ok(v, b') =>
        match DecodePrims(p, n - 1, b')
        case Fail(e) => W.Fail(e)
        case Ok(vs, rest) => W.Ok([v] + vs, rest)
  }

  function DecodeItems(s: Schema, t: string, poly: bool, n: nat, b: seq<byte>): (r: W.Read<seq<Value>>)
    ensures r.Ok? ==> |r.rest| <= |b|
    decreases |b|, 3, n
  {
    if n == 0 then W.Ok([], b)
    else
      match DecodeRef(s, t, poly, b)
      case Fail(e) => W.Fail(e)
      case Ok(v, b') =>
        match DecodeItems(s, t, poly, n - 1, b')
        case Fail(e) => W.Fail(e)
        case Ok(vs, rest) => W.Ok([v] + vs, rest)
  }

  /** A boxed value: the id picks the constructor of a sum type; a single constructor decodes itself. */
  function DecodeRef(s: Schema, t: string, poly: bool, b: seq<byte>): (r: W.Read<Value>)
    ensures r.Ok? ==> |r.rest| <= |b| - 4
    decreases |b|, 2, 0
  {
    var ctors := CtorsOf(s.constructors, t);
    if !poly then
      if |ctors| == 1 then DecodeObj(s, ctors[0], b) else W.Fail(W.UnknownConstructor)
    else
      match W.ReadUint(b)
      case Fail(e) => W.Fail(e)
      case Ok(id, _) =>
        match FindCtor(ctors, id)
        case None => W.Fail(W.UnknownConstructor)
        case Some(d) => DecodeObj(s, d, b)
  }

  // ---- Typed values and well-formed schemas ----

  predicate TypedPrim(p: Prim, v: Value)
  {
    match p
    case PInt => v.VInt? && -0x8000_0000 <= v.i < TWO_31
    case PLong => v.VLong? && -0x8000_0000_0000_0000 <= v.l < TWO_63
    case PDouble => v.VDouble? && v.bits < TWO_64
    case PString => v.VString?
    case PBytes => v.VBytes?
    case PBool => v.VBool?
    case PInt128 => v.VRaw? && |v.r| == 16
    case PInt256 => v.VRaw? && |v.r| == 32
  }

  /** v is a value of the Go struct generated for its definition. */
  predicate TypedObj(s: Schema, v: Value)
    decreases v, 0
  {
    && v.VObj? && v.def in s.constructors + s.functions && |v.fields| == |v.def.params|
    && v.flags < TWO_32 && (!HasFlags(v.def.params) ==> v.flags == 0)
    && TypedFields(s, v.def.params, v.fields)
  }

  predicate TypedFields(s: Schema, params: seq<Param>, fields: seq<Value>)
    requires |params| == |fields|
    decreases fields, 0
  {
    |fields| == 0 || (TypedStep(s, DecFor(s, params[0]), fields[0]) && TypedFields(s, params[1..], fields[1..]))
  }

  predicate TypedStep(s: Schema, step: DecStep, v: Value)
    decreases v, 3
  {
    match step
    case GetFlags => v == VFlags
    case GetTrue(_) => v.VBool?
    case Get(op) => TypedData(s, op, v)
    case GetIf(_, op) => TypedData(s, op, v)
  }

  predicate TypedData(s: Schema, op: DecOp, v: Value)
    decreases v, 2
  {
    match op
    case DPrim(p) => TypedPrim(p, v)
    case DVecPrim(p) => v.VVec? && forall i :: 0 <= i < |v.items| ==> TypedPrim(p, v.items[i])
    case DVecObj(t, poly) => v.VVec? && TypedItems(s, t, poly, v.items)
    case DObj(t, poly) => TypedRef(s, t, poly, v)
    case DVecNothing => false
  }

  predicate TypedItems(s: Schema, t: string, poly: bool, items: seq<Value>)
    decreases items, 0
  {
    |items| == 0 || (TypedRef(s, t, poly, items[0]) && TypedItems(s, t, poly, items[1..]))
  }

  /** An interface value is nil or a constructor of its type; a struct value is the one constructor. */
  predicate TypedRef(s: Schema, t: string, poly: bool, v: Value)
    decreases v, 1
  {
    var ctors := CtorsOf(s.constructors, t);
    || (poly && v == VNil)
    || (v.VObj? && v.def in ctors && (!poly ==> |ctors| == 1) && TypedObj(s, v))
  }

  /** Byte strings fit three length bytes and vectors a 31-bit count. */
  predicate Fits(v: Value)
  {
    match v
    case VString(s) => |s| < 0x100_0000
    case VBytes(b) => |b| < 0x100_0000
    case VVec(items) => |items| < TWO_31 && forall i :: 0 <= i < |items| ==> Fits(items[i])
    case VObj(_, _, fields) => forall i :: 0 <= i < |fields| ==> Fits(fields[i])
    case _ => true
  }

  /**
   * The schemas whose generated code compiles and that carry at most one flags word per struct,
   * ahead of the conditional fields; a conditional struct field has an interface type.
   */
  predicate WFParams(s: Schema, params: seq<Param>, seen: bool)
    decreases |params|
  {
    |params| == 0 ||
    var p := params[0];
    if p.typ == "#" then !seen && p.flag.None? && WFParams(s, params[1..], true)
    else
      && (p.flag.Some? ==> seen && p.flag.value.bit < 32)
      && (p.flag.Some? && !p.flag.value.isTrue ==> !(FieldDec(s, p).DObj? && !FieldDec(s, p).poly))
      && WFParams(s, params[1..], seen)
  }

  ghost predicate WFSchema(s: Schema)
  {
    && (forall d :: d in s.constructors + s.functions ==> d.id < TWO_32 && WFParams(s, d.params, false))
    && (forall d, e :: d in s.constructors && e in s.constructors && d.resultType == e.resultType && d.id == e.id
          ==> d == e)
  }

  // ---- What Decode returns: the value with its flags word completed ----

  /** The value Decode gives back: bits decide `true` fields and clear what Encode did not write. */
  function NormalObj(s: Schema, v: Value): (n: Value)
    requires v.VObj? && |v.fields| == |v.def.params|
    decreases v, 0
  {
    VObj(v.def, FlagsOf(s, v), NormalFields(s, CodeFor(s, v.def).dec, FlagsOf(s, v), v.fields))
  }

  function NormalFields(s: Schema, steps: seq<DecStep>, flags: nat, fields: seq<Value>): (r: seq<Value>)
    requires |steps| == |fields|
    ensures |r| == |fields|
    decreases fields, 0
  {
    if |fields| == 0 then []
    else
      [NormalStep(s, steps[0], flags, fields[0])] + NormalFields(s, steps[1..], flags, fields[1..])
  }

  function NormalStep(s: Schema, step: DecStep, flags: nat, v: Value): (n: Value)
    decreases v, 2
  {
    match step
    case GetFlags => VFlags
    case GetTrue(bit) => VBool(Bit(flags, bit))
    case Get(_) => NormalValue(s, v)
    case GetIf(bit, op) => if Bit(flags, bit) then NormalValue(s, v) else Zero(op)
  }

  function NormalValue(s: Schema, v: Value): (n: Value)
    decreases v, 1
  {
    if v.VVec? then VVec(NormalItems(s, v.items))
    else if v.VObj? && |v.fields| == |v.def.params| then NormalObj(s, v)
    else v
  }

  function NormalItems(s: Schema, items: seq<Value>): (r: seq<Value>)
    ensures |r| == |items|
    decreases items, 0
  {
    if |items| == 0 then [] else [NormalValue(s, items[0])] + NormalItems(s, items[1..])
  }

  // ---- Encode followed by Decode ----

  function EncOf(op: DecOp): (e: EncOp)
  {
    match op
    case DPrim(p) => EPrim(p)
    case DVecPrim(p) => EVecPrim(p)
    case DVecNothing => EVecNothing
    case DVecObj(_, _) => EVecObj
    case DObj(_, _) => EObj
  }

  /** The two switches of the generator agree on every parameter. */
  lemma SwitchesAgree(s: Schema, p: Param)
    ensures FieldEnc(p) == EncOf(FieldDec(s, p))
  {
    hide IsPolymorphic;
  }

  lemma PrimRoundTrip(p: Prim, v: Value, rest: seq<byte>)
    requires TypedPrim(p, v) && Fits(v)
    ensures EncodePrim(p, v).Some? && |EncodePrim(p, v).value| >= 4
    ensures DecodePrim(p, EncodePrim(p, v).value + rest) == W.Ok(v, rest)
  {
    hide W.ReadInt, W.ReadLong, W.ReadUint64, W.ReadBytes, W.ReadBool, W.ByteString, LE, FromLE, W.Int, W.Long, W.Bool;
    match p
    case PInt => W.IntRoundTrip(v.i, rest);
    case PLong => W.LongRoundTrip(v.l, rest);
    case PDouble => DoubleRoundTrip(v.bits, rest);
    case PString => W.ByteStringRoundTrip(v.s, rest);
    case PBytes => W.ByteStringRoundTrip(v.b, rest);
    case PBool => W.BoolRoundTrip(v.on, rest);
    case PInt128 => assert (v.r + rest)[..16] == v.r && (v.r + rest)[16..] == rest;
    case PInt256 => assert (v.r + rest)[..32] == v.r && (v.r + rest)[32..] == rest;
  }

  lemma DoubleRoundTrip(d: nat, rest: seq<byte>)
    requires d < TWO_64
    ensures W.ReadUint64(LE(8, d) + rest) == W.Ok(d, rest)
  {
    hide LE, FromLE;
    var b := LE(8, d) + rest;
    assert b[..8] == LE(8, d) && b[8..] == rest;
    ReadBack(b[..8], 8, d);
  }

  lemma {:induction false} PrimsRoundTrip(p: Prim, items: seq<Value>, rest: seq<byte>)
    requires forall i :: 0 <= i < |items| ==> TypedPrim(p, items[i]) && Fits(items[i])
    ensures EncodePrims(p, items).Some? && |EncodePrims(p, items).value| >= 4 * |items|
    ensures DecodePrims(p, |items|, EncodePrims(p, items).value + rest) == W.Ok(items, rest)
    decreases |items|
  {
    hide EncodePrim, DecodePrim, TypedPrim, Fits;
    if |items| == 0 {
      assert [] + rest == rest;
    } else {
      PrimsRoundTrip(p, items[1..], rest);
      var tail := EncodePrims(p, items[1..]).value;
      PrimRoundTrip(p, items[0], tail + rest);
      var head := EncodePrim(p, items[0]).value;
      assert head + tail + rest == head + (tail + rest);
      assert [items[0]] + items[1..] == items;
    }
  }

  lemma HasFlagsStep(params: seq<Param>)
    requires |params| > 0
    ensures HasFlags(params) <==> params[0].typ == "#" || HasFlags(params[1..])
  {
    if HasFlags(params[1..]) {
      var j :| 0 <= j < |params[1..]| && params[1..][j].typ == "#";
      assert params[j + 1].typ == "#";
    }
    if HasFlags(params) && params[0].typ != "#" {
      var j :| 0 <= j < |params| && params[j].typ == "#";
      assert params[1..][j - 1].typ == "#";
    }
  }

  lemma FindCtorOf(ctors: seq<Definition>, d: Definition)
    requires d in ctors && forall e :: e in ctors && e.id == d.id ==> e == d
    ensures FindCtor(ctors, d.id) == Some(d)
  {
    if ctors[0].id != d.id {
      FindCtorOf(ctors[1..], d);
    }
  }

  lemma {:induction false} RunOrBound(s: Schema, params: seq<Param>, or: seq<OrStep>, fields: seq<Value>,
      flags: nat, seen: bool)
    requires |params| == |or| == |fields| && WFParams(s, params, seen) && flags < TWO_32
    requires forall i :: 0 <= i < |or| ==> or[i] == NoOr || or[i] == OrFor(params[i])
    ensures RunOr(or, fields, flags) < TWO_32
    decreases |or|
  {
    if |or| > 0 {
      PowTwo32();
      var next := if Sets(or[0], fields[0]) then SetBit(flags, or[0].bit) else flags;
      if Sets(or[0], fields[0]) {
        SetBitBound(flags, or[0].bit, 32);
      }
      RunOrBound(s, params[1..], or[1..], fields[1..], next, seen || params[0].typ == "#");
    }
  }

  lemma {:induction false} RunOrNothing(or: seq<OrStep>, fields: seq<Value>, flags: nat)
    requires |or| == |fields| && forall i :: 0 <= i < |or| ==> or[i] == NoOr
    ensures RunOr(or, fields, flags) == flags
    decreases |or|
  {
    if |or| > 0 {
      RunOrNothing(or[1..], fields[1..], flags);
    }
  }

  lemma FlagsOfBound(s: Schema, v: Value)
    requires WFSchema(s) && TypedObj(s, v)
    ensures FlagsOf(s, v) < TWO_32 && (!HasFlags(v.def.params) ==> FlagsOf(s, v) == 0)
  {
    var or := CodeFor(s, v.def).or;
    if HasFlags(v.def.params) {
      RunOrBound(s, v.def.params, or, v.fields, v.flags, false);
    } else {
      RunOrNothing(or, v.fields, v.flags);
    }
  }

  /** Decode on the encoding of any typed value followed by rest gives its normal form and rest. */
  lemma {:induction false} ObjRoundTrip(s: Schema, v: Value, rest: seq<byte>)
    requires WFSchema(s) && TypedObj(s, v) && Fits(v) && EncodeObj(s, v).Some?
    ensures |EncodeObj(s, v).value| >= 4
    ensures DecodeObj(s, v.def, EncodeObj(s, v).value + rest) == W.Ok(NormalObj(s, v), rest)
    decreases v, 0
  {
    hide EncodeFields, DecodeFields, NormalFields, TypedFields, W.ReadUint, W.Uint, FlagsOf, WFParams, HasFlags;
    var code, f := CodeFor(s, v.def), FlagsOf(s, v);
    FlagsOfBound(s, v);
    var body := EncodeFields(s, code.enc, f, v.fields).value;
    assert W.Uint(code.id) + body + rest == W.Uint(code.id) + (body + rest);
    W.UintRoundTrip(code.id, body + rest);
    FieldsRoundTrip(s, v.def.params, code.enc, code.dec, false, f, 0, v.fields, rest);
  }

  lemma {:induction false} FieldsRoundTrip(s: Schema, params: seq<Param>, enc: seq<EncStep>, dec: seq<DecStep>,
      seen: bool, f: nat, flags: nat, fields: seq<Value>, rest: seq<byte>)
    requires |params| == |enc| == |dec| == |fields| && WFSchema(s)
    requires forall i :: 0 <= i < |params| ==> enc[i] == EncFor(params[i]) && dec[i] == DecFor(s, params[i])
    requires WFParams(s, params, seen) && TypedFields(s, params, fields) && f < TWO_32 && (seen ==> flags == f)
    requires forall i :: 0 <= i < |fields| ==> Fits(fields[i])
    requires EncodeFields(s, enc, f, fields).Some?
    ensures DecodeFields(s, dec, flags, EncodeFields(s, enc, f, fields).value + rest)
         == W.Ok((if HasFlags(params) then f else flags, NormalFields(s, dec, f, fields)), rest)
    decreases fields, 0
  {
    hide EncFor, DecFor, EncodeStep, TypedStep, DecodeStep, NormalStep, Fits, WFSchema;
    if |fields| == 0 {
      assert [] + rest == rest;
    } else {
      var p := params[0];
      var head, tail := EncodeStep(s, enc[0], f, fields[0]).value, EncodeFields(s, enc[1..], f, fields[1..]).value;
      var b := EncodeFields(s, enc, f, fields).value;
      assert b + rest == head + (tail + rest);
      StepRoundTrip(s, p, seen, f, flags, fields[0], tail + rest);
      HasFlagsStep(params);
      var seen' := seen || p.typ == "#";
      FieldsRoundTrip(s, params[1..], enc[1..], dec[1..], seen', f,
        if p.typ == "#" then f else flags, fields[1..], rest);
    }
  }

  lemma {:induction false} StepRoundTrip(s: Schema, p: Param, seen: bool, f: nat, flags: nat, v: Value, rest: seq<byte>)
    requires WFSchema(s) && WFParams(s, [p], seen) && TypedStep(s, DecFor(s, p), v) && Fits(v)
    requires f < TWO_32 && (seen ==> flags == f) && EncodeStep(s, EncFor(p), f, v).Some?
    ensures DecodeStep(s, DecFor(s, p), flags, EncodeStep(s, EncFor(p), f, v).value + rest)
         == W.Ok((if p.typ == "#" then f else flags, NormalStep(s, DecFor(s, p), f, v)), rest)
    decreases v, 3
  {
    hide EncodeData, DecodeData, TypedData, NormalValue, Fits, WFSchema, W.ReadUint, W.Uint, FieldEnc, FieldDec;
    SwitchesAgree(s, p);
    var b := EncodeStep(s, EncFor(p), f, v).value;
    if p.typ == "#" {
      W.UintRoundTrip(f, rest);
    } else if p.flag.Some? && (p.flag.value.isTrue || !Bit(f, p.flag.value.bit)) {
      assert b + rest == rest;
    } else {
      DataRoundTrip(s, FieldDec(s, p), v, rest);
    }
  }

  lemma {:induction false} DataRoundTrip(s: Schema, op: DecOp, v: Value, rest: seq<byte>)
    requires WFSchema(s) && TypedData(s, op, v) && Fits(v) && EncodeData(s, EncOf(op), v).Some?
    ensures DecodeData(s, op, EncodeData(s, EncOf(op), v).value + rest) == W.Ok(NormalValue(s, v), rest)
    decreases v, 2
  {
    hide EncodePrim, DecodePrim, TypedPrim, EncodePrims, DecodePrims, EncodeItems, DecodeItems, TypedItems,
         EncodeRef, DecodeRef, TypedRef, WFSchema, W.ReadVectorHeader, W.VectorHeader, NormalObj, NormalItems;
    match op
    case DPrim(p) =>
      PrimRoundTrip(p, v, rest);
      NormalPrim(s, p, v);
    case DVecPrim(p) =>
      PrimsRoundTrip(p, v.items, rest);
      NormalPrims(s, p, v.items);
      VectorBytes(|v.items|, EncodePrims(p, v.items).value, rest);
    case DVecObj(t, poly) =>
      ItemsRoundTrip(s, t, poly, v.items, rest);
      VectorBytes(|v.items|, EncodeItems(s, v.items).value, rest);
    case DObj(t, poly) =>
      RefRoundTrip(s, t, poly, v, rest);
  }

  lemma VectorBytes(n: nat, body: seq<byte>, rest: seq<byte>)
    requires n < TWO_31 && |body| >= 4 * n
    ensures W.ReadVectorHeader(W.VectorHeader(n) + body + rest) == W.Ok(n, body + rest)
  {
    hide W.ReadVectorHeader, W.VectorHeader;
    assert W.VectorHeader(n) + body + rest == W.VectorHeader(n) + (body + rest);
    W.VectorHeaderRoundTrip(n, body + rest);
  }

  lemma NormalPrim(s: Schema, p: Prim, v: Value)
    requires TypedPrim(p, v)
    ensures NormalValue(s, v) == v
  {
  }

  lemma {:induction false} NormalPrims(s: Schema, p: Prim, items: seq<Value>)
    requires forall i :: 0 <= i < |items| ==> TypedPrim(p, items[i])
    ensures NormalItems(s, items) == items
    decreases |items|
  {
    if |items| > 0 {
      NormalPrim(s, p, items[0]);
      NormalPrims(s, p, items[1..]);
    }
  }

  lemma {:induction false} ItemsRoundTrip(s: Schema, t: string, poly: bool, items: seq<Value>, rest: seq<byte>)
    requires WFSchema(s) && TypedItems(s, t, poly, items) && (forall i :: 0 <= i < |items| ==> Fits(items[i]))
    requires EncodeItems(s, items).Some?
    ensures |EncodeItems(s, items).value| >= 4 * |items|
    ensures DecodeItems(s, t, poly, |items|, EncodeItems(s, items).value + rest) == W.Ok(NormalItems(s, items), rest)
    decreases items, 0
  {
    hide EncodeRef, DecodeRef, TypedRef, Fits, WFSchema, NormalValue;
    if |items| == 0 {
      assert [] + rest == rest;
    } else {
      ItemsRoundTrip(s, t, poly, items[1..], rest);
      var head, tail := EncodeRef(s, items[0]).value, EncodeItems(s, items[1..]).value;
      RefRoundTrip(s, t, poly, items[0], tail + rest);
      var b := EncodeItems(s, items).value;
      assert b + rest == head + (tail + rest);
      assert |b| == |head| + |tail|;
    }
  }

  lemma {:induction false} RefRoundTrip(s: Schema, t: string, poly: bool, v: Value, rest: seq<byte>)
    requires WFSchema(s) && TypedRef(s, t, poly, v) && Fits(v) && EncodeRef(s, v).Some?
    ensures |EncodeRef(s, v).value| >= 4
    ensures DecodeRef(s, t, poly, EncodeRef(s, v).value + rest) == W.Ok(NormalValue(s, v), rest)
    decreases v, 1
  {
    hide DecodeObj, NormalObj, TypedFields, EncodeFields, W.ReadUint, W.Uint, Fits, FlagsOf, CodeFor;
    ObjRoundTrip(s, v, rest);
    var ctors := CtorsOf(s.constructors, t);
    var b := EncodeObj(s, v).value;
    if poly {
      FindCtorOf(ctors, v.def);
      IdFirst(s, v, rest);
    }
  }

  /** The encoding of an object starts with its constructor id. */
  lemma IdFirst(s: Schema, v: Value, rest: seq<byte>)
    requires v.VObj? && |v.fields| == |v.def.params| && v.def.id < TWO_32 && EncodeObj(s, v).Some?
    ensures W.ReadUint(EncodeObj(s, v).value + rest).Ok?
    ensures W.ReadUint(EncodeObj(s, v).value + rest).value == v.def.id
  {
    hide EncodeFields, W.ReadUint, W.Uint, FlagsOf;
    var body := EncodeFields(s, CodeFor(s, v.def).enc, FlagsOf(s, v), v.fields).value;
    assert EncodeObj(s, v).value + rest == W.Uint(v.def.id) + (body + rest);
    W.UintRoundTrip(v.def.id, body + rest);
  }
}
