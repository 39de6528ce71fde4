/** The TL serialization of typed values, by the names of their types, and the generated code's agreement with it. */
module Serialization {
  import opened Bytes
  import opened Schemas
  import opened Generator
  import opened Codec
  import opened RoundTrip
  import W = Wire

  // ---- Values by type name ----

  predicate Named(t: string)
  {
    t in ["int", "long", "double", "string", "bytes", "Bool", "int128", "int256"]
  }

  /** The element types a vector writes one after the other without constructor ids. */
  predicate NamedElem(t: string) { t in ["int", "long", "string", "bytes"] }

  /** The values of a named type. */
  predicate SimpleValue(t: string, v: Value)
  {
    || (t == "int" && v.VInt? && -0x8000_0000 <= v.i < 0x8000_0000)
    || (t == "long" && v.VLong? && -0x8000_0000_0000_0000 <= v.l < 0x8000_0000_0000_0000)
    || (t == "double" && v.VDouble? && v.bits < 0x1_0000_0000_0000_0000)
    || (t == "string" && v.VString?)
    || (t == "bytes" && v.VBytes?)
    || (t == "Bool" && v.VBool?)
    || (t == "int128" && v.VRaw? && |v.r| == 16)
    || (t == "int256" && v.VRaw? && |v.r| == 32)
  }

  /** The type has more than one constructor. */
  ghost predicate IsSum(s: Schema, t: string)
  {
    exists i, j :: 0 <= i < j < |s.constructors| &&
      s.constructors[i].resultType == t && s.constructors[j].resultType == t
  }

  /** A struct whose fields have the types its definition names. */
  ghost predicate WellTyped(s: Schema, v: Value)
    decreases v, 0
  {
    && v.VObj? && v.def in s.constructors + s.functions && |v.fields| == |v.def.params| && v.flags < 0x1_0000_0000
    && ((forall i :: 0 <= i < |v.def.params| ==> v.def.params[i].typ != "#") ==> v.flags == 0)
    && FieldsTyped(s, v.def.params, v.fields)
  }

  ghost predicate FieldsTyped(s: Schema, params: seq<Param>, fields: seq<Value>)
    requires |params| == |fields|
    decreases fields, 0
  {
    |fields| == 0 || (FieldTyped(s, params[0], fields[0]) && FieldsTyped(s, params[1..], fields[1..]))
  }

  ghost predicate FieldTyped(s: Schema, p: Param, v: Value)
    decreases v, 2
  {
    if p.typ == "#" then v == VFlags
    else if p.flag.Some? && p.flag.value.isTrue then v.VBool?
    else if Named(p.typ) then SimpleValue(p.typ, v)
    else if !p.isVector then BoxedTyped(s, p.typ, v)
    else if !v.VVec? || p.elemType in ["double", "int128", "int256"] then false
    else if NamedElem(p.elemType) then forall i :: 0 <= i < |v.items| ==> SimpleValue(p.elemType, v.items[i])
    else BoxedItems(s, p.elemType, v.items)
  }

  /** A constructor of the type; nil as well if the type is a sum. */
  ghost predicate BoxedTyped(s: Schema, t: string, v: Value)
    decreases v, 1
  {
    || (v == VNil && IsSum(s, t))
    || (v.VObj? && v.def in s.constructors && v.def.resultType == t && WellTyped(s, v))
  }

  ghost predicate BoxedItems(s: Schema, t: string, items: seq<Value>)
    decreases items, 0
  {
    |items| == 0 || (BoxedTyped(s, t, items[0]) && BoxedItems(s, t, items[1..]))
  }

  // ---- The serialization ----

  /** Little-endian words, length-prefixed strings, the two Bool constructors, raw 128 and 256 bits. */
  function SimpleBytes(t: string, v: Value): (r: Option<seq<byte>>)
  {
    if t == "int" && v.VInt? then Some(LE(4, v.i % 0x1_0000_0000))
    else if t == "long" && v.VLong? then Some(LE(8, v.l % 0x1_0000_0000_0000_0000))
    else if t == "double" && v.VDouble? then Some(LE(8, v.bits))
    else if t == "string" && v.VString? then Some(W.ByteString(v.s))
    else if t == "bytes" && v.VBytes? then Some(W.ByteString(v.b))
    else if t == "Bool" && v.VBool? then Some(LE(4, if v.on then 0x997275b5 else 0xbc799737))
    else if t == "int128" && v.VRaw? && |v.r| == 16 then Some(v.r)
    else if t == "int256" && v.VRaw? && |v.r| == 32 then Some(v.r)
    else None
  }

  /** A field that puts its bit into the flags word: true, a boxed value, or something not empty. */
  predicate Present(p: Param, v: Value)
  {
    p.flag.Some? &&
    if p.flag.value.isTrue then v == VBool(true)
    else v.VObj? || (v.VString? && |v.s| > 0) || (v.VBytes? && |v.b| > 0) || (v.VVec? && |v.items| > 0)
  }

  function WordOf(params: seq<Param>, fields: seq<Value>, f: nat): (g: nat)
    requires |params| == |fields|
    decreases |params|
  {
    if |params| == 0 then f
    else
      var g := if Present(params[0], fields[0]) then SetBit(f, params[0].flag.value.bit) else f;
      WordOf(params[1..], fields[1..], g)
  }

  /** The flags word that is written: untouched in a struct without one. */
  function Word(v: Value): (g: nat)
    requires v.VObj? && |v.fields| == |v.def.params|
  {
    if forall i :: 0 <= i < |v.def.params| ==> v.def.params[i].typ != "#" then v.flags
    else WordOf(v.def.params, v.fields, v.flags)
  }

  /** Constructor id, then the fields in order. */
  function ObjBytes(v: Value): (r: Option<seq<byte>>)
    decreases v, 0
  {
    if v.VObj? && |v.fields| == |v.def.params| then
      Append(Some(LE(4, v.def.id)), FieldsBytes(v.def.params, Word(v), v.fields))
    else None
  }

  function FieldsBytes(params: seq<Param>, f: nat, fields: seq<Value>): (r: Option<seq<byte>>)
    requires |params| == |fields|
    decreases fields, 0
  {
    if |fields| == 0 then Some([])
    else Append(FieldBytes(params[0], f, fields[0]), FieldsBytes(params[1..], f, fields[1..]))
  }

  /** The flags word, nothing for a `true` field, and a conditional field only if its bit is set. */
  function FieldBytes(p: Param, f: nat, v: Value): (r: Option<seq<byte>>)
    decreases v, 2
  {
    if p.typ == "#" then Some(LE(4, f))
    else if p.flag.Some? && p.flag.value.isTrue then Some([])
    else if p.flag.Some? && !Bit(f, p.flag.value.bit) then Some([])
    else if Named(p.typ) then SimpleBytes(p.typ, v)
    else if !p.isVector then ObjBytes(v)
    else if v.VVec? then
      Append(Some(LE(4, 0x1cb5c415) + LE(4, |v.items| % 0x1_0000_0000)),
        if NamedElem(p.elemType) then SimpleItems(p.elemType, v.items) else ItemsBytes(v.items))
    else None
  }

  function SimpleItems(t: string, items: seq<Value>): (r: Option<seq<byte>>)
  {
    if |items| == 0 then Some([]) else Append(SimpleBytes(t, items[0]), SimpleItems(t, items[1..]))
  }

  function ItemsBytes(items: seq<Value>): (r: Option<seq<byte>>)
    decreases items, 0
  {
    if |items| == 0 then Some([]) else Append(ObjBytes(items[0]), ItemsBytes(items[1..]))
  }

  /** Field i is present and has bit k. */
  predicate Marks(params: seq<Param>, fields: seq<Value>, i: nat, k: nat)
    requires i < |params| == |fields|
  {
    Present(params[i], fields[i]) && params[i].flag.value.bit == k
  }

  /** Bit k of the word is the bit it had, or some field present with that number. */
  lemma {:induction false} WordBits(params: seq<Param>, fields: seq<Value>, f: nat, k: nat)
    requires |params| == |fields|
    ensures Bit(WordOf(params, fields, f), k) <==>
      Bit(f, k) || exists i :: 0 <= i < |params| && Marks(params, fields, i, k)
    decreases |params|
  {
    hide Bit, SetBit;
    if |params| > 0 {
      var p, v := params[0], fields[0];
      var ps, vs := params[1..], fields[1..];
      var g := if Present(p, v) then SetBit(f, p.flag.value.bit) else f;
      WordBits(ps, vs, g, k);
      if Present(p, v) {
        SetBitBits(f, p.flag.value.bit, k);
      }
      assert Marks(params, fields, 0, k) <==> Present(p, v) && p.flag.value.bit == k;
      forall i | 0 <= i < |ps| ensures Marks(ps, vs, i, k) <==> Marks(params, fields, i + 1, k) {}
      if i :| 0 <= i < |params| && Marks(params, fields, i, k) {
        if i > 0 {
          assert Marks(ps, vs, i - 1, k);
        }
      }
    }
  }

  // ---- The generated code writes it ----

  /**
   * For every well-formed schema and every well-typed value, the generated Encode writes the TL serialization,
   * and fails only where that does not exist: at a nil.
   */
  lemma {:induction false} EncodeIsTl(s: Schema, v: Value)
    requires WFSchema(s) && WellTyped(s, v)
    ensures EncodeObj(s, v) == ObjBytes(v) && FlagsOf(s, v) == Word(v)
    decreases v, 0
  {
    hide WFSchema, FieldsTyped, FieldsBytes, EncodeFields, WordOf, RunOr, LE;
    var code := CodeFor(s, v.def);
    var ps := v.def.params;
    WordIsRun(s, v);
    FieldsAreTl(s, ps, code.enc, Word(v), v.fields);
  }

  lemma WordIsRun(s: Schema, v: Value)
    requires WFSchema(s) && WellTyped(s, v)
    ensures FlagsOf(s, v) == Word(v)
  {
    hide FieldsTyped, WordOf, RunOr, WFParams;
    var ps, or := v.def.params, CodeFor(s, v.def).or;
    if HasFlags(ps) {
      PlainFlags(s, ps, false);
      RunIsWord(s, ps, or, v.fields, v.flags);
    } else {
      RunOrNothing(or, v.fields, v.flags);
    }
  }

  /** In a well-formed definition the flags word itself is unconditional. */
  lemma {:induction false} PlainFlags(s: Schema, params: seq<Param>, seen: bool)
    requires WFParams(s, params, seen)
    ensures forall i :: 0 <= i < |params| && params[i].typ == "#" ==> params[i].flag.None?
    decreases |params|
  {
    hide FieldDec;
    if |params| > 0 {
      PlainFlags(s, params[1..], seen || params[0].typ == "#");
      assert forall i :: 0 < i < |params| ==> params[i] == params[1..][i - 1];
    }
  }

  lemma {:induction false} RunIsWord(s: Schema, params: seq<Param>, or: seq<OrStep>, fields: seq<Value>, f: nat)
    requires |params| == |or| == |fields| && FieldsTyped(s, params, fields)
    requires forall i :: 0 <= i < |params| ==> or[i] == OrFor(params[i])
    requires forall i :: 0 <= i < |params| && params[i].typ == "#" ==> params[i].flag.None?
    ensures RunOr(or, fields, f) == WordOf(params, fields, f)
    decreases |params|
  {
    hide FieldTyped, OrFor, Present, Sets, SetBit;
    if |params| > 0 {
      SetsIsPresent(s, params[0], fields[0]);
      var g := if Sets(or[0], fields[0]) then SetBit(f, or[0].bit) else f;
      RunIsWord(s, params[1..], or[1..], fields[1..], g);
    }
  }

  lemma SetsIsPresent(s: Schema, p: Param, v: Value)
    requires FieldTyped(s, p, v) && (p.typ == "#" ==> p.flag.None?)
    ensures Sets(OrFor(p), v) <==> Present(p, v)
    ensures Sets(OrFor(p), v) ==> p.flag.Some? && !OrFor(p).NoOr? && OrFor(p).bit == p.flag.value.bit
  {
    hide BoxedItems, WellTyped, IsSum;
  }

  lemma {:induction false} FieldsAreTl(s: Schema, params: seq<Param>, enc: seq<EncStep>, f: nat, fields: seq<Value>)
    requires WFSchema(s)
    requires |params| == |enc| == |fields| && FieldsTyped(s, params, fields)
    requires forall i :: 0 <= i < |params| ==> enc[i] == EncFor(params[i])
    ensures EncodeFields(s, enc, f, fields) == FieldsBytes(params, f, fields)
    decreases fields, 0
  {
    hide WFSchema, FieldTyped, EncFor, EncodeStep, FieldBytes;
    if |fields| > 0 {
      FieldIsTl(s, params[0], f, fields[0]);
      FieldsAreTl(s, params[1..], enc[1..], f, fields[1..]);
    }
  }

  lemma {:induction false} FieldIsTl(s: Schema, p: Param, f: nat, v: Value)
    requires WFSchema(s)
    requires FieldTyped(s, p, v)
    ensures EncodeStep(s, EncFor(p), f, v) == FieldBytes(p, f, v)
    decreases v, 2
  {
    hide WFSchema, LE, Bit, SimpleBytes, SimpleItems, ItemsBytes, ObjBytes;
    hide EncodePrim, EncodePrims, EncodeItems, EncodeRef, SimpleValue, BoxedTyped, BoxedItems;
    if p.typ == "#" || (p.flag.Some? && p.flag.value.isTrue) {
    } else if Named(p.typ) {
      SimpleIsTl(p.typ, v);
    } else if !p.isVector {
      NotNamed(p.typ);
      BoxedIsTl(s, p.typ, v);
    } else {
      NotNamed(p.typ);
      if NamedElem(p.elemType) {
        ElemsAreTl(p.elemType, v.items);
      } else {
        NotNamedElem(p.elemType);
        BoxedItemsAreTl(s, p.elemType, v.items);
      }
    }
  }

  lemma NotNamed(t: string)
    requires !Named(t)
    ensures FieldPrim(t) == None
  {
  }

  lemma NotNamedElem(t: string)
    requires !NamedElem(t) && !(t in ["double", "int128", "int256"])
    ensures !IsPrimitiveType(t)
  {
  }

  lemma SimpleIsTl(t: string, v: Value)
    requires Named(t) && SimpleValue(t, v)
    ensures FieldPrim(t).Some? && EncodePrim(FieldPrim(t).value, v) == SimpleBytes(t, v)
  {
    hide LE;
  }

  lemma {:induction false} ElemsAreTl(t: string, items: seq<Value>)
    requires NamedElem(t) && forall i :: 0 <= i < |items| ==> SimpleValue(t, items[i])
    ensures IsPrimitiveType(t) && ElemPrim(t).Some? && EncodePrims(ElemPrim(t).value, items) == SimpleItems(t, items)
    decreases |items|
  {
    hide EncodePrim, SimpleBytes, LE, SimpleValue;
    if |items| > 0 {
      SimpleIsTl(t, items[0]);
      ElemsAreTl(t, items[1..]);
    }
  }

  lemma {:induction false} BoxedIsTl(s: Schema, t: string, v: Value)
    requires WFSchema(s)
    requires BoxedTyped(s, t, v)
    ensures EncodeRef(s, v) == ObjBytes(v)
    decreases v, 1
  {
    hide WFSchema, WellTyped, EncodeObj, IsSum;
    if v.VObj? {
      EncodeIsTl(s, v);
      assert |v.fields| == |v.def.params| by { TypedArity(s, v); }
    }
  }

  lemma TypedArity(s: Schema, v: Value)
    requires WellTyped(s, v)
    ensures v.VObj? && |v.fields| == |v.def.params|
  {
  }

  lemma {:induction false} BoxedItemsAreTl(s: Schema, t: string, items: seq<Value>)
    requires WFSchema(s)
    requires BoxedItems(s, t, items)
    ensures EncodeItems(s, items) == ItemsBytes(items)
    decreases items, 0
  {
    hide WFSchema, BoxedTyped, EncodeRef, ObjBytes;
    if |items| > 0 {
      BoxedIsTl(s, t, items[0]);
      BoxedItemsAreTl(s, t, items[1..]);
    }
  }

  // ---- Typed by name is what the generated code takes ----

  lemma {:induction false} SumIff(ctors: seq<Definition>, t: string)
    ensures |CtorsOf(ctors, t)| >= 1 <==> exists i :: 0 <= i < |ctors| && ctors[i].resultType == t
    ensures |CtorsOf(ctors, t)| > 1 <==>
      exists i, j :: 0 <= i < j < |ctors| && ctors[i].resultType == t && ctors[j].resultType == t
    decreases |ctors|
  {
    if |ctors| > 0 {
      var rest := ctors[1..];
      SumIff(rest, t);
      if i :| 0 <= i < |rest| && rest[i].resultType == t {
        assert ctors[i + 1].resultType == t;
      }
      if i, j :| 0 <= i < j < |rest| && rest[i].resultType == t && rest[j].resultType == t {
        assert ctors[i + 1].resultType == t && ctors[j + 1].resultType == t;
      }
      if i :| 0 < i < |ctors| && ctors[i].resultType == t {
        assert rest[i - 1].resultType == t;
      }
      if i, j :| 0 < i < j < |ctors| && ctors[i].resultType == t && ctors[j].resultType == t {
        assert rest[i - 1].resultType == t && rest[j - 1].resultType == t;
      }
    }
  }

  lemma {:induction false} CtorsIff(ctors: seq<Definition>, t: string, d: Definition)
    ensures d in CtorsOf(ctors, t) <==> d in ctors && d.resultType == t
    decreases |ctors|
  {
    if |ctors| > 0 {
      CtorsIff(ctors[1..], t, d);
    }
  }

  lemma {:induction false} TypedIff(s: Schema, v: Value)
    ensures WellTyped(s, v) <==> TypedObj(s, v)
    decreases v, 0
  {
    hide FieldsTyped, TypedFields;
    if v.VObj? && |v.fields| == |v.def.params| {
      FieldsTypedIff(s, v.def.params, v.fields);
    }
  }

  lemma {:induction false} FieldsTypedIff(s: Schema, params: seq<Param>, fields: seq<Value>)
    requires |params| == |fields|
    ensures FieldsTyped(s, params, fields) <==> TypedFields(s, params, fields)
    decreases fields, 0
  {
    hide FieldTyped, TypedStep, DecFor;
    if |fields| > 0 {
      FieldTypedIff(s, params[0], fields[0]);
      FieldsTypedIff(s, params[1..], fields[1..]);
    }
  }

  lemma {:induction false} FieldTypedIff(s: Schema, p: Param, v: Value)
    ensures FieldTyped(s, p, v) <==> TypedStep(s, DecFor(s, p), v)
    decreases v, 2
  {
    hide SimpleValue, TypedPrim, BoxedTyped, BoxedItems, TypedItems, TypedRef, IsPolymorphic;
    if p.typ == "#" || (p.flag.Some? && p.flag.value.isTrue) {
    } else if Named(p.typ) {
      SimpleTypedIff(p.typ, v);
    } else if !p.isVector {
      NotNamed(p.typ);
      BoxedTypedIff(s, p.typ, v);
    } else {
      NotNamed(p.typ);
      if NamedElem(p.elemType) {
        ElemIsNamed(p.elemType);
        forall x: Value ensures SimpleValue(p.elemType, x) <==> TypedPrim(ElemPrim(p.elemType).value, x) {
          SimpleTypedIff(p.elemType, x);
        }
      } else if p.elemType in ["double", "int128", "int256"] {
        NoElem(p.elemType);
      } else {
        NotNamedElem(p.elemType);
        if v.VVec? {
          BoxedItemsTypedIff(s, p.elemType, v.items);
        }
      }
    }
  }

  lemma ElemIsNamed(t: string)
    requires NamedElem(t)
    ensures Named(t) && IsPrimitiveType(t) && ElemPrim(t).Some? && ElemPrim(t) == FieldPrim(t)
  {
  }

  lemma NoElem(t: string)
    requires t in ["double", "int128", "int256"]
    ensures IsPrimitiveType(t) && ElemPrim(t) == None
  {
  }

  lemma SimpleTypedIff(t: string, v: Value)
    requires Named(t)
    ensures FieldPrim(t).Some? && (SimpleValue(t, v) <==> TypedPrim(FieldPrim(t).value, v))
  {
  }

  lemma {:induction false} BoxedTypedIff(s: Schema, t: string, v: Value)
    ensures BoxedTyped(s, t, v) <==> TypedRef(s, t, IsPolymorphic(s, t), v)
    decreases v, 1
  {
    hide WellTyped, TypedObj, CtorsOf;
    SumIff(s.constructors, t);
    if v.VObj? {
      CtorsIff(s.constructors, t, v.def);
      TypedIff(s, v);
      if v.def in CtorsOf(s.constructors, t) {
        assert |CtorsOf(s.constructors, t)| >= 1;
      }
    }
  }

  lemma {:induction false} BoxedItemsTypedIff(s: Schema, t: string, items: seq<Value>)
    ensures BoxedItems(s, t, items) <==> TypedItems(s, t, IsPolymorphic(s, t), items)
    decreases items, 0
  {
    hide BoxedTyped, TypedRef, IsPolymorphic;
    if |items| > 0 {
      BoxedTypedIff(s, t, items[0]);
      BoxedItemsTypedIff(s, t, items[1..]);
    }
  }

  /**
   * The main result in these terms: for every well-formed schema and well-typed value without a nil
   * in the way, the generated Encode writes the TL serialization, and the generated Decode on it,
   * whatever follows, gives the value back with completed flags if and only if no bit is stale.
   */
  lemma TlRoundTrip(s: Schema, v: Value, rest: seq<byte>)
    requires WFSchema(s) && WellTyped(s, v) && Fits(v) && NonNil(s, v)
    ensures ObjBytes(v).Some? && EncodeObj(s, v) == ObjBytes(v)
    ensures DecodeObj(s, v.def, ObjBytes(v).value + rest) == W.Ok(Completed(s, v), rest) <==> Stable(s, v)
  {
    hide *;
    TypedIff(s, v);
    TypedArity(s, v);
    EncodeIsTl(s, v);
    GeneratedRoundTrip(s, v, rest);
  }

  /**
   * Vectors of double, int128 and int256 are outside: the emitted loops are empty, so that of such a
   * vector only the header is written, whatever it holds.
   */
  lemma EmptyLoops(s: Schema, p: Param, f: nat, v: Value)
    requires !Named(p.typ) && p.typ != "#" && p.flag.None? && p.isVector && v.VVec?
    requires p.elemType in ["double", "int128", "int256"]
    ensures EncodeStep(s, EncFor(p), f, v) == Some(LE(4, 0x1cb5c415) + LE(4, |v.items| % 0x1_0000_0000))
  {
    hide LE;
    NotNamed(p.typ);
    NoElem(p.elemType);
  }

  /** Decode refuses any other constructor id, and an interface any id that none of its constructors has. */
  lemma WrongIds(s: Schema, d: Definition, t: string, w: nat, rest: seq<byte>)
    requires w < 0x1_0000_0000
    ensures w != d.id ==> DecodeObj(s, d, W.Uint(w) + rest) == W.Fail(W.WrongConstructor)
    ensures (forall c :: c in s.constructors && c.resultType == t ==> c.id != w) ==>
      DecodeRef(s, t, true, W.Uint(w) + rest) == W.Fail(W.UnknownConstructor)
  {
    hide W.Uint, W.ReadUint;
    W.UintRoundTrip(w, rest);
    if forall c :: c in s.constructors && c.resultType == t ==> c.id != w {
      NoCtor(CtorsOf(s.constructors, t), w);
    }
  }

  lemma {:induction false} NoCtor(ctors: seq<Definition>, w: nat)
    requires forall c :: c in ctors ==> c.id != w
    ensures FindCtor(ctors, w) == None
    decreases |ctors|
  {
    if |ctors| > 0 {
      NoCtor(ctors[1..], w);
    }
  }
}
