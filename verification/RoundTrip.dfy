/** When generated Decode returns exactly the value that was encoded. */
module RoundTrip {
  import opened Bytes
  import opened Schemas
  import opened Generator
  import opened Codec
  import W = Wire

  /** The value itself, with the flags word of every struct in it completed as Encode completes it. */
  function Completed(s: Schema, v: Value): (r: Value)
    decreases v, 1
  {
    if v.VVec? then VVec(CompletedItems(s, v.items))
    else if v.VObj? && |v.fields| == |v.def.params| then VObj(v.def, FlagsOf(s, v), CompletedItems(s, v.fields))
    else v
  }

  function CompletedItems(s: Schema, items: seq<Value>): (r: seq<Value>)
    ensures |r| == |items|
    decreases items, 0
  {
    if |items| == 0 then [] else [Completed(s, items[0])] + CompletedItems(s, items[1..])
  }

  /** Conditional fields of these kinds never set their bit. */
  predicate Scalar(op: DecOp) { op.DPrim? && op.p != PString && op.p != PBytes }

  /**
   * No stale bits: a `true` field whose bit is set is true, and a conditional scalar whose bit is
   * clear is zero; likewise in every struct that is written inside.
   */
  predicate Stable(s: Schema, v: Value)
    decreases v, 1
  {
    if v.VVec? then StableItems(s, v.items)
    else v.VObj? && |v.fields| == |v.def.params| ==>
      StableFields(s, CodeFor(s, v.def).dec, FlagsOf(s, v), v.fields)
  }

  predicate StableItems(s: Schema, items: seq<Value>)
    decreases items, 0
  {
    |items| == 0 || (Stable(s, items[0]) && StableItems(s, items[1..]))
  }

  predicate StableFields(s: Schema, steps: seq<DecStep>, f: nat, fields: seq<Value>)
    requires |steps| == |fields|
    decreases fields, 0
  {
    |fields| == 0 || (StableStep(s, steps[0], f, fields[0]) && StableFields(s, steps[1..], f, fields[1..]))
  }

  predicate StableStep(s: Schema, step: DecStep, f: nat, v: Value)
    decreases v, 2
  {
    match step
    case GetFlags => true
    case GetTrue(bit) => Bit(f, bit) ==> v == VBool(true)
    case Get(_) => Stable(s, v)
    case GetIf(bit, op) => if Bit(f, bit) then Stable(s, v) else Scalar(op) ==> v == Zero(op)
  }

  /** Every interface value that Encode reaches is non-nil. */
  predicate NonNil(s: Schema, v: Value)
    decreases v, 1
  {
    && v != VNil
    && (v.VVec? ==> NonNilItems(s, v.items))
    && (v.VObj? && |v.fields| == |v.def.params| ==> NonNilFields(s, CodeFor(s, v.def).dec, FlagsOf(s, v), v.fields))
  }

  predicate NonNilItems(s: Schema, items: seq<Value>)
    decreases items, 0
  {
    |items| == 0 || (NonNil(s, items[0]) && NonNilItems(s, items[1..]))
  }

  predicate NonNilFields(s: Schema, steps: seq<DecStep>, f: nat, fields: seq<Value>)
    requires |steps| == |fields|
    decreases fields, 0
  {
    |fields| == 0 || (
      && (match steps[0]
          case GetFlags => true
          case GetTrue(_) => true
          case Get(_) => NonNil(s, fields[0])
          case GetIf(bit, _) => Bit(f, bit) ==> NonNil(s, fields[0]))
      && NonNilFields(s, steps[1..], f, fields[1..]))
  }

  // ---- Encode succeeds exactly on values without a nil in the way ----

  lemma {:induction false} EncodesIff(s: Schema, v: Value)
    requires TypedObj(s, v)
    ensures EncodeObj(s, v).Some? <==> NonNil(s, v)
    decreases v, 0
  {
    hide EncodeFields, NonNilFields, TypedFields, FlagsOf;
    var code := CodeFor(s, v.def);
    EncodesFieldsIff(s, v.def.params, code.enc, code.dec, FlagsOf(s, v), v.fields);
  }

  lemma {:induction false} EncodesFieldsIff(s: Schema, params: seq<Param>, enc: seq<EncStep>, dec: seq<DecStep>,
      f: nat, fields: seq<Value>)
    requires |params| == |enc| == |dec| == |fields| && TypedFields(s, params, fields)
    requires forall i :: 0 <= i < |params| ==> enc[i] == EncFor(params[i]) && dec[i] == DecFor(s, params[i])
    ensures EncodeFields(s, enc, f, fields).Some? <==> NonNilFields(s, dec, f, fields)
    decreases fields, 0
  {
    if |fields| > 0 {
      hide EncodeData, TypedData, NonNil, FieldEnc, FieldDec;
      var p := params[0];
      SwitchesAgree(s, p);
      EncodesFieldsIff(s, params[1..], enc[1..], dec[1..], f, fields[1..]);
      if p.typ != "#" && !(p.flag.Some? && p.flag.value.isTrue) {
        EncodesDataIff(s, FieldDec(s, p), fields[0]);
      }
    }
  }

  lemma {:induction false} EncodesDataIff(s: Schema, op: DecOp, v: Value)
    requires TypedData(s, op, v)
    ensures EncodeData(s, EncOf(op), v).Some? <==> NonNil(s, v)
    decreases v, 2
  {
    hide EncodeFields, NonNilFields, TypedFields, FlagsOf;
    match op
    case DPrim(p) =>
    case DVecPrim(p) => EncodesPrims(s, p, v.items);
    case DVecObj(t, poly) => EncodesItemsIff(s, t, poly, v.items);
    case DObj(t, poly) => if v.VObj? { EncodesIff(s, v); }
  }

  lemma {:induction false} EncodesPrims(s: Schema, p: Prim, items: seq<Value>)
    requires forall i :: 0 <= i < |items| ==> TypedPrim(p, items[i])
    ensures EncodePrims(p, items).Some? && NonNilItems(s, items)
    decreases |items|
  {
    if |items| > 0 {
      EncodesPrims(s, p, items[1..]);
    }
  }

  lemma {:induction false} EncodesItemsIff(s: Schema, t: string, poly: bool, items: seq<Value>)
    requires TypedItems(s, t, poly, items)
    ensures EncodeItems(s, items).Some? <==> NonNilItems(s, items)
    decreases items, 0
  {
    if |items| > 0 {
      hide EncodeFields, NonNilFields, TypedFields, FlagsOf;
      EncodesItemsIff(s, t, poly, items[1..]);
      if items[0].VObj? {
        EncodesIff(s, items[0]);
      }
    }
  }

  // ---- Decode returns the completed value exactly when there are no stale bits ----

  lemma {:induction false} RunOrKeeps(or: seq<OrStep>, fields: seq<Value>, flags: nat, bit: nat)
    requires |or| == |fields| && Bit(flags, bit)
    ensures Bit(RunOr(or, fields, flags), bit)
    decreases |or|
  {
    if |or| > 0 {
      if Sets(or[0], fields[0]) {
        SetBitBits(flags, or[0].bit, bit);
        RunOrKeeps(or[1..], fields[1..], SetBit(flags, or[0].bit), bit);
      } else {
        RunOrKeeps(or[1..], fields[1..], flags, bit);
      }
    }
  }

  /** Every field that sets its bit finds it set in the completed word. */
  ghost predicate Covers(or: seq<OrStep>, fields: seq<Value>, f: nat)
    requires |or| == |fields|
  {
    forall i :: 0 <= i < |or| && Sets(or[i], fields[i]) ==> Bit(f, or[i].bit)
  }

  lemma {:induction false} RunOrCovers(or: seq<OrStep>, fields: seq<Value>, flags: nat)
    requires |or| == |fields|
    ensures Covers(or, fields, RunOr(or, fields, flags))
    decreases |or|
  {
    if |or| > 0 {
      hide Bit, SetBit, Sets;
      var next := if Sets(or[0], fields[0]) then SetBit(flags, or[0].bit) else flags;
      RunOrCovers(or[1..], fields[1..], next);
      if Sets(or[0], fields[0]) {
        SetBitBits(flags, or[0].bit, or[0].bit);
        RunOrKeeps(or[1..], fields[1..], next, or[0].bit);
      }
      var f := RunOr(or, fields, flags);
      forall i | 0 <= i < |or| && Sets(or[i], fields[i]) ensures Bit(f, or[i].bit) {
        if i > 0 {
          assert or[1..][i - 1] == or[i] && fields[1..][i - 1] == fields[i];
        }
      }
    }
  }

  /** A conditional field that is not scalar and did not set its bit has its zero value. */
  lemma UnsetIsZero(s: Schema, p: Param, v: Value)
    requires p.typ != "#" && p.flag.Some? && !p.flag.value.isTrue && TypedData(s, FieldDec(s, p), v)
    requires !(FieldDec(s, p).DObj? && !FieldDec(s, p).poly)
    requires !Sets(OrFor(p), v) && !Scalar(FieldDec(s, p))
    ensures v == Zero(FieldDec(s, p))
  {
    hide TypedRef, TypedItems, IsPolymorphic;
  }

  lemma {:induction false} NormalIsCompleted(s: Schema, v: Value)
    requires WFSchema(s) && TypedObj(s, v)
    ensures NormalObj(s, v) == Completed(s, v) <==> Stable(s, v)
    decreases v, 0
  {
    hide NormalFields, StableFields, TypedFields, CompletedItems, WFParams, Covers, RunOr;
    var code, f := CodeFor(s, v.def), FlagsOf(s, v);
    RunOrCovers(code.or, v.fields, v.flags);
    NormalFieldsCompleted(s, v.def.params, code.or, code.dec, false, HasFlags(v.def.params), f, v.fields);
  }

  lemma {:induction false} NormalFieldsCompleted(s: Schema, params: seq<Param>, or: seq<OrStep>, dec: seq<DecStep>,
      seen: bool, hasFlags: bool, f: nat, fields: seq<Value>)
    requires |params| == |or| == |dec| == |fields| && WFSchema(s)
    requires WFParams(s, params, seen) && TypedFields(s, params, fields) && Covers(or, fields, f)
    requires hasFlags <==> seen || HasFlags(params)
    requires forall i :: 0 <= i < |params| ==>
      dec[i] == DecFor(s, params[i]) && or[i] == if hasFlags then OrFor(params[i]) else NoOr
    ensures NormalFields(s, dec, f, fields) == CompletedItems(s, fields) <==> StableFields(s, dec, f, fields)
    decreases fields, 0
  {
    if |fields| > 0 {
      hide WFSchema, NormalStep, Completed, StableStep, TypedStep, DecFor, OrFor, Bit, Sets;
      var p := params[0];
      HasFlagsStep(params);
      assert Covers(or[1..], fields[1..], f) by {
        assert forall i :: 0 <= i < |or| - 1 ==> or[1..][i] == or[i + 1] && fields[1..][i] == fields[i + 1];
      }
      NormalFieldsCompleted(s, params[1..], or[1..], dec[1..], seen || p.typ == "#", hasFlags, f, fields[1..]);
      StepCompleted(s, p, or[0], seen, f, fields[0]);
      var a, b := NormalFields(s, dec, f, fields), CompletedItems(s, fields);
      assert a == [a[0]] + a[1..] && b == [b[0]] + b[1..];
      assert a[1..] == NormalFields(s, dec[1..], f, fields[1..]) && b[1..] == CompletedItems(s, fields[1..]);
    }
  }

  lemma {:induction false} StepCompleted(s: Schema, p: Param, or: OrStep, seen: bool, f: nat, v: Value)
    requires WFSchema(s) && WFParams(s, [p], seen) && TypedStep(s, DecFor(s, p), v)
    requires seen ==> or == OrFor(p)
    requires Sets(or, v) ==> Bit(f, or.bit)
    ensures NormalStep(s, DecFor(s, p), f, v) == Completed(s, v) <==> StableStep(s, DecFor(s, p), f, v)
    decreases v, 3
  {
    hide WFSchema, NormalValue, Stable, TypedData, FieldDec, Bit;
    if p.typ == "#" {
    } else if p.flag.Some? && p.flag.value.isTrue {
      assert v.VBool?;
    } else if p.flag.Some? && !Bit(f, p.flag.value.bit) {
      ZeroCompleted(s, FieldDec(s, p), v);
      if !Scalar(FieldDec(s, p)) {
        assert !Sets(OrFor(p), v) by { OrBit(p); }
        UnsetIsZero(s, p, v);
      }
    } else {
      DataCompleted(s, FieldDec(s, p), v);
    }
  }

  lemma OrBit(p: Param)
    requires p.flag.Some?
    ensures OrFor(p) == NoOr || OrFor(p).bit == p.flag.value.bit
  {
  }

  lemma ZeroCompleted(s: Schema, op: DecOp, v: Value)
    ensures Completed(s, v) == Zero(op) <==> v == Zero(op)
  {
  }

  lemma {:induction false} DataCompleted(s: Schema, op: DecOp, v: Value)
    requires WFSchema(s) && TypedData(s, op, v)
    ensures NormalValue(s, v) == Completed(s, v) <==> Stable(s, v)
    decreases v, 2
  {
    hide NormalFields, StableFields, TypedFields, FlagsOf, CodeFor, WFSchema;
    match op
    case DPrim(p) =>
    case DVecPrim(p) => PrimsCompleted(s, p, v.items);
    case DVecObj(t, poly) => ItemsCompleted(s, t, poly, v.items);
    case DObj(t, poly) => if v.VObj? { NormalIsCompleted(s, v); }
  }

  lemma {:induction false} PrimsCompleted(s: Schema, p: Prim, items: seq<Value>)
    requires forall i :: 0 <= i < |items| ==> TypedPrim(p, items[i])
    ensures NormalItems(s, items) == CompletedItems(s, items) && StableItems(s, items)
    decreases |items|
  {
    if |items| > 0 {
      PrimsCompleted(s, p, items[1..]);
    }
  }

  lemma {:induction false} ItemsCompleted(s: Schema, t: string, poly: bool, items: seq<Value>)
    requires WFSchema(s) && TypedItems(s, t, poly, items)
    ensures NormalItems(s, items) == CompletedItems(s, items) <==> StableItems(s, items)
    decreases items, 0
  {
    if |items| > 0 {
      hide NormalFields, StableFields, TypedFields, FlagsOf, CodeFor, WFSchema;
      ItemsCompleted(s, t, poly, items[1..]);
      if items[0].VObj? {
        NormalIsCompleted(s, items[0]);
      }
      var a, b := NormalItems(s, items), CompletedItems(s, items);
      assert a == [a[0]] + a[1..] && b == [b[0]] + b[1..];
      assert a[1..] == NormalItems(s, items[1..]) && b[1..] == CompletedItems(s, items[1..]);
    }
  }

  /**
   * For every well-formed schema and every value of a generated struct: Encode succeeds exactly
   * when it meets no nil, and then Decode on the bytes followed by anything gives the value back,
   * with completed flags words and exactly the rest left, if and only if no bit is stale.
   */
  lemma GeneratedRoundTrip(s: Schema, v: Value, rest: seq<byte>)
    requires WFSchema(s) && TypedObj(s, v) && Fits(v)
    ensures EncodeObj(s, v).Some? <==> NonNil(s, v)
    ensures NonNil(s, v) ==>
      (DecodeObj(s, v.def, EncodeObj(s, v).value + rest) == W.Ok(Completed(s, v), rest) <==> Stable(s, v))
  {
    hide DecodeObj, EncodeObj, NormalObj, Completed, Stable, NonNil, TypedFields, WFSchema;
    EncodesIff(s, v);
    NormalIsCompleted(s, v);
    if NonNil(s, v) {
      ObjRoundTrip(s, v, rest);
    }
  }
}
