/** The code generator: for each definition, the instructions of its Encode and Decode methods. */
module Generator {
  import opened Bytes
  import opened Schemas

  datatype Prim = PInt | PLong | PDouble | PString | PBytes | PBool | PInt128 | PInt256

  /** What Encode does with one field, and what Decode does. */
  datatype EncOp = EPrim(p: Prim) | EVecPrim(p: Prim) | EVecNothing | EVecObj | EObj
  datatype DecOp = DPrim(p: Prim) | DVecPrim(p: Prim) | DVecNothing | DVecObj(t: string, poly: bool)
                 | DObj(t: string, poly: bool)

  /** The flag computation emitted for a field before any field is written. */
  datatype OrStep = NoOr | OrTrue(bit: nat) | OrNonNil(bit: nat) | OrNonEmpty(bit: nat)

  datatype EncStep = PutFlags | PutNothing | Put(op: EncOp) | PutIf(bit: nat, op: EncOp)
  datatype DecStep = GetFlags | GetTrue(bit: nat) | Get(op: DecOp) | GetIf(bit: nat, op: DecOp)

  /** The code of one struct: its constructor id, and one step per parameter in order. */
  datatype Code = Code(id: nat, or: seq<OrStep>, enc: seq<EncStep>, dec: seq<DecStep>)

  /** The constructors of a type, and whether it becomes an interface. */
  function CtorsOf(ctors: seq<Definition>, t: string): (r: seq<Definition>)
    ensures forall d :: d in r ==> d in ctors && d.resultType == t
  {
    if |ctors| == 0 then []
    else (if ctors[0].resultType == t then [ctors[0]] else []) + CtorsOf(ctors[1..], t)
  }

  predicate IsPolymorphic(s: Schema, t: string) { |CtorsOf(s.constructors, t)| > 1 }

  predicate IsPrimitiveType(t: string)
  {
    t == "int" || t == "long" || t == "double" || t == "string" || t == "bytes" || t == "int128" || t == "int256"
  }

  predicate IsPointerType(p: Param)
  {
    !IsPrimitiveType(p.typ) && !p.isVector && p.typ != "Bool"
  }

  /** The types both field switches know by name. */
  function FieldPrim(t: string): (r: Option<Prim>)
  {
    if t == "int" then Some(PInt)
    else if t == "long" then Some(PLong)
    else if t == "double" then Some(PDouble)
    else if t == "string" then Some(PString)
    else if t == "bytes" then Some(PBytes)
    else if t == "Bool" then Some(PBool)
    else if t == "int128" then Some(PInt128)
    else if t == "int256" then Some(PInt256)
    else None
  }

  /** The element types the vector loops know; the other primitive types get an empty loop. */
  function ElemPrim(t: string): (r: Option<Prim>)
  {
    if t == "int" then Some(PInt)
    else if t == "long" then Some(PLong)
    else if t == "string" then Some(PString)
    else if t == "bytes" then Some(PBytes)
    else None
  }

  function FieldEnc(p: Param): (op: EncOp)
  {
    if FieldPrim(p.typ).Some? then EPrim(FieldPrim(p.typ).value)
    else if !p.isVector then EObj
    else if !IsPrimitiveType(p.elemType) then EVecObj
    else if ElemPrim(p.elemType).Some? then EVecPrim(ElemPrim(p.elemType).value)
    else EVecNothing
  }

  function FieldDec(s: Schema, p: Param): (op: DecOp)
  {
    if FieldPrim(p.typ).Some? then DPrim(FieldPrim(p.typ).value)
    else if !p.isVector then DObj(p.typ, IsPolymorphic(s, p.typ))
    else if !IsPrimitiveType(p.elemType) then DVecObj(p.elemType, IsPolymorphic(s, p.elemType))
    else if ElemPrim(p.elemType).Some? then DVecPrim(ElemPrim(p.elemType).value)
    else DVecNothing
  }

  predicate HasFlags(params: seq<Param>) { exists i :: 0 <= i < |params| && params[i].typ == "#" }

  function OrFor(p: Param): (o: OrStep)
  {
    if p.flag.None? then NoOr
    else if p.flag.value.isTrue then OrTrue(p.flag.value.bit)
    else if IsPointerType(p) then OrNonNil(p.flag.value.bit)
    else if p.typ == "string" || p.typ == "bytes" || p.isVector then OrNonEmpty(p.flag.value.bit)
    else NoOr
  }

  function EncFor(p: Param): (e: EncStep)
  {
    if p.typ == "#" then PutFlags
    else if p.flag.None? then Put(FieldEnc(p))
    else if p.flag.value.isTrue then PutNothing
    else PutIf(p.flag.value.bit, FieldEnc(p))
  }

  function DecFor(s: Schema, p: Param): (d: DecStep)
  {
    if p.typ == "#" then GetFlags
    else if p.flag.None? then Get(FieldDec(s, p))
    else if p.flag.value.isTrue then GetTrue(p.flag.value.bit)
    else GetIf(p.flag.value.bit, FieldDec(s, p))
  }

  function CodeFor(s: Schema, d: Definition): (c: Code)
    ensures |c.or| == |c.enc| == |c.dec| == |d.params|
  {
    Code(d.id,
      seq(|d.params|, i requires 0 <= i < |d.params| => if HasFlags(d.params) then OrFor(d.params[i]) else NoOr),
      seq(|d.params|, i requires 0 <= i < |d.params| => EncFor(d.params[i])),
      seq(|d.params|, i requires 0 <= i < |d.params| => DecFor(s, d.params[i])))
  }

  /** generateStruct: four passes over the parameters, each appending to the code. */
  method GenerateStruct(s: Schema, d: Definition) returns (c: Code)
    ensures c == CodeFor(s, d)
  {
    var hasFlags := false;
    for i := 0 to |d.params|
      invariant hasFlags <==> HasFlags(d.params[..i])
    {
      assert d.params[..i + 1] == d.params[..i] + [d.params[i]];
      if d.params[i].typ == "#" {
        hasFlags := true;
        assert d.params[..i + 1][i].typ == "#";
      } else {
        assert HasFlags(d.params[..i]) ==> HasFlags(d.params[..i + 1]) by {
          if HasFlags(d.params[..i]) {
            var j :| 0 <= j < i && d.params[..i][j].typ == "#";
            assert d.params[..i + 1][j].typ == "#";
          }
        }
      }
    }
    assert d.params[..|d.params|] == d.params;
    var or: seq<OrStep> := [];
    for i := 0 to |d.params|
      invariant |or| == i
      invariant forall j :: 0 <= j < i ==> or[j] == if hasFlags then OrFor(d.params[j]) else NoOr
    {
      or := or + [if hasFlags then OrFor(d.params[i]) else NoOr];
    }
    var enc: seq<EncStep> := [];
    for i := 0 to |d.params|
      invariant |enc| == i && forall j :: 0 <= j < i ==> enc[j] == EncFor(d.params[j])
    {
      enc := enc + [EncFor(d.params[i])];
    }
    var dec: seq<DecStep> := [];
    for i := 0 to |d.params|
      invariant |dec| == i && forall j :: 0 <= j < i ==> dec[j] == DecFor(s, d.params[j])
    {
      dec := dec + [DecFor(s, d.params[i])];
    }
    c := Code(d.id, or, enc, dec);
  }
}
