/** The TL parser: tokens to a schema. */
module Parser {
  import opened Bytes
  import opened Schemas
  import opened Lexer

  /** The tokens still to come, the current one first. The last one is EOF, and reading on repeats it. */
  type Stream = ts: seq<Token> | |ts| > 0 && ts[|ts| - 1].kind == EOF witness [Token(EOF, "", 1)]

  function Adv(ts: Stream): (r: Stream)
    ensures |r| <= |ts| && (ts[0].kind != EOF ==> |r| < |ts|)
  {
    if |ts| > 1 then ts[1..] else ts
  }

  datatype Error =
    | ExpectedName(line: nat, kind: Kind, value: string)
    | InvalidHexID(line: nat, value: string)
    | ExpectedEquals(line: nat, name: string)
    | ExpectedResult(line: nat, kind: Kind)

  datatype Parsed<T> = Good(value: T) | Bad(error: Error)

  // ---- Numbers ----

  function HexValue(c: char): (v: nat)
    requires IsHexDigit(c)
    ensures v < 16
  {
    if '0' <= c <= '9' then (c - '0') as nat
    else if 'a' <= c <= 'f' then 10 + (c - 'a') as nat
    else 10 + (c - 'A') as nat
  }

  function HexNumber(s: string): (v: nat)
    requires forall i :: 0 <= i < |s| ==> IsHexDigit(s[i])
  {
    if |s| == 0 then 0 else 16 * HexNumber(s[..|s| - 1]) + HexValue(s[|s| - 1])
  }

  /** ParseUint in base 16 for 32 bits. */
  function ParseHex(s: string): (r: Option<nat>)
    ensures r.Some? ==> r.value < TWO_32
  {
    if |s| > 0 && (forall i :: 0 <= i < |s| ==> IsHexDigit(s[i])) && HexNumber(s) < TWO_32 then Some(HexNumber(s))
    else None
  }

  predicate IsDecimal(s: string) { forall i :: 0 <= i < |s| ==> '0' <= s[i] <= '9' }

  function DecNumber(s: string): (v: nat)
    requires IsDecimal(s)
  {
    if |s| == 0 then 0 else 10 * DecNumber(s[..|s| - 1]) + (s[|s| - 1] - '0') as nat
  }

  /** Atoi of a text with no sign, which no token with a dot has. */
  function Atoi(s: string): (r: Option<nat>)
  {
    if |s| > 0 && IsDecimal(s) && DecNumber(s) < TWO_63 then Some(DecNumber(s)) else None
  }

  /** The place of the first dot, or -1. */
  function DotIndex(s: string): (i: int)
    ensures -1 <= i < |s| && (i >= 0 ==> s[i] == '.')
    ensures forall j :: 0 <= j < (if i < 0 then |s| else i) ==> s[j] != '.'
  {
    if |s| == 0 then -1
    else if s[0] == '.' then 0
    else var i := DotIndex(s[1..]); if i < 0 then -1 else i + 1
  }

  function FlagOf(raw: string, condType: string): (f: FlagCondition)
  {
    var dot := DotIndex(raw);
    if dot > 0 then
      FlagCondition(raw[..dot], match Atoi(raw[dot + 1..]) case Some(b) => b case None => 0, condType == "true")
    else FlagCondition("flags", 0, condType == "true")
  }

  // ---- Types ----

  datatype Typed = Typed(typ: string, elem: Option<string>, rest: Stream)

  /** A type whose first token has been read: Vector may be followed by its element. */
  function TypeAfter(ts: Stream, word: string): (r: Typed)
    ensures |r.rest| <= |ts|
  {
    if word == "Vector" && ts[0].kind == AngleOpen then
      var t1 := Adv(ts);
      var elem := t1[0].value;
      var t2 := Adv(t1);
      Typed("Vector<" + elem + ">", Some(elem), if t2[0].kind == AngleClose then Adv(t2) else t2)
    else Typed(word, None, ts)
  }

  function MakeParam(name: string, t: Typed, flag: Option<FlagCondition>): (p: Param)
  {
    Param(name, t.typ, flag, t.elem.Some?, match t.elem case Some(e) => e case None => "")
  }

  datatype ParsedParam = ParsedParam(param: Param, sig: string, rest: Stream)

  function ParamType(ts: Stream, name: string): (r: ParsedParam)
    ensures |r.rest| <= |ts|
  {
    var raw := ts[0].value;
    var t1 := Adv(ts);
    if t1[0].kind == Question then
      var t2 := Adv(t1);
      var t := TypeAfter(Adv(t2), t2[0].value);
      ParsedParam(MakeParam(name, t, Some(FlagOf(raw, t.typ))), name + ":" + raw + "?" + t.typ, t.rest)
    else
      var t := TypeAfter(t1, raw);
      ParsedParam(MakeParam(name, t, None), name + ":" + t.typ, t.rest)
  }

  function ToBraceClose(ts: Stream): (r: Stream)
    ensures |r| <= |ts| && (r[0].kind == BraceClose || r[0].kind == EOF)
    ensures ts[0].kind == BraceOpen ==> |r| < |ts|
    decreases |ts|
  {
    if ts[0].kind == BraceClose || ts[0].kind == EOF then ts else ToBraceClose(Adv(ts))
  }

  /** The tokens after a group in braces. */
  function AfterBraces(ts: Stream): (r: Stream)
    ensures |r| <= |ts| && (ts[0].kind == BraceOpen ==> |r| < |ts|)
  {
    var r := ToBraceClose(ts);
    if r[0].kind == BraceClose then Adv(r) else r
  }

  /** Parameters read before others. */
  function MoreParams(params: seq<Param>, sigs: seq<string>, r: ParsedParams): (q: ParsedParams)
  {
    ParsedParams(params + r.params, sigs + r.sigs, r.rest)
  }

  lemma MoreParamsStep(params: seq<Param>, sigs: seq<string>, p: Param, sig: string, r: ParsedParams)
    ensures MoreParams(params, sigs, ParsedParams([p] + r.params, [sig] + r.sigs, r.rest)) ==
      MoreParams(params + [p], sigs + [sig], r)
  {
    assert params + ([p] + r.params) == params + [p] + r.params;
    assert sigs + ([sig] + r.sigs) == sigs + [sig] + r.sigs;
  }

  lemma NoParamsYet(r: ParsedParams)
    ensures MoreParams([], [], r) == r
  {
    assert [] + r.params == r.params && [] + r.sigs == r.sigs;
  }

  lemma NoParamsLeft(params: seq<Param>, sigs: seq<string>, ts: Stream)
    ensures MoreParams(params, sigs, ParsedParams([], [], ts)) == ParsedParams(params, sigs, ts)
  {
  }

  datatype ParsedParams = ParsedParams(params: seq<Param>, sigs: seq<string>, rest: Stream)

  predicate EndsParams(k: Kind) { k == Equals || k == EOF || k == Semicolon }

  function Params(ts: Stream): (r: ParsedParams)
    ensures |r.rest| <= |ts| && EndsParams(r.rest[0].kind)
    decreases |ts|
  {
    if EndsParams(ts[0].kind) then ParsedParams([], [], ts)
    else if ts[0].kind == BraceOpen then Params(AfterBraces(ts))
    else if ts[0].kind != Ident || Adv(ts)[0].kind != Colon then Params(Adv(ts))
    else
      var p := ParamType(Adv(Adv(ts)), ts[0].value);
      var r := Params(p.rest);
      ParsedParams([p.param] + r.params, [p.sig] + r.sigs, r.rest)
  }

  // ---- Definitions ----

  /** strings.Join with blanks. */
  function Join(parts: seq<string>): (s: string)
  {
    if |parts| == 0 then "" else if |parts| == 1 then parts[0] else parts[0] + " " + Join(parts[1..])
  }

  type Crc = string -> nat

  function Signature(name: string, sigs: seq<string>, result: string): (s: string)
  {
    Join([name] + sigs) + " = " + result
  }

  datatype ParsedDef = ParsedDef(def: Definition, rest: Stream)

  /** The id after a name, None if there is none there. */
  function IdAfter(ts: Stream): (r: Parsed<Option<nat>>)
  {
    if ts[0].kind != HexID then Good(None)
    else
      match ParseHex(ts[0].value)
      case Some(v) => Good(Some(v))
      case None => Bad(InvalidHexID(ts[0].line, ts[0].value))
  }

  function Def(crc: Crc, ts: Stream, isFunction: bool): (r: Parsed<ParsedDef>)
    ensures r.Good? ==> |r.value.rest| < |ts| && r.value.def.isFunction == isFunction
  {
    var t1 := if ts[0].kind == BraceOpen then AfterBraces(ts) else ts;
    if t1[0].kind != Ident then Bad(ExpectedName(t1[0].line, t1[0].kind, t1[0].value))
    else
      var t2 := Adv(t1);
      match IdAfter(t2)
      case Bad(e) => Bad(e)
      case Good(id) => Body(crc, if id.Some? then Adv(t2) else t2, t1[0].value, id, isFunction)
  }

  /** The parameters and the result of a definition. */
  function Body(crc: Crc, ts: Stream, name: string, id: Option<nat>, isFunction: bool): (r: Parsed<ParsedDef>)
    ensures r.Good? ==> |r.value.rest| <= |ts| && r.value.def.isFunction == isFunction
  {
    var ps := Params(ts);
    if ps.rest[0].kind != Equals then Bad(ExpectedEquals(ps.rest[0].line, name))
    else
      var t1 := Adv(ps.rest);
      if t1[0].kind != Ident then Bad(ExpectedResult(t1[0].line, t1[0].kind))
      else
        var t := TypeAfter(Adv(t1), t1[0].value);
        var rest := if t.rest[0].kind == Semicolon then Adv(t.rest) else t.rest;
        var theId := match id case Some(v) => v case None => crc(Signature(name, ps.sigs, t.typ));
        Good(ParsedDef(Definition(name, theId, ps.params, t.typ, isFunction), rest))
  }

  function AddFirst(d: Definition, r: Parsed<Schema>): (q: Parsed<Schema>)
  {
    match r
    case Bad(e) => Bad(e)
    case Good(s) =>
      Good(if d.isFunction then s.(functions := [d] + s.functions) else s.(constructors := [d] + s.constructors))
  }

  function All(crc: Crc, ts: Stream, isFunction: bool): (r: Parsed<Schema>)
    decreases |ts|
  {
    if ts[0].kind == EOF then Good(Schema([], []))
    else if ts[0].kind == SectionTypes then All(crc, Adv(ts), false)
    else if ts[0].kind == SectionFunctions then All(crc, Adv(ts), true)
    else if ts[0].kind == Semicolon then All(crc, Adv(ts), isFunction)
    else
      match Def(crc, ts, isFunction)
      case Bad(e) => Bad(e)
      case Good(d) => AddFirst(d.def, All(crc, d.rest, isFunction))
  }

  function ParseText(u: Unicode, crc: Crc, text: string): (r: Parsed<Schema>) { All(crc, Tokens(u, text, 1), false) }

  // ---- The parser object ----

  class TLParser {
    const scanner: Scanner
    var cur: Token
    var isFunction: bool

    ghost predicate Valid()
      reads this`cur, scanner
    {
      scanner.Valid() && (cur.kind == EOF ==> scanner.pos >= |scanner.input| && cur == Token(EOF, "", scanner.line))
    }

    ghost function Rest(): (ts: Stream)
      reads this`cur, scanner
      requires Valid()
      ensures ts[0] == cur
    {
      if cur.kind == EOF then [cur] else [cur] + Tokens(scanner.u, scanner.Rest(), scanner.line)
    }

    constructor (u: Unicode, input: string)
      ensures Valid() && fresh(scanner) && !isFunction && Rest() == Tokens(u, input, 1)
    {
      scanner := new Scanner(u, input);
      isFunction := false;
      cur := Token(Semicolon, "", 1);
      new;
      cur := scanner.NextToken();
    }

    method NextToken()
      requires Valid()
      modifies this`cur, scanner
      ensures Valid() && Rest() == Adv(old(Rest()))
    {
      hide LexOne;
      ghost var s, line := scanner.Rest(), scanner.line;
      LexNothing(scanner.u, line);
      cur := scanner.NextToken();
      TokensStep(scanner.u, s, line);
    }

    method SkipBraces()
      requires Valid()
      modifies this`cur, scanner
      ensures Valid() && Rest() == AfterBraces(old(Rest()))
    {
      hide Tokens, Adv;
      ghost var goal := ToBraceClose(Rest());
      while cur.kind != BraceClose && cur.kind != EOF
        invariant Valid() && ToBraceClose(Rest()) == goal
        decreases |Rest()|
      {
        NextToken();
      }
      if cur.kind == BraceClose {
        NextToken();
      }
    }

    /** The rest of a type whose first word has been read. */
    method ParseTypeAfter(word: string) returns (typ: string, elem: Option<string>)
      requires Valid()
      modifies this`cur, scanner
      ensures Valid() && Typed(typ, elem, Rest()) == TypeAfter(old(Rest()), word)
    {
      hide Tokens, Adv;
      typ, elem := word, None;
      if word == "Vector" && cur.kind == AngleOpen {
        NextToken();
        var e := cur.value;
        NextToken();
        if cur.kind == AngleClose {
          NextToken();
        }
        typ, elem := "Vector<" + e + ">", Some(e);
      }
    }

    method ParseParamType(name: string) returns (param: Param, sig: string)
      requires Valid()
      modifies this`cur, scanner
      ensures Valid() && ParsedParam(param, sig, Rest()) == ParamType(old(Rest()), name)
    {
      hide Rest, Valid, Tokens, Adv, TypeAfter, FlagOf;
      var raw := cur.value;
      NextToken();
      if cur.kind == Question {
        NextToken();
        var condType := cur.value;
        NextToken();
        var typ, elem := ParseTypeAfter(condType);
        param := Param(name, typ, Some(FlagOf(raw, typ)), elem.Some?, if elem.Some? then elem.value else "");
        sig := name + ":" + raw + "?" + typ;
        return;
      }
      var typ, elem := ParseTypeAfter(raw);
      param := Param(name, typ, None, elem.Some?, if elem.Some? then elem.value else "");
      sig := name + ":" + typ;
    }

    method ParseParams() returns (params: seq<Param>, sigs: seq<string>)
      requires Valid()
      modifies this`cur, scanner
      ensures Valid() && ParsedParams(params, sigs, Rest()) == Params(old(Rest()))
    {
      hide Rest, Valid, Tokens, Adv, ParamType, AfterBraces, MoreParams;
      params, sigs := [], [];
      ghost var goal := Params(Rest());
      NoParamsYet(goal);
      while cur.kind != Equals && cur.kind != EOF && cur.kind != Semicolon
        invariant Valid()
        invariant goal == MoreParams(params, sigs, Params(Rest()))
        decreases |Rest()|
      {
        if cur.kind == BraceOpen {
          SkipBraces();
          continue;
        }
        if cur.kind != Ident {
          NextToken();
          continue;
        }
        var name := cur.value;
        NextToken();
        if cur.kind != Colon {
          continue;
        }
        NextToken();
        var param, sig := ParseParamType(name);
        MoreParamsStep(params, sigs, param, sig, Params(Rest()));
        params, sigs := params + [param], sigs + [sig];
      }
      NoParamsLeft(params, sigs, Rest());
    }

    method ParseDefinition(crc: Crc) returns (r: Parsed<Definition>)
      requires Valid()
      modifies this`cur, scanner
      ensures Valid()
      ensures match Def(crc, old(Rest()), isFunction)
        case Bad(e) => r == Bad(e)
        case Good(d) => r == Good(d.def) && Rest() == d.rest
    {
      hide Rest, Valid, Tokens, Adv, Params, AfterBraces, Body, ParseHex;
      if cur.kind == BraceOpen {
        SkipBraces();
      }
      if cur.kind != Ident {
        return Bad(ExpectedName(cur.line, cur.kind, cur.value));
      }
      var name := cur.value;
      NextToken();
      var id := None;
      if cur.kind == HexID {
        id := ParseHex(cur.value);
        if id.None? {
          return Bad(InvalidHexID(cur.line, cur.value));
        }
        NextToken();
      }
      r := ParseBody(crc, name, id);
    }

    method ParseBody(crc: Crc, name: string, id: Option<nat>) returns (r: Parsed<Definition>)
      requires Valid()
      modifies this`cur, scanner
      ensures Valid()
      ensures match Body(crc, old(Rest()), name, id, isFunction)
        case Bad(e) => r == Bad(e)
        case Good(d) => r == Good(d.def) && Rest() == d.rest
    {
      hide Rest, Valid, Tokens, Adv, Params, TypeAfter, Signature;
      var params, sigs := ParseParams();
      if cur.kind != Equals {
        return Bad(ExpectedEquals(cur.line, name));
      }
      NextToken();
      if cur.kind != Ident {
        return Bad(ExpectedResult(cur.line, cur.kind));
      }
      var word := cur.value;
      NextToken();
      var result, _ := ParseTypeAfter(word);
      if cur.kind == Semicolon {
        NextToken();
      }
      var theId := if id.Some? then id.value else crc(Signature(name, sigs, result));
      r := Good(Definition(name, theId, params, result, isFunction));
    }
  }

  lemma LexNothing(u: Unicode, line: nat)
    ensures LexOne(u, "", line) == Lexed(Token(EOF, "", line), "", line)
  {
  }

  lemma TokensStep(u: Unicode, s: string, line: nat)
    ensures var r := LexOne(u, s, line);
      Tokens(u, s, line) == if r.tok.kind == EOF then [r.tok] else [r.tok] + Tokens(u, r.rest, r.line)
  {
  }

  /** A schema read before the rest of the text. */
  function After(s: Schema, r: Parsed<Schema>): (q: Parsed<Schema>)
  {
    match r
    case Bad(e) => Bad(e)
    case Good(t) => Good(Schema(s.constructors + t.constructors, s.functions + t.functions))
  }

  function Appended(s: Schema, d: Definition): (s': Schema)
  {
    if d.isFunction then s.(functions := s.functions + [d]) else s.(constructors := s.constructors + [d])
  }

  lemma AfterAppended(s: Schema, d: Definition, r: Parsed<Schema>)
    ensures After(Appended(s, d), r) == After(s, AddFirst(d, r))
  {
    if r.Good? {
      var t := r.value;
      assert s.functions + [d] + t.functions == s.functions + ([d] + t.functions);
      assert s.constructors + [d] + t.constructors == s.constructors + ([d] + t.constructors);
    }
  }

  /** Parse: total on every text. */
  method Parse(u: Unicode, crc: Crc, input: string) returns (r: Parsed<Schema>)
    ensures r == ParseText(u, crc, input)
  {
    hide TLParser.Rest, TLParser.Valid, Tokens, Def, AddFirst, After, Appended, Adv;
    var p := new TLParser(u, input);
    var schema := Schema([], []);
    ghost var goal := All(crc, p.Rest(), false);
    assert After(schema, goal) == goal by { NothingRead(goal); }
    while p.cur.kind != EOF
      invariant p.Valid() && fresh(p) && fresh(p.scanner)
      invariant After(schema, All(crc, p.Rest(), p.isFunction)) == goal
      decreases |p.Rest()|
    {
      if p.cur.kind == SectionTypes {
        p.isFunction := false;
        p.NextToken();
      } else if p.cur.kind == SectionFunctions {
        p.isFunction := true;
        p.NextToken();
      } else if p.cur.kind == Semicolon {
        p.NextToken();
      } else {
        var d := p.ParseDefinition(crc);
        if d.Bad? {
          BadAfter(schema, d.error);
          return Bad(d.error);
        }
        AfterAppended(schema, d.value, All(crc, p.Rest(), p.isFunction));
        schema := Appended(schema, d.value);
      }
    }
    LastRead(schema);
    r := Good(schema);
  }

  lemma LastRead(s: Schema)
    ensures After(s, Good(Schema([], []))) == Good(s)
  {
    assert s.constructors + [] == s.constructors && s.functions + [] == s.functions;
  }

  lemma BadAfter(s: Schema, e: Error)
    ensures After(s, Bad(e)) == Bad(e)
  {
  }

  lemma NothingRead(r: Parsed<Schema>)
    ensures After(Schema([], []), r) == r
  {
    if r.Good? {
      assert [] + r.value.constructors == r.value.constructors && [] + r.value.functions == r.value.functions;
    }
  }
}
