/** A canonical text for a schema, and what parsing it gives. */
module Printer {
  import opened Bytes
  import opened Schemas
  import opened Lexer
  import opened Parser

  // ---- The text ----

  function HexDigit(d: nat): (c: char)
    requires d < 16
    ensures IsHexDigit(c) && HexValue(c) == d
  {
    if d < 10 then '0' + d as char else 'a' + (d - 10) as char
  }

  function HexText(n: nat): (s: string)
    ensures |s| > 0 && forall i :: 0 <= i < |s| ==> IsHexDigit(s[i])
  {
    if n < 16 then [HexDigit(n)] else HexText(n / 16) + [HexDigit(n % 16)]
  }

  function DecText(n: nat): (s: string)
    ensures |s| > 0 && IsDecimal(s)
  {
    if n < 10 then ['0' + n as char] else DecText(n / 10) + ['0' + (n % 10) as char]
  }

  function FlagWord(f: FlagCondition): (w: string) { f.field + "." + DecText(f.bit) }

  function PrintParam(p: Param): (s: string)
  {
    p.name + ":" + (match p.flag case Some(f) => FlagWord(f) + "?" case None => "") + p.typ
  }

  function PrintParams(ps: seq<Param>): (s: string)
  {
    if |ps| == 0 then "" else " " + PrintParam(ps[0]) + PrintParams(ps[1..])
  }

  /** A declaration without its id and semicolon. */
  function Declaration(d: Definition): (s: string) { d.name + PrintParams(d.params) + " = " + d.resultType }

  function PrintDef(d: Definition, bare: bool): (s: string)
  {
    d.name + (if bare then "" else "#" + HexText(d.id)) + PrintParams(d.params) + " = " + d.resultType + ";\n"
  }

  /** bare says which definitions are printed without their id. */
  function PrintDefs(ds: seq<Definition>, bare: Definition -> bool): (s: string)
  {
    if |ds| == 0 then "" else PrintDef(ds[0], bare(ds[0])) + PrintDefs(ds[1..], bare)
  }

  function Print(s: Schema, bare: Definition -> bool): (text: string)
  {
    "---types---\n" + PrintDefs(s.constructors, bare) + "---functions---\n" + PrintDefs(s.functions, bare)
  }

  // ---- Which schemas ----

  /** What Unicode says about the characters the printer and the lexer use. */
  ghost predicate Sane(u: Unicode)
  {
    && (forall c :: u.letter(c) ==> !u.space(c))
    && (forall c :: 'a' <= c <= 'z' || 'A' <= c <= 'Z' ==> u.letter(c))
    && (forall c :: '0' <= c <= '9' ==> u.digit(c))
    && (forall c :: c in ":=;?<>{}#-/_%." ==> !u.letter(c) && !u.digit(c) && !u.space(c))
    && u.space(' ') && !u.digit(' ') && !u.letter('\n') && !u.digit('\n')
  }

  /** The ASCII classes are such. */
  lemma AsciiIsSane()
    ensures Sane(Unicode(c => 'a' <= c <= 'z' || 'A' <= c <= 'Z', c => '0' <= c <= '9', c => c == ' ' || c == '\n'))
  {
  }

  predicate Word(u: Unicode, w: string)
  {
    && |w| > 0 && (u.letter(w[0]) || w[0] == '_' || w[0] == '%')
    && forall i :: 0 <= i < |w| ==> u.letter(w[i]) || u.digit(w[i]) || w[i] == '_' || w[i] == '.' || w[i] == '%'
  }

  predicate TypeWord(u: Unicode, t: string) { t == "#" || Word(u, t) }

  /** The element type in a vector type. */
  function Elem(t: string): (e: Option<string>)
    ensures e.Some? ==> t == "Vector<" + e.value + ">"
  {
    if |t| > 8 && t[..7] == "Vector<" && t[|t| - 1] == '>' then
      assert t == t[..7] + t[7..|t| - 1] + t[|t| - 1..];
      Some(t[7..|t| - 1])
    else None
  }

  predicate PrintableType(u: Unicode, t: string)
  {
    match Elem(t) case Some(e) => TypeWord(u, e) case None => TypeWord(u, t)
  }

  predicate PrintableParam(u: Unicode, p: Param)
  {
    && Word(u, p.name) && PrintableType(u, p.typ)
    && p.isVector == Elem(p.typ).Some? && p.elemType == (match Elem(p.typ) case Some(e) => e case None => "")
    && match p.flag
       case None => true
       case Some(f) => Word(u, f.field) && '.' !in f.field && f.bit < TWO_63 && f.isTrue == (p.typ == "true")
  }

  predicate PrintableDef(u: Unicode, d: Definition, isFunction: bool)
  {
    && Word(u, d.name) && d.id < TWO_32 && d.isFunction == isFunction
    && (forall i :: 0 <= i < |d.params| ==> PrintableParam(u, d.params[i]))
    && PrintableType(u, d.resultType) && d.resultType != "#"
  }

  predicate Printable(u: Unicode, s: Schema)
  {
    && (forall i :: 0 <= i < |s.constructors| ==> PrintableDef(u, s.constructors[i], false))
    && (forall i :: 0 <= i < |s.functions| ==> PrintableDef(u, s.functions[i], true))
  }

  /** The definition with the id the parser gives it: its own, or the checksum of its declaration. */
  function WithId(crc: Crc, d: Definition, bare: bool): (r: Definition)
  {
    if bare then d.(id := crc(Declaration(d))) else d
  }

  function WithIds(crc: Crc, ds: seq<Definition>, bare: Definition -> bool): (r: seq<Definition>)
  {
    if |ds| == 0 then [] else [WithId(crc, ds[0], bare(ds[0]))] + WithIds(crc, ds[1..], bare)
  }

  // ---- Its tokens ----

  function WordToken(t: string, line: nat): (k: Token)
  {
    if t == "#" then Token(Hash, "#", line) else Token(Ident, t, line)
  }

  function Cons(t: Token, rest: Stream): (ts: Stream)
    ensures ts[0] == t
  {
    [t] + rest
  }

  function TypeTokens(t: string, line: nat, rest: Stream): (ts: Stream)
  {
    match Elem(t)
    case Some(e) =>
      [Token(Ident, "Vector", line)] + ([Token(AngleOpen, "<", line)] +
        ([WordToken(e, line)] + ([Token(AngleClose, ">", line)] + rest)))
    case None => [WordToken(t, line)] + rest
  }

  function FlagTokens(p: Param, line: nat, rest: Stream): (ts: Stream)
  {
    match p.flag
    case Some(f) => [Token(Ident, FlagWord(f), line)] + ([Token(Question, "?", line)] + rest)
    case None => rest
  }

  function ParamTokens(p: Param, line: nat, rest: Stream): (ts: Stream)
  {
    [Token(Ident, p.name, line)] + ([Token(Colon, ":", line)] + FlagTokens(p, line, TypeTokens(p.typ, line, rest)))
  }

  function ParamsTokens(ps: seq<Param>, line: nat, rest: Stream): (ts: Stream)
    ensures |ps| > 0 ==> ts[0].kind == Ident
  {
    if |ps| == 0 then rest else ParamTokens(ps[0], line, ParamsTokens(ps[1..], line, rest))
  }

  function IdTokens(d: Definition, bare: bool, line: nat, rest: Stream): (ts: Stream)
  {
    if bare then rest else [Token(HexID, HexText(d.id), line)] + rest
  }

  function ResultTokens(t: string, line: nat, rest: Stream): (ts: Stream)
    ensures ts[0].kind == Equals
  {
    Cons(Token(Equals, "=", line), TypeTokens(t, line, Cons(Token(Semicolon, ";", line), rest)))
  }

  function DefTokens(d: Definition, bare: bool, line: nat, rest: Stream): (ts: Stream)
    ensures ts[0].kind == Ident
  {
    Cons(Token(Ident, d.name, line),
      IdTokens(d, bare, line, ParamsTokens(d.params, line, ResultTokens(d.resultType, line, rest))))
  }

  function DefsTokens(ds: seq<Definition>, bare: Definition -> bool, line: nat, rest: Stream): (ts: Stream)
  {
    if |ds| == 0 then rest else DefTokens(ds[0], bare(ds[0]), line, DefsTokens(ds[1..], bare, line + 1, rest))
  }

  // ---- Lexing the text ----

  /** The text does not go on with an identifier, nor with a hex number. */
  predicate Stops(u: Unicode, s: string) { |s| == 0 || (!IsIdentPart(u, s[0]) && !IsHexDigit(s[0])) }

  lemma RunOf(u: Unicode, k: Class, w: string, rest: string)
    requires (forall i :: 0 <= i < |w| ==> In(u, k, w[i])) && (|rest| == 0 || !In(u, k, rest[0]))
    ensures RunLen(u, k, w + rest) == |w| && (w + rest)[..|w|] == w && (w + rest)[|w|..] == rest
  {
    var s := w + rest;
    var n := RunLen(u, k, s);
    assert |rest| > 0 ==> s[|w|] == rest[0];
    assert forall i :: 0 <= i < |w| ==> s[i] == w[i];
  }

  lemma Unskipped(u: Unicode, s: string, line: nat)
    requires |s| > 0 && s[0] != '\n' && !u.space(s[0]) && s[0] != '/' && s[0] != '-'
    ensures LexOne(u, s, line) == LexPlain(u, s, line)
  {
    assert Skip(u, s, line) == (s, line);
  }

  lemma LexWord(u: Unicode, w: string, rest: string, line: nat)
    requires Sane(u) && Word(u, w) && Stops(u, rest)
    ensures Tokens(u, w + rest, line) == [Token(Ident, w, line)] + Tokens(u, rest, line)
  {
    hide LexOne, Tokens;
    var s := w + rest;
    assert s[0] == w[0];
    StartIsPlain(u, w[0]);
    Unskipped(u, s, line);
    RunOf(u, IdentChars, w, rest);
    TokensStep(u, s, line);
  }

  lemma StartIsPlain(u: Unicode, c: char)
    requires Sane(u) && IsIdentStart(u, c)
    ensures c != '\n' && !u.space(c) && c != '/' && c != '-' && c != '#' && SymbolKind(c) == None
  {
    var punct := ":=;?<>{}#-/_%.";
    assert punct[0] == ':' && punct[1] == '=' && punct[2] == ';' && punct[3] == '?';
    assert punct[4] == '<' && punct[5] == '>';
    assert punct[6] == '{' && punct[7] == '}' && punct[8] == '#' && punct[9] == '-' && punct[10] == '/';
    assert punct[11] == '_' && punct[12] == '%';
  }

  lemma SymbolIsPlain(u: Unicode, c: char)
    requires Sane(u) && (SymbolKind(c).Some? || c == '#')
    ensures c != '\n' && !u.space(c) && c != '/' && c != '-' && !IsIdentPart(u, c) && !IsHexDigit(c)
  {
    var punct := ":=;?<>{}#-/_%.";
    assert punct[0] == ':' && punct[1] == '=' && punct[2] == ';' && punct[3] == '?';
    assert punct[4] == '<' && punct[5] == '>';
    assert punct[6] == '{' && punct[7] == '}' && punct[8] == '#';
  }

  lemma LexSymbol(u: Unicode, c: char, rest: string, line: nat)
    requires Sane(u) && SymbolKind(c).Some?
    ensures Tokens(u, [c] + rest, line) == [Token(SymbolKind(c).value, [c], line)] + Tokens(u, rest, line)
    ensures Stops(u, [c] + rest)
  {
    hide LexOne, Tokens, Sane, SymbolKind;
    var s := [c] + rest;
    assert s[0] == c && s[1..] == rest;
    SymbolIsPlain(u, c);
    Unskipped(u, s, line);
    TokensStep(u, s, line);
  }

  lemma LexHash(u: Unicode, rest: string, line: nat)
    requires Sane(u) && Stops(u, rest)
    ensures Tokens(u, "#" + rest, line) == [Token(Hash, "#", line)] + Tokens(u, rest, line)
  {
    hide LexOne, Tokens, Sane;
    var s := "#" + rest;
    assert s[0] == '#' && s[1..] == rest;
    SymbolIsPlain(u, '#');
    Unskipped(u, s, line);
    assert RunLen(u, HexChars, rest) == 0;
    TokensStep(u, s, line);
  }

  lemma LexHexId(u: Unicode, h: string, rest: string, line: nat)
    requires Sane(u) && |h| > 0 && (forall i :: 0 <= i < |h| ==> IsHexDigit(h[i])) && Stops(u, rest)
    ensures Tokens(u, "#" + h + rest, line) == [Token(HexID, h, line)] + Tokens(u, rest, line)
    ensures Stops(u, "#" + h + rest)
  {
    hide LexOne, Tokens, Sane;
    var s := "#" + h + rest;
    assert s[0] == '#' && s[1..] == h + rest;
    SymbolIsPlain(u, '#');
    Unskipped(u, s, line);
    RunOf(u, HexChars, h, rest);
    TokensStep(u, s, line);
  }

  lemma LexBlank(u: Unicode, s: string, line: nat)
    requires Sane(u)
    ensures Tokens(u, " " + s, line) == Tokens(u, s, line) && Stops(u, " " + s)
  {
    var t := " " + s;
    assert t[0] == ' ' && t[1..] == s;
    assert Skip(u, t, line) == Skip(u, s, line);
    assert LexOne(u, t, line) == LexOne(u, s, line);
  }

  lemma LexNewline(u: Unicode, s: string, line: nat)
    requires Sane(u)
    ensures Tokens(u, "\n" + s, line) == Tokens(u, s, line + 1)
  {
    var t := "\n" + s;
    assert t[0] == '\n' && t[1..] == s;
    assert Skip(u, t, line) == Skip(u, s, line + 1);
    assert LexOne(u, t, line) == LexOne(u, s, line + 1);
  }

  /** Section markers. */
  lemma LexSection(u: Unicode, name: string, rest: string, line: nat)
    requires Sane(u) && (name == "types" || name == "functions")
    ensures Tokens(u, "---" + name + "---\n" + rest, line) ==
      [Token(if name == "types" then SectionTypes else SectionFunctions, name, line)] + Tokens(u, rest, line + 1)
  {
    hide Tokens, LexOne, Sane;
    MarkerLexed(u, name, rest, line);
    TokensStep(u, "---" + name + "---\n" + rest, line);
    LexNewline(u, rest, line);
  }

  lemma MarkerLexed(u: Unicode, name: string, rest: string, line: nat)
    requires Sane(u) && (name == "types" || name == "functions")
    ensures LexOne(u, "---" + name + "---\n" + rest, line) ==
      Lexed(Token(if name == "types" then SectionTypes else SectionFunctions, name, line), "\n" + rest, line)
  {
    hide Skip, RunLen, Trim, Sane;
    var s := "---" + name + "---\n" + rest;
    var w, after := name + "---", "\n" + rest;
    assert s[0] == '-' && s[1] == '-' && s[2] == '-' && s[3..] == w + after;
    DashIsPlain(u, s, line);
    MarkerWord(u, name, rest);
    RunOf(u, MarkerChars, w, after);
    TrimName(name);
    assert LexOne(u, s, line) == LexMarker(u, s[3..], line);
  }

  lemma DashIsPlain(u: Unicode, s: string, line: nat)
    requires Sane(u) && |s| > 0 && s[0] == '-'
    ensures Skip(u, s, line) == (s, line)
  {
    assert ":=;?<>{}#-/_%."[9] == '-';
  }

  lemma MarkerWord(u: Unicode, name: string, rest: string)
    requires Sane(u) && (name == "types" || name == "functions")
    ensures forall i :: 0 <= i < |name + "---"| ==> In(u, MarkerChars, (name + "---")[i])
    ensures !In(u, MarkerChars, ("\n" + rest)[0])
  {
    assert forall i :: 0 <= i < |name| ==> In(u, MarkerChars, name[i]);
  }

  lemma TrimName(name: string)
    requires name == "types" || name == "functions"
    ensures Trim(name + "---") == name
  {
    var w := name + "---";
    assert TrimLeft(w) == w;
    TrimDash(name);
    TrimDash(name + "-");
    TrimDash(name + "--");
    assert name + "-" + "-" == name + "--" && name + "--" + "-" == w;
    assert TrimRight(name) == name;
  }

  lemma TrimDash(s: string)
    ensures TrimRight(s + "-") == TrimRight(s)
  {
    assert (s + "-")[..|s|] == s;
  }

  lemma LexType(u: Unicode, t: string, rest: string, line: nat)
    requires Sane(u) && PrintableType(u, t) && Stops(u, rest)
    ensures Tokens(u, t + rest, line) == TypeTokens(t, line, Tokens(u, rest, line))
  {
    hide Sane, Tokens, Word, Stops, SymbolKind;
    match Elem(t)
    case None => LexTypeWord(u, t, rest, line);
    case Some(e) =>
      var s3 := ">" + rest;
      var s2 := e + s3;
      var s1 := "<" + s2;
      VectorText(e, rest);
      VectorIsWord(u);
      LexAngles(u, s2, line);
      LexAngles(u, rest, line);
      LexWord(u, "Vector", s1, line);
      LexTypeWord(u, e, s3, line);
  }

  lemma VectorText(e: string, rest: string)
    ensures "Vector<" + e + ">" + rest == "Vector" + ("<" + (e + (">" + rest)))
  {
    assert "Vector<" == "Vector" + "<";
  }

  lemma LexAngles(u: Unicode, s: string, line: nat)
    requires Sane(u)
    ensures Tokens(u, "<" + s, line) == [Token(AngleOpen, "<", line)] + Tokens(u, s, line) && Stops(u, "<" + s)
    ensures Tokens(u, ">" + s, line) == [Token(AngleClose, ">", line)] + Tokens(u, s, line) && Stops(u, ">" + s)
  {
    hide Sane, Tokens;
    LexSymbol(u, '<', s, line);
    LexSymbol(u, '>', s, line);
  }

  lemma VectorIsWord(u: Unicode)
    requires Sane(u)
    ensures Word(u, "Vector")
  {
  }

  lemma LexTypeWord(u: Unicode, t: string, rest: string, line: nat)
    requires Sane(u) && TypeWord(u, t) && Stops(u, rest)
    ensures Tokens(u, t + rest, line) == [WordToken(t, line)] + Tokens(u, rest, line)
  {
    hide Sane, Tokens, Word, Stops;
    if t == "#" {
      LexHash(u, rest, line);
    } else {
      LexWord(u, t, rest, line);
    }
  }

  lemma FlagIsWord(u: Unicode, f: FlagCondition)
    requires Sane(u) && Word(u, f.field)
    ensures Word(u, FlagWord(f))
  {
    var d := DecText(f.bit);
    var w := f.field + "." + d;
    forall i | 0 <= i < |w| ensures IsIdentPart(u, w[i]) {
      if i > |f.field| {
        assert w[i] == d[i - |f.field| - 1];
      }
    }
    assert w[0] == f.field[0];
  }

  lemma LexParam(u: Unicode, p: Param, rest: string, line: nat)
    requires Sane(u) && PrintableParam(u, p) && Stops(u, rest)
    ensures Tokens(u, " " + PrintParam(p) + rest, line) == ParamTokens(p, line, Tokens(u, rest, line))
    ensures Stops(u, " " + PrintParam(p) + rest)
  {
    hide Sane, Tokens, Word, Stops, PrintableType, TypeTokens, FlagWord, Elem;
    var typed := p.typ + rest;
    var tail := (match p.flag case Some(f) => FlagWord(f) + "?" case None => "") + typed;
    var colon := ":" + tail;
    var all := p.name + colon;
    assert " " + PrintParam(p) + rest == " " + all;
    LexBlank(u, all, line);
    LexSymbol(u, ':', tail, line);
    LexWord(u, p.name, colon, line);
    LexType(u, p.typ, rest, line);
    match p.flag
    case None => assert tail == typed;
    case Some(f) =>
      var question := "?" + typed;
      assert tail == FlagWord(f) + question;
      LexSymbol(u, '?', typed, line);
      FlagIsWord(u, f);
      LexWord(u, FlagWord(f), question, line);
  }

  lemma {:induction false} LexParams(u: Unicode, ps: seq<Param>, rest: string, line: nat)
    requires Sane(u) && (forall i :: 0 <= i < |ps| ==> PrintableParam(u, ps[i])) && Stops(u, rest)
    ensures Tokens(u, PrintParams(ps) + rest, line) == ParamsTokens(ps, line, Tokens(u, rest, line))
    ensures Stops(u, PrintParams(ps) + rest)
    decreases |ps|
  {
    hide Sane, Tokens, Stops, PrintableParam, PrintParam, ParamTokens;
    if |ps| == 0 {
      assert PrintParams(ps) + rest == rest;
    } else {
      LexParams(u, ps[1..], rest, line);
      var more := PrintParams(ps[1..]) + rest;
      assert PrintParams(ps) + rest == " " + PrintParam(ps[0]) + more;
      LexParam(u, ps[0], more, line);
    }
  }

  lemma LexResult(u: Unicode, t: string, rest: string, line: nat)
    requires Sane(u) && PrintableType(u, t)
    ensures Tokens(u, " = " + t + ";\n" + rest, line) == ResultTokens(t, line, Tokens(u, rest, line + 1))
    ensures Stops(u, " = " + t + ";\n" + rest)
  {
    hide Sane, Tokens, Stops, PrintableType, TypeTokens;
    var s4 := "\n" + rest;
    var s3 := ";" + s4;
    var s2 := t + s3;
    var s1 := " " + s2;
    var s0 := "=" + s1;
    assert " = " + t + ";\n" + rest == " " + s0;
    LexBlank(u, s0, line);
    LexSymbol(u, '=', s1, line);
    LexBlank(u, s2, line);
    LexSymbol(u, ';', s4, line);
    LexType(u, t, s3, line);
    LexNewline(u, rest, line);
  }

  lemma DefText(d: Definition, bare: bool, rest: string)
    ensures PrintDef(d, bare) + rest ==
      d.name + ((if bare then "" else "#" + HexText(d.id)) +
        (PrintParams(d.params) + (" = " + d.resultType + ";\n" + rest)))
  {
    hide PrintParams, HexText;
  }

  lemma LexDef(u: Unicode, d: Definition, bare: bool, rest: string, line: nat)
    requires Sane(u) && PrintableDef(u, d, d.isFunction)
    ensures Tokens(u, PrintDef(d, bare) + rest, line) == DefTokens(d, bare, line, Tokens(u, rest, line + 1))
  {
    hide Sane, Tokens, Stops, Word, PrintableType, PrintableParam, PrintDef;
    hide PrintParams, ParamsTokens, ResultTokens, HexText;
    var s2 := " = " + d.resultType + ";\n" + rest;
    var s1 := PrintParams(d.params) + s2;
    var s0 := (if bare then "" else "#" + HexText(d.id)) + s1;
    DefText(d, bare, rest);
    LexResult(u, d.resultType, rest, line);
    LexParams(u, d.params, s2, line);
    if bare {
      assert s0 == s1;
    } else {
      LexHexId(u, HexText(d.id), s1, line);
    }
    LexWord(u, d.name, s0, line);
  }

  lemma {:induction false} LexDefs(u: Unicode, ds: seq<Definition>, bare: Definition -> bool, isFunction: bool,
      rest: string, line: nat)
    requires Sane(u) && forall i :: 0 <= i < |ds| ==> PrintableDef(u, ds[i], isFunction)
    ensures Tokens(u, PrintDefs(ds, bare) + rest, line) == DefsTokens(ds, bare, line, Tokens(u, rest, line + |ds|))
    decreases |ds|
  {
    hide Sane, Tokens, PrintDef, DefTokens, PrintableDef;
    if |ds| == 0 {
      assert PrintDefs(ds, bare) + rest == rest;
    } else {
      var more := PrintDefs(ds[1..], bare) + rest;
      assert PrintDefs(ds, bare) + rest == PrintDef(ds[0], bare(ds[0])) + more;
      assert PrintableDef(u, ds[0], ds[0].isFunction) by { SameKind(u, ds[0], isFunction); }
      LexDef(u, ds[0], bare(ds[0]), more, line);
      LexDefs(u, ds[1..], bare, isFunction, rest, line + 1);
    }
  }

  lemma SameKind(u: Unicode, d: Definition, isFunction: bool)
    requires PrintableDef(u, d, isFunction)
    ensures PrintableDef(u, d, d.isFunction) && d.isFunction == isFunction
  {
  }

  // ---- Parsing the tokens ----

  lemma AdvCons(t: Token, rest: Stream)
    ensures Adv([t] + rest) == rest
  {
  }

  lemma {:induction false} HexRoundTrip(n: nat)
    ensures HexNumber(HexText(n)) == n
  {
    var s := HexText(n);
    if n >= 16 {
      HexRoundTrip(n / 16);
      assert s[..|s| - 1] == HexText(n / 16);
    } else {
      assert s[..0] == "";
    }
  }

  /** An id of up to 32 bits is read, and no larger one. */
  lemma HexIff(n: nat)
    ensures ParseHex(HexText(n)) == if n < 0x1_0000_0000 then Some(n) else None
  {
    HexRoundTrip(n);
  }

  /** Digits may be of either case. */
  lemma HexCases(d: nat)
    requires d < 6
    ensures IsHexDigit('a' + d as char) && IsHexDigit('A' + d as char)
    ensures HexValue('a' + d as char) == HexValue('A' + d as char) == 10 + d
  {
  }

  lemma {:induction false} DecRoundTrip(n: nat)
    ensures DecNumber(DecText(n)) == n
  {
    var s := DecText(n);
    if n >= 10 {
      DecRoundTrip(n / 10);
      assert s[..|s| - 1] == DecText(n / 10);
    } else {
      assert s[..0] == "";
    }
  }

  lemma FlagRoundTrip(f: FlagCondition, typ: string)
    requires |f.field| > 0 && '.' !in f.field && f.bit < TWO_63 && f.isTrue == (typ == "true")
    ensures FlagOf(FlagWord(f), typ) == f
  {
    hide DecText, DecNumber;
    var d := DecText(f.bit);
    var w := FlagWord(f);
    assert w == f.field + "." + d;
    assert w[|f.field|] == '.';
    var dot := DotIndex(w);
    assert forall j :: 0 <= j < |f.field| ==> w[j] == f.field[j];
    assert dot == |f.field|;
    assert w[..dot] == f.field && w[dot + 1..] == d;
    DecRoundTrip(f.bit);
  }

  lemma TypeRoundTrip(t: string, rest: Stream, line: nat)
    requires rest[0].kind != AngleOpen
    ensures var ts := TypeTokens(t, line, rest); TypeAfter(Adv(ts), ts[0].value) == Typed(t, Elem(t), rest)
  {
    hide Adv;
    match Elem(t)
    case None => AdvCons(WordToken(t, line), rest);
    case Some(e) =>
      var t3 := [Token(AngleClose, ">", line)] + rest;
      var t2 := [WordToken(e, line)] + t3;
      var t1 := [Token(AngleOpen, "<", line)] + t2;
      AdvCons(Token(Ident, "Vector", line), t1);
      AdvCons(Token(AngleOpen, "<", line), t2);
      AdvCons(WordToken(e, line), t3);
      AdvCons(Token(AngleClose, ">", line), rest);
  }

  lemma ParamRoundTrip(u: Unicode, p: Param, rest: Stream, line: nat)
    requires PrintableParam(u, p) && rest[0].kind != AngleOpen && rest[0].kind != Question
    ensures ParamType(FlagTokens(p, line, TypeTokens(p.typ, line, rest)), p.name) == ParsedParam(p, PrintParam(p), rest)
  {
    hide Adv, PrintableType, Elem, TypeTokens, TypeAfter, FlagOf, FlagWord;
    var typed := TypeTokens(p.typ, line, rest);
    TypeRoundTrip(p.typ, rest, line);
    match p.flag
    case Some(f) =>
      var t1 := [Token(Question, "?", line)] + typed;
      AdvCons(Token(Ident, FlagWord(f), line), t1);
      AdvCons(Token(Question, "?", line), typed);
      FlagRoundTrip(f, p.typ);
    case None =>
      PlainType(p.typ, rest, line);
  }

  /** A type on its own is not followed by a question mark. */
  lemma PlainType(t: string, rest: Stream, line: nat)
    requires rest[0].kind != Question
    ensures Adv(TypeTokens(t, line, rest))[0].kind != Question
  {
  }

  function Sigs(ps: seq<Param>): (r: seq<string>) { if |ps| == 0 then [] else [PrintParam(ps[0])] + Sigs(ps[1..]) }

  lemma {:induction false} ParamsRoundTrip(u: Unicode, ps: seq<Param>, rest: Stream, line: nat)
    requires (forall i :: 0 <= i < |ps| ==> PrintableParam(u, ps[i])) && EndsParams(rest[0].kind)
    ensures Params(ParamsTokens(ps, line, rest)) == ParsedParams(ps, Sigs(ps), rest)
    decreases |ps|
  {
    hide Adv, PrintableParam, FlagTokens, TypeTokens, ParamType, PrintParam;
    if |ps| > 0 {
      var p := ps[0];
      var more := ParamsTokens(ps[1..], line, rest);
      var typed := FlagTokens(p, line, TypeTokens(p.typ, line, more));
      var colon := [Token(Colon, ":", line)] + typed;
      AdvCons(Token(Ident, p.name, line), colon);
      AdvCons(Token(Colon, ":", line), typed);
      ParamRoundTrip(u, p, more, line);
      ParamsRoundTrip(u, ps[1..], rest, line);
      assert ps == [p] + ps[1..];
    }
  }

  lemma {:induction false} JoinSigs(name: string, ps: seq<Param>)
    ensures Join([name] + Sigs(ps)) == name + PrintParams(ps)
    decreases |ps|
  {
    hide PrintParam, Join;
    if |ps| == 0 {
      JoinOne(name);
      assert [name] + Sigs(ps) == [name] && name + "" == name;
    } else {
      var first, more := PrintParam(ps[0]), PrintParams(ps[1..]);
      JoinSigs(first, ps[1..]);
      JoinStep(name, [first] + Sigs(ps[1..]));
      assert name + " " + (first + more) == name + (" " + first + more);
    }
  }

  lemma JoinOne(name: string)
    ensures Join([name]) == name
  {
  }

  lemma JoinStep(name: string, parts: seq<string>)
    requires |parts| > 0
    ensures Join([name] + parts) == name + " " + Join(parts)
  {
    assert ([name] + parts)[1..] == parts;
  }

  lemma BodyRoundTrip(u: Unicode, crc: Crc, d: Definition, id: Option<nat>, rest: Stream, line: nat)
    requires PrintableDef(u, d, d.isFunction)
    ensures Body(crc, ParamsTokens(d.params, line, ResultTokens(d.resultType, line, rest)), d.name, id, d.isFunction)
      == Good(ParsedDef(d.(id := if id.Some? then id.value else crc(Declaration(d))), rest))
  {
    hide Adv, Word, PrintableParam, PrintableType, TypeTokens, TypeAfter, PrintParams, ParamsTokens, Params, Elem;
    var semi := [Token(Semicolon, ";", line)] + rest;
    var typed := TypeTokens(d.resultType, line, semi);
    ParamsRoundTrip(u, d.params, ResultTokens(d.resultType, line, rest), line);
    AdvCons(Token(Equals, "=", line), typed);
    ResultIsIdent(u, d.resultType, semi, line);
    TypeRoundTrip(d.resultType, semi, line);
    AdvCons(Token(Semicolon, ";", line), rest);
    JoinSigs(d.name, d.params);
  }

  lemma ResultIsIdent(u: Unicode, t: string, rest: Stream, line: nat)
    requires PrintableType(u, t) && t != "#"
    ensures TypeTokens(t, line, rest)[0].kind == Ident
  {
  }

  lemma DefRoundTrip(u: Unicode, crc: Crc, d: Definition, bare: bool, rest: Stream, line: nat)
    requires PrintableDef(u, d, d.isFunction)
    ensures Def(crc, DefTokens(d, bare, line, rest), d.isFunction) == Good(ParsedDef(WithId(crc, d, bare), rest))
  {
    hide Adv, Word, PrintableParam, PrintableType, ResultTokens, ParamsTokens, Body, Declaration, HexText, HexNumber;
    var params := ParamsTokens(d.params, line, ResultTokens(d.resultType, line, rest));
    var after := IdTokens(d, bare, line, params);
    AdvCons(Token(Ident, d.name, line), after);
    if bare {
      assert params[0].kind == Ident || params[0].kind == Equals by {
        ParamsStart(d.params, ResultTokens(d.resultType, line, rest), line);
      }
      BodyRoundTrip(u, crc, d, None, rest, line);
    } else {
      AdvCons(Token(HexID, HexText(d.id), line), params);
      HexRoundTrip(d.id);
      BodyRoundTrip(u, crc, d, Some(d.id), rest, line);
    }
  }

  lemma ParamsStart(ps: seq<Param>, rest: Stream, line: nat)
    ensures ParamsTokens(ps, line, rest)[0].kind == Ident || ParamsTokens(ps, line, rest) == rest
  {
  }

  /** A schema with these definitions of one kind. */
  function OneKind(isFunction: bool, ds: seq<Definition>): (s: Schema)
  {
    if isFunction then Schema([], ds) else Schema(ds, [])
  }

  lemma {:induction false} DefsRoundTrip(u: Unicode, crc: Crc, ds: seq<Definition>, bare: Definition -> bool,
      isFunction: bool, rest: Stream, line: nat)
    requires forall i :: 0 <= i < |ds| ==> PrintableDef(u, ds[i], isFunction)
    ensures All(crc, DefsTokens(ds, bare, line, rest), isFunction) ==
      After(OneKind(isFunction, WithIds(crc, ds, bare)), All(crc, rest, isFunction))
    decreases |ds|
  {
    hide PrintableDef, Def, DefTokens, WithId, After, OneKind, AddFirst;
    if |ds| == 0 {
      assert OneKind(isFunction, []) == Schema([], []) by { NoneOfAKind(isFunction); }
      NothingRead(All(crc, rest, isFunction));
    } else {
      var d := ds[0];
      var more := DefsTokens(ds[1..], bare, line + 1, rest);
      SameKind(u, d, isFunction);
      DefRoundTrip(u, crc, d, bare(d), more, line);
      DefsRoundTrip(u, crc, ds[1..], bare, isFunction, rest, line + 1);
      KindOfWithId(crc, d, bare(d));
      AddOne(isFunction, WithId(crc, d, bare(d)), WithIds(crc, ds[1..], bare), All(crc, rest, isFunction));
    }
  }

  lemma NoneOfAKind(isFunction: bool)
    ensures OneKind(isFunction, []) == Schema([], [])
  {
  }

  lemma KindOfWithId(crc: Crc, d: Definition, bare: bool)
    ensures WithId(crc, d, bare).isFunction == d.isFunction
  {
  }

  lemma AddOne(isFunction: bool, d: Definition, ds: seq<Definition>, r: Parsed<Schema>)
    requires d.isFunction == isFunction
    ensures AddFirst(d, After(OneKind(isFunction, ds), r)) == After(OneKind(isFunction, [d] + ds), r)
  {
    if r.Good? {
      assert [d] + (ds + r.value.functions) == [d] + ds + r.value.functions;
      assert [d] + (ds + r.value.constructors) == [d] + ds + r.value.constructors;
    }
  }

  /**
   * Parsing the canonical text of a well-formed schema gives the schema back: with the ids that
   * are printed, and for a definition printed without one the checksum of its declaration.
   */
  lemma ParsePrint(u: Unicode, crc: Crc, s: Schema, bare: Definition -> bool)
    requires Sane(u) && Printable(u, s)
    ensures ParseText(u, crc, Print(s, bare)) ==
      Good(Schema(WithIds(crc, s.constructors, bare), WithIds(crc, s.functions, bare)))
  {
    hide *;
    WFParts(u, s);
    var n, m := |s.constructors|, |s.functions|;
    var fs := PrintDefs(s.functions, bare) + "";
    var second := "---" + "functions" + "---\n" + fs;
    var first := PrintDefs(s.constructors, bare) + second;
    PrintText(s, bare);
    LexSection(u, "types", first, 1);
    LexDefs(u, s.constructors, bare, false, second, 2);
    LexSection(u, "functions", fs, 2 + n);
    LexDefs(u, s.functions, bare, true, "", 3 + n);
    var eof: Stream := Tokens(u, "", 3 + n + m);
    var tf: Stream := DefsTokens(s.functions, bare, 3 + n, eof);
    var ts: Stream := [Token(SectionFunctions, "functions", 2 + n)] + tf;
    var tc: Stream := DefsTokens(s.constructors, bare, 2, ts);
    assert Tokens(u, Print(s, bare), 1) == [Token(SectionTypes, "types", 1)] + tc;
    AllSections(crc, tc, 1);
    DefsRoundTrip(u, crc, s.constructors, bare, false, ts, 2);
    AllSections(crc, tf, 2 + n);
    DefsRoundTrip(u, crc, s.functions, bare, true, eof, 3 + n);
    AllEnd(u, crc, 3 + n + m);
    BothKinds(WithIds(crc, s.constructors, bare), WithIds(crc, s.functions, bare));
    TextTokens(u, crc, Print(s, bare));
  }

  lemma TextTokens(u: Unicode, crc: Crc, text: string)
    ensures ParseText(u, crc, text) == All(crc, Tokens(u, text, 1), false)
  {
  }

  lemma WFParts(u: Unicode, s: Schema)
    requires Printable(u, s)
    ensures forall i :: 0 <= i < |s.constructors| ==> PrintableDef(u, s.constructors[i], false)
    ensures forall i :: 0 <= i < |s.functions| ==> PrintableDef(u, s.functions[i], true)
  {
  }

  lemma PrintText(s: Schema, bare: Definition -> bool)
    ensures var second := "---" + "functions" + "---\n" + (PrintDefs(s.functions, bare) + "");
      Print(s, bare) == "---" + "types" + "---\n" + (PrintDefs(s.constructors, bare) + second)
  {
    hide PrintDefs;
    var c, f := PrintDefs(s.constructors, bare), PrintDefs(s.functions, bare);
    assert "---types---\n" == "---" + "types" + "---\n" && "---functions---\n" == "---" + "functions" + "---\n";
    assert f + "" == f;
  }

  lemma BothKinds(cs: seq<Definition>, fs: seq<Definition>)
    ensures After(OneKind(false, cs), After(OneKind(true, fs), Good(Schema([], [])))) == Good(Schema(cs, fs))
  {
    assert cs + [] == cs && [] + (fs + []) == fs;
    LastRead(OneKind(true, fs));
  }

  lemma AllSections(crc: Crc, rest: Stream, line: nat)
    ensures All(crc, [Token(SectionTypes, "types", line)] + rest, false) == All(crc, rest, false)
    ensures All(crc, [Token(SectionFunctions, "functions", line)] + rest, false) == All(crc, rest, true)
  {
    AdvCons(Token(SectionTypes, "types", line), rest);
    AdvCons(Token(SectionFunctions, "functions", line), rest);
  }

  lemma AllEnd(u: Unicode, crc: Crc, line: nat)
    ensures All(crc, Tokens(u, "", line), true) == Good(Schema([], []))
  {
    LexNothing(u, line);
  }

  /** With every id printed nothing is lost. */
  lemma ParsePrintExplicit(u: Unicode, crc: Crc, s: Schema)
    requires Sane(u) && Printable(u, s)
    ensures ParseText(u, crc, Print(s, _ => false)) == Good(s)
  {
    hide Sane, PrintableDef;
    ParsePrint(u, crc, s, _ => false);
    KeepsIds(crc, s.constructors, _ => false);
    KeepsIds(crc, s.functions, _ => false);
  }

  lemma {:induction false} KeepsIds(crc: Crc, ds: seq<Definition>, bare: Definition -> bool)
    requires forall d :: !bare(d)
    ensures WithIds(crc, ds, bare) == ds
  {
    if |ds| > 0 {
      KeepsIds(crc, ds[1..], bare);
    }
  }
}
