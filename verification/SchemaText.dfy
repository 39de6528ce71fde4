/** Schemas as people write them: comments, generic groups, and what is wrong with a text. */
module SchemaText {
  import opened Bytes
  import opened Schemas
  import opened Lexer
  import opened Parser
  import opened Printer

  // ---- Comments ----

  lemma {:induction false} LineEndIs(t: string, s: string)
    requires '\n' !in t
    ensures LineEnd(t + "\n" + s) == "\n" + s && LineEnd(t) == ""
    decreases |t|
  {
    if |t| == 0 {
      assert t + "\n" + s == "\n" + s;
    } else {
      var all := t + "\n" + s;
      assert all[0] == t[0] && all[1..] == t[1..] + "\n" + s;
      LineEndIs(t[1..], s);
    }
  }

  lemma SlashIsPlain(u: Unicode)
    requires Sane(u)
    ensures !u.space('/')
  {
    assert ":=;?<>{}#-/_%."[10] == '/';
  }

  /** A comment line counts as a line and for nothing else. */
  lemma CommentLine(u: Unicode, t: string, s: string, line: nat)
    requires Sane(u) && '\n' !in t
    ensures Tokens(u, "//" + t + "\n" + s, line) == Tokens(u, s, line + 1)
  {
    hide Tokens, LineEnd;
    var all := "//" + t + "\n" + s;
    assert all[0] == '/' && all[1] == '/' && all[2..] == t + "\n" + s;
    SlashIsPlain(u);
    LineEndIs(t, s);
    assert Skip(u, all, line) == Skip(u, "\n" + s, line);
    SameSkip(u, all, "\n" + s, line);
    LexNewline(u, s, line);
  }

  /** And one that ends the text leaves nothing. */
  lemma LastComment(u: Unicode, t: string, line: nat)
    requires Sane(u) && '\n' !in t
    ensures Tokens(u, "//" + t, line) == [Token(EOF, "", line)]
  {
    hide Tokens, LineEnd;
    var all := "//" + t;
    assert all[0] == '/' && all[1] == '/' && all[2..] == t;
    SlashIsPlain(u);
    LineEndIs(t, "");
    assert Skip(u, all, line) == Skip(u, "", line);
    SameSkip(u, all, "", line);
    LexNothing(u, line);
    TokensStep(u, "", line);
  }

  lemma SameSkip(u: Unicode, a: string, b: string, line: nat)
    requires Skip(u, a, line) == Skip(u, b, line)
    ensures Tokens(u, a, line) == Tokens(u, b, line)
  {
    assert LexOne(u, a, line) == LexOne(u, b, line);
    TokensStep(u, a, line);
    TokensStep(u, b, line);
  }

  /** Comment lines, then the rest. */
  function CommentsText(cs: seq<string>, rest: string): (s: string)
  {
    if |cs| == 0 then rest else "//" + cs[0] + "\n" + CommentsText(cs[1..], rest)
  }

  lemma {:induction false} LexComments(u: Unicode, cs: seq<string>, rest: string, line: nat)
    requires Sane(u) && forall i :: 0 <= i < |cs| ==> '\n' !in cs[i]
    ensures Tokens(u, CommentsText(cs, rest), line) == Tokens(u, rest, line + |cs|)
    decreases |cs|
  {
    hide Tokens, Sane;
    if |cs| > 0 {
      CommentLine(u, cs[0], CommentsText(cs[1..], rest), line);
      LexComments(u, cs[1..], rest, line + 1);
    }
  }

  // ---- Generic groups ----

  function GroupText(x: string, t: string, rest: string): (s: string) { "{" + (x + (":" + (t + ("}" + rest)))) }

  function GroupTokens(x: string, t: string, line: nat, rest: Stream): (ts: Stream)
    ensures ts[0].kind == BraceOpen
  {
    Cons(Token(BraceOpen, "{", line), Cons(Token(Ident, x, line), Cons(Token(Colon, ":", line),
      Cons(Token(Ident, t, line), Cons(Token(BraceClose, "}", line), rest)))))
  }

  lemma LexGroup(u: Unicode, x: string, t: string, rest: string, line: nat)
    requires Sane(u) && Word(u, x) && Word(u, t)
    ensures Tokens(u, GroupText(x, t, rest), line) == GroupTokens(x, t, line, Tokens(u, rest, line))
  {
    hide Sane, Tokens, Word, Stops;
    var s3 := "}" + rest;
    var s2 := t + s3;
    var s1 := ":" + s2;
    LexSymbol(u, '}', rest, line);
    LexWord(u, t, s3, line);
    LexSymbol(u, ':', s2, line);
    LexWord(u, x, s1, line);
    LexSymbol(u, '{', x + s1, line);
  }

  /** A group in braces is stepped over, whatever is in it. */
  lemma {:induction false} BracesSkipped(inner: seq<Token>, line: nat, rest: Stream)
    requires forall i :: 0 <= i < |inner| ==> inner[i].kind != BraceClose && inner[i].kind != EOF
    ensures ToBraceClose(inner + ([Token(BraceClose, "}", line)] + rest)) == [Token(BraceClose, "}", line)] + rest
    decreases |inner|
  {
    var end := [Token(BraceClose, "}", line)] + rest;
    if |inner| == 0 {
      assert inner + end == end;
    } else {
      assert (inner + end)[1..] == inner[1..] + end;
      BracesSkipped(inner[1..], line, rest);
    }
  }

  lemma GroupSkipped(x: string, t: string, line: nat, rest: Stream)
    ensures AfterBraces(GroupTokens(x, t, line, rest)) == rest
  {
    hide ToBraceClose;
    var inner := [Token(BraceOpen, "{", line), Token(Ident, x, line), Token(Colon, ":", line), Token(Ident, t, line)];
    BracesSkipped(inner, line, rest);
    assert GroupTokens(x, t, line, rest) == inner + ([Token(BraceClose, "}", line)] + rest);
    AdvCons(Token(BraceClose, "}", line), rest);
  }

  // ---- Definitions with both ----

  /** A parameter, or a group among the parameters. */
  datatype Piece = Par(param: Param) | Group(name: string, typ: string)

  function ParamsOf(ps: seq<Piece>): (r: seq<Param>)
  {
    if |ps| == 0 then [] else if ps[0].Par? then [ps[0].param] + ParamsOf(ps[1..]) else ParamsOf(ps[1..])
  }

  /** A definition with comment lines and perhaps a group before it, its id or not, and groups inside. */
  datatype Written = Written(
    comments: seq<string>, lead: Option<(string, string)>, def: Definition, bare: bool, pieces: seq<Piece>)

  predicate GoodPiece(u: Unicode, p: Piece)
  {
    match p case Par(q) => PrintableParam(u, q) case Group(x, t) => Word(u, x) && Word(u, t)
  }

  predicate GoodText(u: Unicode, w: Written, isFunction: bool)
  {
    && PrintableDef(u, w.def, isFunction) && ParamsOf(w.pieces) == w.def.params
    && (forall i :: 0 <= i < |w.pieces| ==> GoodPiece(u, w.pieces[i]))
    && (forall i :: 0 <= i < |w.comments| ==> '\n' !in w.comments[i])
    && (w.lead.Some? ==> Word(u, w.lead.value.0) && Word(u, w.lead.value.1))
  }

  function PiecesText(ps: seq<Piece>, rest: string): (s: string)
  {
    if |ps| == 0 then rest
    else
      match ps[0]
      case Par(p) => " " + PrintParam(p) + PiecesText(ps[1..], rest)
      case Group(x, t) => " " + GroupText(x, t, PiecesText(ps[1..], rest))
  }

  function LeadText(lead: Option<(string, string)>, rest: string): (s: string)
  {
    match lead case None => rest case Some((x, t)) => GroupText(x, t, " " + rest)
  }

  function IdText(w: Written, rest: string): (s: string) { if w.bare then rest else "#" + HexText(w.def.id) + rest }

  function DefinitionText(w: Written, rest: string): (s: string)
  {
    CommentsText(w.comments, LeadText(w.lead, NamedText(w, rest)))
  }

  function AllText(ws: seq<Written>, rest: string): (s: string)
  {
    if |ws| == 0 then rest else DefinitionText(ws[0], AllText(ws[1..], rest))
  }

  function PiecesTokens(ps: seq<Piece>, line: nat, rest: Stream): (ts: Stream)
    ensures |ps| > 0 ==> ts[0].kind == Ident || ts[0].kind == BraceOpen
    ensures |ps| == 0 ==> ts == rest
  {
    if |ps| == 0 then rest
    else
      match ps[0]
      case Par(p) => ParamTokens(p, line, PiecesTokens(ps[1..], line, rest))
      case Group(x, t) => GroupTokens(x, t, line, PiecesTokens(ps[1..], line, rest))
  }

  function LeadTokens(lead: Option<(string, string)>, line: nat, rest: Stream): (ts: Stream)
  {
    match lead case None => rest case Some((x, t)) => GroupTokens(x, t, line, rest)
  }

  function WrittenTokens(w: Written, line: nat, rest: Stream): (ts: Stream)
    ensures ts[0].kind == Ident || ts[0].kind == BraceOpen
  {
    LeadTokens(w.lead, line, NamedTokens(w, line, rest))
  }

  lemma {:induction false} LexPieces(u: Unicode, ps: seq<Piece>, rest: string, line: nat)
    requires Sane(u) && (forall i :: 0 <= i < |ps| ==> GoodPiece(u, ps[i])) && Stops(u, rest)
    ensures Tokens(u, PiecesText(ps, rest), line) == PiecesTokens(ps, line, Tokens(u, rest, line))
    ensures Stops(u, PiecesText(ps, rest))
    decreases |ps|
  {
    hide Sane, Tokens, Stops, PrintableParam, Word, PrintParam, ParamTokens, GroupText, GroupTokens;
    if |ps| > 0 {
      var more := PiecesText(ps[1..], rest);
      LexPieces(u, ps[1..], rest, line);
      assert GoodPiece(u, ps[0]);
      match ps[0]
      case Par(p) => LexParam(u, p, more, line);
      case Group(x, t) =>
        LexGroup(u, x, t, more, line);
        LexBlank(u, GroupText(x, t, more), line);
    }
  }

  /** A definition from its name on. */
  function NamedText(w: Written, rest: string): (s: string)
  {
    w.def.name + IdText(w, PiecesText(w.pieces, " = " + w.def.resultType + ";\n" + rest))
  }

  function NamedTokens(w: Written, line: nat, rest: Stream): (ts: Stream)
    ensures ts[0].kind == Ident
  {
    Cons(Token(Ident, w.def.name, line),
      IdTokens(w.def, w.bare, line, PiecesTokens(w.pieces, line, ResultTokens(w.def.resultType, line, rest))))
  }

  lemma LexNamed(u: Unicode, w: Written, rest: string, line: nat)
    requires Sane(u) && GoodText(u, w, w.def.isFunction)
    ensures Tokens(u, NamedText(w, rest), line) == NamedTokens(w, line, Tokens(u, rest, line + 1))
  {
    hide Sane, Tokens, Stops, Word, PrintableType, PrintableParam, GoodPiece;
    hide PiecesText, PiecesTokens, ResultTokens, HexText;
    var s3 := " = " + w.def.resultType + ";\n" + rest;
    var s2 := PiecesText(w.pieces, s3);
    LexResult(u, w.def.resultType, rest, line);
    LexPieces(u, w.pieces, s3, line);
    if !w.bare {
      LexHexId(u, HexText(w.def.id), s2, line);
    }
    LexWord(u, w.def.name, IdText(w, s2), line);
  }

  lemma LexWritten(u: Unicode, w: Written, rest: string, line: nat)
    requires Sane(u) && GoodText(u, w, w.def.isFunction)
    ensures var here := line + |w.comments|;
      Tokens(u, DefinitionText(w, rest), line) == WrittenTokens(w, here, Tokens(u, rest, here + 1))
  {
    hide Sane, Tokens, Word, PrintableDef, GoodPiece, CommentsText, GroupText, GroupTokens, NamedText, NamedTokens;
    var here := line + |w.comments|;
    var named := NamedText(w, rest);
    LexNamed(u, w, rest, here);
    match w.lead {
      case None =>
      case Some((x, t)) =>
        LexGroup(u, x, t, " " + named, here);
        LexBlank(u, named, here);
    }
    LexComments(u, w.comments, LeadText(w.lead, named), line);
  }

  lemma {:induction false} PiecesRoundTrip(u: Unicode, ps: seq<Piece>, rest: Stream, line: nat)
    requires (forall i :: 0 <= i < |ps| ==> GoodPiece(u, ps[i])) && EndsParams(rest[0].kind)
    ensures Params(PiecesTokens(ps, line, rest)) == ParsedParams(ParamsOf(ps), Sigs(ParamsOf(ps)), rest)
    decreases |ps|
  {
    hide Adv, PrintableParam, FlagTokens, TypeTokens, ParamType, PrintParam, GroupTokens, Word, AfterBraces, Sigs;
    if |ps| == 0 {
      NoSigs();
    } else {
      var more := PiecesTokens(ps[1..], line, rest);
      PiecesRoundTrip(u, ps[1..], rest, line);
      assert GoodPiece(u, ps[0]);
      match ps[0]
      case Group(x, t) => GroupSkipped(x, t, line, more);
      case Par(p) =>
        var typed := FlagTokens(p, line, TypeTokens(p.typ, line, more));
        var colon := [Token(Colon, ":", line)] + typed;
        AdvCons(Token(Ident, p.name, line), colon);
        AdvCons(Token(Colon, ":", line), typed);
        ParamRoundTrip(u, p, more, line);
        MoreSigs(p, ParamsOf(ps[1..]));
    }
  }

  lemma NoSigs()
    ensures Sigs([]) == []
  {
  }

  lemma MoreSigs(p: Param, ps: seq<Param>)
    ensures Sigs([p] + ps) == [PrintParam(p)] + Sigs(ps)
  {
    assert ([p] + ps)[1..] == ps;
  }

  lemma PiecesBody(u: Unicode, crc: Crc, w: Written, id: Option<nat>, rest: Stream, line: nat)
    requires GoodText(u, w, w.def.isFunction)
    ensures var d := w.def;
      Body(crc, PiecesTokens(w.pieces, line, ResultTokens(d.resultType, line, rest)), d.name, id, d.isFunction)
        == Good(ParsedDef(d.(id := if id.Some? then id.value else crc(Declaration(d))), rest))
  {
    hide Adv, Word, GoodPiece, PrintableParam, PrintableType, TypeTokens, TypeAfter, PrintParams;
    hide PiecesTokens, Params, Elem;
    var d := w.def;
    var semi := [Token(Semicolon, ";", line)] + rest;
    PiecesRoundTrip(u, w.pieces, ResultTokens(d.resultType, line, rest), line);
    AdvCons(Token(Equals, "=", line), TypeTokens(d.resultType, line, semi));
    ResultIsIdent(u, d.resultType, semi, line);
    TypeRoundTrip(d.resultType, semi, line);
    AdvCons(Token(Semicolon, ";", line), rest);
    JoinSigs(d.name, d.params);
  }

  lemma WrittenRoundTrip(u: Unicode, crc: Crc, w: Written, rest: Stream, line: nat)
    requires GoodText(u, w, w.def.isFunction)
    ensures Def(crc, WrittenTokens(w, line, rest), w.def.isFunction) ==
      Good(ParsedDef(WithId(crc, w.def, w.bare), rest))
  {
    hide Adv, AfterBraces, GroupTokens, Word, GoodPiece, PrintableParam, PrintableType, ResultTokens, PiecesTokens;
    hide Body, Declaration, HexText, HexNumber, ParseHex;
    var d := w.def;
    var pieces := PiecesTokens(w.pieces, line, ResultTokens(d.resultType, line, rest));
    var after := IdTokens(d, w.bare, line, pieces);
    var named := NamedTokens(w, line, rest);
    if w.lead.Some? {
      GroupSkipped(w.lead.value.0, w.lead.value.1, line, named);
    }
    AdvCons(Token(Ident, d.name, line), after);
    if w.bare {
      assert pieces[0].kind != HexID;
      PiecesBody(u, crc, w, None, rest, line);
    } else {
      AdvCons(Token(HexID, HexText(d.id), line), pieces);
      HexIff(d.id);
      PiecesBody(u, crc, w, Some(d.id), rest, line);
    }
  }

  function Found(crc: Crc, ws: seq<Written>): (r: seq<Definition>)
  {
    if |ws| == 0 then [] else [WithId(crc, ws[0].def, ws[0].bare)] + Found(crc, ws[1..])
  }

  function Lines(ws: seq<Written>): (n: nat) { if |ws| == 0 then 0 else |ws[0].comments| + 1 + Lines(ws[1..]) }

  /** Parsing a text from a line on, in a section of one kind. */
  function ParseFrom(u: Unicode, crc: Crc, text: string, line: nat, isFunction: bool): (r: Parsed<Schema>)
  {
    All(crc, Tokens(u, text, line), isFunction)
  }

  lemma OneWritten(u: Unicode, crc: Crc, w: Written, rest: string, line: nat)
    requires Sane(u) && GoodText(u, w, w.def.isFunction)
    ensures ParseFrom(u, crc, DefinitionText(w, rest), line, w.def.isFunction) ==
      AddFirst(WithId(crc, w.def, w.bare), ParseFrom(u, crc, rest, line + |w.comments| + 1, w.def.isFunction))
  {
    hide Sane, Tokens, GoodText, Def, DefinitionText, WrittenTokens, WithId, AddFirst;
    var here := line + |w.comments|;
    LexWritten(u, w, rest, line);
    var next: Stream := Tokens(u, rest, here + 1);
    WrittenRoundTrip(u, crc, w, next, here);
  }

  lemma {:induction false} AllWritten(u: Unicode, crc: Crc, ws: seq<Written>, isFunction: bool, rest: string, line: nat)
    requires Sane(u) && forall i :: 0 <= i < |ws| ==> GoodText(u, ws[i], isFunction)
    ensures ParseFrom(u, crc, AllText(ws, rest), line, isFunction) ==
      After(OneKind(isFunction, Found(crc, ws)), ParseFrom(u, crc, rest, line + Lines(ws), isFunction))
    decreases |ws|
  {
    hide Sane, ParseFrom, GoodText, DefinitionText, WithId, After, OneKind, AddFirst;
    if |ws| == 0 {
      NoneOfAKind(isFunction);
      NothingRead(ParseFrom(u, crc, rest, line, isFunction));
    } else {
      var w := ws[0];
      KindIs(u, w, isFunction);
      OneWritten(u, crc, w, AllText(ws[1..], rest), line);
      AllWritten(u, crc, ws[1..], isFunction, rest, line + |w.comments| + 1);
      KindOfWithId(crc, w.def, w.bare);
      AddOne(isFunction, WithId(crc, w.def, w.bare), Found(crc, ws[1..]),
        ParseFrom(u, crc, rest, line + Lines(ws), isFunction));
    }
  }

  lemma KindIs(u: Unicode, w: Written, isFunction: bool)
    requires GoodText(u, w, isFunction)
    ensures GoodText(u, w, w.def.isFunction) && w.def.isFunction == isFunction
  {
  }

  /**
   * Comment lines before definitions, a generic group before a name and groups among the parameters
   * leave the parsed schema as it is without them.
   */
  lemma CommentsAndGroups(u: Unicode, crc: Crc, cs: seq<Written>, fs: seq<Written>)
    requires Sane(u)
    requires forall i :: 0 <= i < |cs| ==> GoodText(u, cs[i], false)
    requires forall i :: 0 <= i < |fs| ==> GoodText(u, fs[i], true)
    ensures ParseText(u, crc, "---types---\n" + AllText(cs, "---functions---\n" + AllText(fs, ""))) ==
      Good(Schema(Found(crc, cs), Found(crc, fs)))
  {
    hide *;
    var second := "---functions---\n" + AllText(fs, "");
    WholeText(u, crc, "---types---\n" + AllText(cs, second));
    TypesSection(u, crc, cs, second);
    FunctionsSection(u, crc, fs, 2 + Lines(cs));
    BothKinds(Found(crc, cs), Found(crc, fs));
  }

  lemma WholeText(u: Unicode, crc: Crc, text: string)
    ensures ParseText(u, crc, text) == ParseFrom(u, crc, text, 1, false)
  {
  }

  lemma TypesSection(u: Unicode, crc: Crc, cs: seq<Written>, rest: string)
    requires Sane(u) && forall i :: 0 <= i < |cs| ==> GoodText(u, cs[i], false)
    ensures ParseFrom(u, crc, "---types---\n" + AllText(cs, rest), 1, false) ==
      After(OneKind(false, Found(crc, cs)), ParseFrom(u, crc, rest, 2 + Lines(cs), false))
  {
    hide *;
    SectionStarts(u, crc, AllText(cs, rest), 1);
    AllWritten(u, crc, cs, false, rest, 2);
  }

  lemma FunctionsSection(u: Unicode, crc: Crc, fs: seq<Written>, n: nat)
    requires Sane(u) && forall i :: 0 <= i < |fs| ==> GoodText(u, fs[i], true)
    ensures ParseFrom(u, crc, "---functions---\n" + AllText(fs, ""), n, false) ==
      After(OneKind(true, Found(crc, fs)), Good(Schema([], [])))
  {
    hide *;
    SectionStarts(u, crc, AllText(fs, ""), n);
    AllWritten(u, crc, fs, true, "", n + 1);
    TextEnds(u, crc, n + 1 + Lines(fs));
  }

  lemma TextEnds(u: Unicode, crc: Crc, n: nat)
    ensures ParseFrom(u, crc, "", n, true) == Good(Schema([], []))
  {
    hide All, Tokens;
    AllEnd(u, crc, n);
  }

  lemma SectionStarts(u: Unicode, crc: Crc, text: string, n: nat)
    requires Sane(u)
    ensures ParseFrom(u, crc, "---types---\n" + text, n, false) == ParseFrom(u, crc, text, n + 1, false)
    ensures ParseFrom(u, crc, "---functions---\n" + text, n, false) == ParseFrom(u, crc, text, n + 1, true)
  {
    hide Sane, Tokens, All;
    SectionTokens(u, text, text, n);
    var ts: Stream := Tokens(u, text, n + 1);
    AllSections(crc, ts, n);
  }

  lemma SectionTokens(u: Unicode, a: string, b: string, n: nat)
    requires Sane(u)
    ensures Tokens(u, "---types---\n" + a, n) == [Token(SectionTypes, "types", n)] + Tokens(u, a, n + 1)
    ensures Tokens(u, "---functions---\n" + b, n) == [Token(SectionFunctions, "functions", n)] + Tokens(u, b, n + 1)
  {
    hide *;
    MarkerText(a, b);
    LexSection(u, "types", a, n);
    LexSection(u, "functions", b, n);
  }

  lemma MarkerText(a: string, b: string)
    ensures "---types---\n" + a == "---" + "types" + "---\n" + a
    ensures "---functions---\n" + b == "---" + "functions" + "---\n" + b
  {
    assert "---types---\n" == "---" + "types" + "---\n" && "---functions---\n" == "---" + "functions" + "---\n";
  }

  // ---- Markers and characters nobody knows ----

  /** An unknown marker is an identifier "-", and swallows the character after it. */
  lemma UnknownMarker(u: Unicode, w: string, c: char, s: string, line: nat)
    requires Sane(u) && (forall i :: 0 <= i < |w| ==> u.letter(w[i]) || w[i] == '-') && !u.letter(c) && c != '-'
    requires Trim(w) != "types" && Trim(w) != "functions"
    ensures Tokens(u, "---" + w + [c] + s, line) == [Token(Ident, "-", line)] + Tokens(u, s, line)
  {
    hide Tokens, Trim, Skip, LexOne, LexMarker, Sane;
    var all := "---" + w + [c] + s;
    assert all[0] == '-' && all[1] == '-' && all[2] == '-' && all[3..] == w + ([c] + s);
    DashIsPlain(u, all, line);
    StepsOfLexOne(u, all, line, all, line);
    MarkerFallsThrough(u, w, c, s, line);
    TokensStep(u, all, line);
  }

  lemma MarkerFallsThrough(u: Unicode, w: string, c: char, s: string, line: nat)
    requires Sane(u) && (forall i :: 0 <= i < |w| ==> u.letter(w[i]) || w[i] == '-') && !u.letter(c) && c != '-'
    requires Trim(w) != "types" && Trim(w) != "functions"
    ensures LexMarker(u, w + ([c] + s), line) == Lexed(Token(Ident, "-", line), s, line)
  {
    hide Trim, RunLen;
    var after := [c] + s;
    RunOf(u, MarkerChars, w, after);
    assert after[1..] == s;
    assert !u.letter('-') by { assert ":=;?<>{}#-/_%."[9] == '-'; }
  }

  /** Any other character is an identifier by itself. */
  lemma StrayCharacter(u: Unicode, c: char, s: string, line: nat)
    requires !u.letter(c) && !u.space(c) && c != '\n' && c != '/' && c != '-' && c != '#' && c != '_' && c != '%'
    requires c != ':' && c != '=' && c != ';' && c != '?' && c != '<' && c != '>' && c != '{' && c != '}'
    ensures Tokens(u, [c] + s, line) == [Token(Ident, [c], line)] + Tokens(u, s, line)
  {
    hide Tokens;
    var all := [c] + s;
    assert all[0] == c && all[1..] == s;
    Unskipped(u, all, line);
    hide LexOne;
    assert LexPlain(u, all, line) == Lexed(Token(Ident, [c], line), s, line);
    TokensStep(u, all, line);
  }

  // ---- What is refused ----

  /** A definition without its equals sign. */
  lemma MissingEquals(u: Unicode, crc: Crc, d: Definition, bare: bool, rest: Stream, line: nat)
    requires PrintableDef(u, d, d.isFunction) && (rest[0].kind == Semicolon || rest[0].kind == EOF)
    ensures var params := ParamsTokens(d.params, line, rest);
      Def(crc, Cons(Token(Ident, d.name, line), IdTokens(d, bare, line, params)), d.isFunction) ==
        Bad(ExpectedEquals(rest[0].line, d.name))
  {
    hide Adv, Word, PrintableParam, PrintableType, ParamsTokens, Params, HexText, HexNumber, ParseHex;
    var params := ParamsTokens(d.params, line, rest);
    AdvCons(Token(Ident, d.name, line), IdTokens(d, bare, line, params));
    ParamsStart(d.params, rest, line);
    ParamsRoundTrip(u, d.params, rest, line);
    if !bare {
      AdvCons(Token(HexID, HexText(d.id), line), params);
      HexIff(d.id);
    }
  }

  /** An id of more than 32 bits. */
  lemma IdTooLarge(crc: Crc, name: string, n: nat, rest: Stream, line: nat, isFunction: bool)
    requires n >= 0x1_0000_0000
    ensures Def(crc, Cons(Token(Ident, name, line), Cons(Token(HexID, HexText(n), line), rest)), isFunction)
      == Bad(InvalidHexID(line, HexText(n)))
  {
    hide Adv, HexText, HexNumber, ParseHex;
    AdvCons(Token(Ident, name, line), Cons(Token(HexID, HexText(n), line), rest));
    HexIff(n);
  }

  /** A definition that does not start with a name, and one whose result does not. */
  lemma NoName(crc: Crc, rest: Stream, isFunction: bool)
    requires rest[0].kind != Ident && rest[0].kind != BraceOpen
    ensures Def(crc, rest, isFunction) == Bad(ExpectedName(rest[0].line, rest[0].kind, rest[0].value))
  {
  }

  lemma NoResult(crc: Crc, name: string, id: Option<nat>, rest: Stream, line: nat, isFunction: bool)
    requires rest[0].kind != Ident
    ensures Body(crc, Cons(Token(Equals, "=", line), rest), name, id, isFunction) ==
      Bad(ExpectedResult(rest[0].line, rest[0].kind))
  {
    hide Adv;
    AdvCons(Token(Equals, "=", line), rest);
  }

  /** A condition without a field name stands for bit 0 of flags; one whose bit is no number, for bit 0. */
  lemma OddConditions(raw: string, typ: string)
    ensures '.' !in raw || (|raw| > 0 && raw[0] == '.') ==> FlagOf(raw, typ) == FlagCondition("flags", 0, typ == "true")
    ensures forall a, b :: raw == a + "." + b && |a| > 0 && '.' !in a && (b == "" || !IsDecimal(b)) ==>
      FlagOf(raw, typ) == FlagCondition(a, 0, typ == "true")
  {
    forall a, b | raw == a + "." + b && |a| > 0 && '.' !in a && (b == "" || !IsDecimal(b))
      ensures FlagOf(raw, typ) == FlagCondition(a, 0, typ == "true")
    {
      assert raw[|a|] == '.' && forall j :: 0 <= j < |a| ==> raw[j] == a[j];
      assert DotIndex(raw) == |a|;
      assert raw[..|a|] == a && raw[|a| + 1..] == b;
    }
  }

  /** A word among the parameters that is not followed by a colon is passed over, like any other token. */
  lemma StrayTokens(t: Token, rest: Stream)
    requires !EndsParams(t.kind) && t.kind != BraceOpen && (t.kind == Ident ==> rest[0].kind != Colon)
    ensures Params(Cons(t, rest)) == Params(rest)
  {
    hide Adv;
    AdvCons(t, rest);
  }

  /** The closing angle of a vector may be missing. */
  lemma OpenVector(e: string, line: nat, rest: Stream)
    requires rest[0].kind != AngleClose
    ensures TypeAfter(Cons(Token(AngleOpen, "<", line), Cons(Token(Ident, e, line), rest)), "Vector") ==
      Typed("Vector<" + e + ">", Some(e), rest)
  {
    hide Adv;
    AdvCons(Token(AngleOpen, "<", line), Cons(Token(Ident, e, line), rest));
    AdvCons(Token(Ident, e, line), rest);
  }

  /** A group that is never closed takes all that is left. */
  lemma {:induction false} UnclosedGroup(inner: seq<Token>, line: nat)
    requires forall i :: 0 <= i < |inner| ==> inner[i].kind != BraceClose && inner[i].kind != EOF
    ensures AfterBraces(inner + [Token(EOF, "", line)]) == [Token(EOF, "", line)]
    decreases |inner|
  {
    var all := inner + [Token(EOF, "", line)];
    if |inner| > 0 {
      assert all[1..] == inner[1..] + [Token(EOF, "", line)];
      UnclosedGroup(inner[1..], line);
    }
  }

  /** The semicolon after a definition may be missing, and one more between definitions does not matter. */
  lemma OptionalSemicolon(u: Unicode, crc: Crc, d: Definition, id: nat, rest: Stream, line: nat)
    requires PrintableDef(u, d, d.isFunction) && rest[0].kind != AngleOpen && rest[0].kind != Semicolon
    ensures var result := Cons(Token(Equals, "=", line), TypeTokens(d.resultType, line, rest));
      Body(crc, ParamsTokens(d.params, line, result), d.name, Some(id), d.isFunction) ==
        Good(ParsedDef(d.(id := id), rest))
  {
    hide Adv, Word, PrintableParam, PrintableType, TypeTokens, TypeAfter, ParamsTokens, Params, Elem;
    var typed := TypeTokens(d.resultType, line, rest);
    ParamsRoundTrip(u, d.params, Cons(Token(Equals, "=", line), typed), line);
    AdvCons(Token(Equals, "=", line), typed);
    ResultIsIdent(u, d.resultType, rest, line);
    TypeRoundTrip(d.resultType, rest, line);
  }

  lemma StraySemicolon(crc: Crc, rest: Stream, line: nat, isFunction: bool)
    ensures All(crc, Cons(Token(Semicolon, ";", line), rest), isFunction) == All(crc, rest, isFunction)
  {
    hide Adv;
    AdvCons(Token(Semicolon, ";", line), rest);
  }
}
