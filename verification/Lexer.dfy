/** The TL lexer: text to tokens. */
module Lexer {
  import opened Bytes

  datatype Kind =
    | EOF | Ident | SectionTypes | SectionFunctions | Colon | Equals | Semicolon | Question | Hash | HexID
    | AngleOpen | AngleClose | BraceOpen | BraceClose

  datatype Token = Token(kind: Kind, value: string, line: nat)

  /** The Unicode classes the lexer asks about. */
  datatype Unicode = Unicode(letter: char -> bool, digit: char -> bool, space: char -> bool)

  /** The runs the lexer collects. */
  datatype Class = MarkerChars | HexChars | IdentChars

  predicate IsHexDigit(c: char) { '0' <= c <= '9' || 'a' <= c <= 'f' || 'A' <= c <= 'F' }
  predicate IsIdentStart(u: Unicode, c: char) { u.letter(c) || c == '_' || c == '%' }
  predicate IsIdentPart(u: Unicode, c: char) { u.letter(c) || u.digit(c) || c == '_' || c == '.' || c == '%' }

  predicate In(u: Unicode, k: Class, c: char)
  {
    match k
    case MarkerChars => u.letter(c) || c == '-'
    case HexChars => IsHexDigit(c)
    case IdentChars => IsIdentPart(u, c)
  }

  /** The length of the longest run of the class at the start. */
  function RunLen(u: Unicode, k: Class, s: string): (n: nat)
    ensures n <= |s| && (forall i :: 0 <= i < n ==> In(u, k, s[i])) && (n < |s| ==> !In(u, k, s[n]))
  {
    if |s| == 0 || !In(u, k, s[0]) then 0 else 1 + RunLen(u, k, s[1..])
  }

  lemma RunIs(u: Unicode, k: Class, s: string, n: nat)
    requires n <= |s| && (forall i :: 0 <= i < n ==> In(u, k, s[i])) && (n < |s| ==> !In(u, k, s[n]))
    ensures RunLen(u, k, s) == n
  {
  }

  function Peek(s: string, i: nat): (c: char) { if i < |s| then s[i] else '\0' }

  /** The text from its next line break on. */
  function LineEnd(s: string): (r: string)
    ensures |r| <= |s|
  {
    if |s| == 0 || s[0] == '\n' then s else LineEnd(s[1..])
  }

  /** The text after white space and comments, and the line it is on. */
  function Skip(u: Unicode, s: string, line: nat): (r: (string, nat))
    ensures |r.0| <= |s|
    decreases |s|
  {
    if |s| == 0 then (s, line)
    else if s[0] == '\n' then Skip(u, s[1..], line + 1)
    else if u.space(s[0]) then Skip(u, s[1..], line)
    else if s[0] == '/' && Peek(s, 1) == '/' then Skip(u, LineEnd(s[2..]), line)
    else (s, line)
  }

  function TrimLeft(s: string): (r: string) { if |s| > 0 && s[0] == '-' then TrimLeft(s[1..]) else s }
  function TrimRight(s: string): (r: string)
  {
    if |s| > 0 && s[|s| - 1] == '-' then TrimRight(s[..|s| - 1]) else s
  }
  function Trim(s: string): (r: string) { TrimRight(TrimLeft(s)) }

  function SymbolKind(c: char): (k: Option<Kind>)
    ensures k.Some? ==> k.value != EOF
  {
    if c == ':' then Some(Colon)
    else if c == '=' then Some(Equals)
    else if c == ';' then Some(Semicolon)
    else if c == '?' then Some(Question)
    else if c == '<' then Some(AngleOpen)
    else if c == '>' then Some(AngleClose)
    else if c == '{' then Some(BraceOpen)
    else if c == '}' then Some(BraceClose)
    else None
  }

  datatype Lexed = Lexed(tok: Token, rest: string, line: nat)

  /** The text without its first character, if it has one. */
  function Tail(s: string): (r: string) { if |s| == 0 then s else s[1..] }

  /** After the three dashes of a marker. An unknown marker is an identifier "-", and takes one
      character more. */
  function LexMarker(u: Unicode, s: string, line: nat): (r: Lexed)
    ensures |r.rest| <= |s| && r.tok.kind != EOF
  {
    var n := RunLen(u, MarkerChars, s);
    var word, after := Trim(s[..n]), s[n..];
    if word == "types" then Lexed(Token(SectionTypes, "types", line), after, line)
    else if word == "functions" then Lexed(Token(SectionFunctions, "functions", line), after, line)
    else if IsIdentStart(u, '-') then LexIdent(u, after, line)
    else Lexed(Token(Ident, "-", line), Tail(after), line)
  }

  function LexIdent(u: Unicode, s: string, line: nat): (r: Lexed)
    ensures |r.rest| <= |s| && r.tok.kind != EOF
    ensures |s| > 0 && IsIdentStart(u, s[0]) ==> |r.rest| < |s|
  {
    var n := RunLen(u, IdentChars, s);
    Lexed(Token(Ident, s[..n], line), s[n..], line)
  }

  function LexPlain(u: Unicode, s: string, line: nat): (r: Lexed)
    requires |s| > 0
    ensures |r.rest| < |s| && r.tok.kind != EOF
  {
    var c := s[0];
    if SymbolKind(c).Some? then Lexed(Token(SymbolKind(c).value, [c], line), s[1..], line)
    else if c == '#' then
      var n := RunLen(u, HexChars, s[1..]);
      if n > 0 then Lexed(Token(HexID, s[1..][..n], line), s[1..][n..], line)
      else Lexed(Token(Hash, "#", line), s[1..], line)
    else if IsIdentStart(u, c) then LexIdent(u, s, line)
    else Lexed(Token(Ident, [c], line), s[1..], line)
  }

  /** The next token. Any other token than EOF uses up text. */
  function LexOne(u: Unicode, s: string, line: nat): (r: Lexed)
    ensures r.tok.kind == EOF ==> r == Lexed(Token(EOF, "", r.line), "", r.line)
    ensures r.tok.kind != EOF ==> |r.rest| < |s|
  {
    var (t, l) := Skip(u, s, line);
    if |t| == 0 then Lexed(Token(EOF, "", l), "", l)
    else if t[0] == '-' && Peek(t, 1) == '-' && Peek(t, 2) == '-' then LexMarker(u, t[3..], l)
    else LexPlain(u, t, l)
  }

  /** All tokens, up to and with the first EOF. */
  function Tokens(u: Unicode, s: string, line: nat): (ts: seq<Token>)
    ensures |ts| > 0 && ts[|ts| - 1].kind == EOF
    ensures forall i :: 0 <= i < |ts| - 1 ==> ts[i].kind != EOF
    decreases |s|
  {
    var r := LexOne(u, s, line);
    if r.tok.kind == EOF then [r.tok] else [r.tok] + Tokens(u, r.rest, r.line)
  }

  // ---- The lexer object ----

  class Scanner {
    const u: Unicode
    const input: string
    var pos: nat
    var line: nat

    /** The position runs at most one past the end. */
    ghost predicate Valid() reads this { pos <= |input| + 1 }

    ghost function Rest(): (s: string) reads this { if pos < |input| then input[pos..] else "" }

    constructor (u: Unicode, input: string)
      ensures Valid() && Rest() == input && line == 1 && this.u == u && this.input == input
    {
      this.u, this.input := u, input;
      pos, line := 0, 1;
    }

    method PeekAt(offset: nat) returns (c: char)
      requires Valid()
      ensures c == Peek(Rest(), offset)
    {
      if pos + offset < |input| {
        c := input[pos + offset];
      } else {
        c := '\0';
      }
    }

    method SkipToLineEnd()
      requires Valid() && pos <= |input|
      modifies this`pos
      ensures Valid() && old(pos) <= pos <= |input| && Rest() == LineEnd(old(Rest()))
    {
      ghost var body := Rest();
      while pos < |input| && input[pos] != '\n'
        invariant old(pos) <= pos <= |input|
        invariant LineEnd(Rest()) == LineEnd(body)
      {
        assert Rest()[1..] == input[pos + 1..];
        pos := pos + 1;
      }
    }

    /** skipWhitespaceAndComments. */
    method SkipSpace()
      requires Valid()
      modifies this
      ensures Valid() && pos >= old(pos) && (old(pos) <= |input| ==> pos <= |input|)
      ensures (Rest(), line) == Skip(u, old(Rest()), old(line))
    {
      ghost var goal := Skip(u, Rest(), line);
      while pos < |input|
        invariant Valid() && pos >= old(pos) && (old(pos) <= |input| ==> pos <= |input|)
        invariant Skip(u, Rest(), line) == goal
        decreases |input| + 1 - pos
      {
        ghost var here := Rest();
        var ch := input[pos];
        assert here[0] == ch && here[1..] == input[pos + 1..];
        if ch == '\n' {
          line := line + 1;
          pos := pos + 1;
          continue;
        }
        if u.space(ch) {
          pos := pos + 1;
          continue;
        }
        var next := PeekAt(1);
        if ch == '/' && next == '/' {
          pos := pos + 2;
          assert Rest() == here[2..];
          SkipToLineEnd();
          continue;
        }
        break;
      }
    }

    /** Collects the run of a class from here on. */
    method TakeRun(k: Class) returns (text: string)
      requires Valid()
      modifies this`pos
      ensures Valid() && pos >= old(pos)
      ensures var n := RunLen(u, k, old(Rest()));
        text == old(Rest())[..n] && Rest() == old(Rest())[n..] && pos == old(pos) + n
    {
      hide RunLen, In;
      text := "";
      ghost var start := Rest();
      while pos < |input| && In(u, k, input[pos])
        invariant Valid() && pos == old(pos) + |text| && |text| <= |start|
        invariant text == start[..|text|]
        invariant forall i :: 0 <= i < |text| ==> In(u, k, start[i])
        decreases |input| + 1 - pos
      {
        assert start[|text|] == input[pos];
        text := text + [input[pos]];
        pos := pos + 1;
      }
      assert Rest() == start[|text|..];
      assert |text| < |start| ==> start[|text|] == input[pos];
      RunIs(u, k, start, |text|);
    }

    /** NextToken: total, and past every token but EOF. */
    method NextToken() returns (t: Token)
      requires Valid()
      modifies this
      ensures Valid()
      ensures Lexed(t, Rest(), line) == LexOne(u, old(Rest()), old(line))
      ensures t.kind == EOF ==> pos >= |input|
      ensures t.kind != EOF ==> pos > old(pos)
    {
      hide Skip, RunLen, Trim, LexOne, LexMarker, LexIdent, LexPlain, SymbolKind;
      SkipSpace();
      ghost var s := Rest();
      StepsOfLexOne(u, old(Rest()), old(line), s, line);
      if pos >= |input| {
        return Token(EOF, "", line);
      }
      var ch := input[pos];
      assert ch == s[0];
      var c1 := PeekAt(1);
      var c2 := PeekAt(2);
      if ch == '-' && c1 == '-' && c2 == '-' {
        pos := pos + 3;
        assert Rest() == s[3..];
        t := MarkerToken();
      } else {
        t := PlainToken();
      }
    }

    method MarkerToken() returns (t: Token)
      requires Valid() && pos <= |input|
      modifies this`pos
      ensures Valid() && pos >= old(pos) && t.kind != EOF
      ensures Lexed(t, Rest(), line) == LexMarker(u, old(Rest()), line)
    {
      hide Trim, RunLen, In, IsIdentStart;
      var startLine := line;
      var word := TakeRun(MarkerChars);
      var str := Trim(word);
      if str == "types" {
        return Token(SectionTypes, "types", startLine);
      }
      if str == "functions" {
        return Token(SectionFunctions, "functions", startLine);
      }
      if IsIdentStart(u, '-') {
        var ident := TakeRun(IdentChars);
        return Token(Ident, ident, startLine);
      }
      ghost var after := Rest();
      pos := pos + 1;
      assert Rest() == Tail(after);
      return Token(Ident, "-", startLine);
    }

    method PlainToken() returns (t: Token)
      requires Valid() && pos < |input|
      modifies this`pos
      ensures Valid() && pos > old(pos) && t.kind != EOF
      ensures Lexed(t, Rest(), line) == LexPlain(u, old(Rest()), line)
    {
      hide RunLen, SymbolKind;
      ghost var s := Rest();
      var startLine, ch := line, input[pos];
      assert input[pos..][1..] == input[pos + 1..];
      if SymbolKind(ch).Some? {
        pos := pos + 1;
        return Token(SymbolKind(ch).value, [ch], startLine);
      }
      if ch == '#' {
        pos := pos + 1;
        assert Rest() == s[1..];
        if pos < |input| && IsHexDigit(input[pos]) {
          var hex := TakeRun(HexChars);
          assert |hex| > 0;
          return Token(HexID, hex, startLine);
        }
        return Token(Hash, "#", startLine);
      }
      if IsIdentStart(u, ch) {
        var ident := TakeRun(IdentChars);
        return Token(Ident, ident, startLine);
      }
      pos := pos + 1;
      t := Token(Ident, [ch], startLine);
    }
  }

  lemma StepsOfLexOne(u: Unicode, s0: string, line0: nat, s: string, line: nat)
    requires (s, line) == Skip(u, s0, line0)
    ensures |s| == 0 ==> LexOne(u, s0, line0) == Lexed(Token(EOF, "", line), "", line)
    ensures |s| > 0 && s[0] == '-' && Peek(s, 1) == '-' && Peek(s, 2) == '-' ==>
      LexOne(u, s0, line0) == LexMarker(u, s[3..], line)
    ensures |s| > 0 && !(s[0] == '-' && Peek(s, 1) == '-' && Peek(s, 2) == '-') ==>
      LexOne(u, s0, line0) == LexPlain(u, s, line)
  {
  }
}
