/** The lexer: text is a sequence of lexemes with white space between them, read as far as each lexeme goes.

Characters are bytes; the character classes are those of the C locale.
*/
module Lexers {
  import opened Options
  import opened Rows
  import opened Parsers

  const KEYWORDS: seq<string> := [
    "SELECT", "FROM", "WHERE", "INSERT", "INTO", "VALUES", "DELETE",
    "CREATE", "DROP", "TABLE", "INT", "TEXT", "AND", "UPDATE", "SET"]

  predicate IsSpace(c: char) { c == ' ' || 9 <= c as int <= 13 }

  predicate IsIdentStart(c: char) { 'a' <= c <= 'z' || 'A' <= c <= 'Z' || c == '_' }

  predicate IsIdentChar(c: char) { IsIdentStart(c) || IsDigit(c) }

  predicate IsQuote(c: char) { c == '\'' || c == '"' }

  function UpperChar(c: char): char {
    if 'a' <= c <= 'z' then (c as int - 32) as char else c
  }

  function Upper(s: string): string {
    seq(|s|, i requires 0 <= i < |s| => UpperChar(s[i]))
  }

  lemma Digit(c: char)
    ensures IsDigit(c) <==> c in "0123456789"
  {
    assert IsDigit(c) ==> c == "0123456789"[c as int - 48];
  }

  lemma Capitals(c: char)
    ensures 'A' <= c <= 'Z' <==> c in "ABCDEFGHIJKLMNOPQRSTUVWXYZ"
  {
    assert 'A' <= c <= 'Z' ==> c == "ABCDEFGHIJKLMNOPQRSTUVWXYZ"[c as int - 65];
  }

  lemma SmallLetters(c: char)
    ensures 'a' <= c <= 'z' <==> c in "abcdefghijklmnopqrstuvwxyz"
  {
    assert 'a' <= c <= 'z' ==> c == "abcdefghijklmnopqrstuvwxyz"[c as int - 97];
  }

  predicate Among(c: char, s: string) { c in s }

  /** The classes, character by character. */
  lemma CharacterClasses(c: char)
    ensures IsSpace(c) <==> c in [' ', '\t', '\n', '\r', 11 as char, 12 as char]
    ensures IsDigit(c) <==> Among(c, "0123456789")
    ensures IsIdentStart(c) <==>
      Among(c, "ABCDEFGHIJKLMNOPQRSTUVWXYZ") || Among(c, "abcdefghijklmnopqrstuvwxyz") || c == '_'
    ensures IsIdentChar(c) <==> IsIdentStart(c) || IsDigit(c)
    ensures IsQuote(c) <==> c == '\'' || c == '"'
  {
    Digit(c);
    Capitals(c);
    SmallLetters(c);
  }

  predicate All(p: char -> bool, s: string) {
    forall i :: 0 <= i < |s| ==> p(s[i])
  }

  // ---- Lexemes and how they are spelled ----

  datatype Lexeme =
    | Word(text: string)
    | Num(text: string)
    | Str(quote: char, content: string)
    | Op(text: string)
    | Mark(text: string)

  predicate IsWord(s: string) {
    |s| > 0 && IsIdentStart(s[0]) && All(IsIdentChar, s)
  }

  predicate IsNum(s: string) {
    |s| > 0 && All(IsDigit, s[1..]) && (IsDigit(s[0]) || (s[0] == '-' && |s| > 1))
  }

  predicate IsOp(s: string) { s in ["=", "<", "<=", ">", ">=", "!="] }

  predicate IsMark(s: string) { s in ["(", ")", ",", "*"] }

  predicate Proper(l: Lexeme) {
    match l
    case Word(s) => IsWord(s)
    case Num(s) => IsNum(s)
    case Str(q, _) => IsQuote(q)
    case Op(s) => IsOp(s)
    case Mark(s) => IsMark(s)
  }

  /** A quote inside a string is written twice. */
  function Doubled(content: string, q: char): string {
    if |content| == 0 then "" else (if content[0] == q then [q, q] else [content[0]]) + Doubled(content[1..], q)
  }

  function Spell(l: Lexeme): string {
    match l
    case Str(q, content) => [q] + (Doubled(content, q) + [q])
    case _ => l.text
  }

  /** Whether the text after a lexeme would be read as part of it. */
  predicate Extends(l: Lexeme, rest: string) {
    |rest| > 0 &&
    match l
    case Word(_) => IsIdentChar(rest[0])
    case Num(_) => IsDigit(rest[0])
    case Str(q, _) => rest[0] == q
    case Op(s) => s in ["<", ">"] && rest[0] == '='
    case Mark(_) => false
  }

  /** Keywords in any case become one upper-case token; everything else keeps its spelling. */
  function TokenOf(l: Lexeme, position: nat): Token {
    match l
    case Word(s) => if Upper(s) in KEYWORDS then Token(KEYWORD, Upper(s), position) else Token(IDENTIFIER, s, position)
    case Num(s) => Token(NUMBER, s, position)
    case Str(_, s) => Token(STRING, s, position)
    case Op(s) => Token(OPERATOR, s, position)
    case Mark(s) => Token(PUNCTUATION, s, position)
  }

  /** The same word up to the case of each letter, for a word in capitals. */
  predicate SameLetters(w: string, v: string) {
    |w| == |v| && forall i :: 0 <= i < |w| ==> SameLetter(w[i], v[i])
  }

  predicate SameLetter(a: char, b: char) {
    a == b || ('A' <= b <= 'Z' && a as int == b as int + 32)
  }

  /** What a token says of a lexeme, and where: a keyword in any case is that keyword in capitals, every other word is
      itself, numbers keep their sign and digits, strings their content. */
  ghost predicate Reads(t: Token, l: Lexeme, at: nat) {
    && t.position == at
    && match l
       case Word(w) =>
         || (t.kind == KEYWORD && t.value in KEYWORDS && SameLetters(w, t.value))
         || (t.kind == IDENTIFIER && t.value == w && forall k :: k in KEYWORDS ==> !SameLetters(w, k))
       case Num(text) => t.kind == NUMBER && t.value == text
       case Str(_, content) => t.kind == STRING && t.value == content
       case Op(text) => t.kind == OPERATOR && t.value == text
       case Mark(text) => t.kind == PUNCTUATION && t.value == text
  }

  lemma KeywordsAreCapital(v: string)
    requires v in KEYWORDS
    ensures |v| > 0 && forall i :: 0 <= i < |v| ==> 'A' <= v[i] <= 'Z'
  {
  }

  lemma UpperLetter(a: char, b: char)
    requires 'A' <= b <= 'Z'
    ensures UpperChar(a) == b <==> SameLetter(a, b)
  {
  }

  lemma UpperIsKeyword(w: string, v: string)
    requires v in KEYWORDS
    ensures Upper(w) == v <==> SameLetters(w, v)
  {
    KeywordsAreCapital(v);
    hide KEYWORDS, UpperChar, SameLetter;
    if |w| == |v| {
      forall i | 0 <= i < |w| ensures UpperChar(w[i]) == v[i] <==> SameLetter(w[i], v[i]) {
        UpperLetter(w[i], v[i]);
      }
      assert SameLetters(w, v) ==> forall i :: 0 <= i < |w| ==> Upper(w)[i] == v[i];
      assert Upper(w) == v ==> forall i :: 0 <= i < |w| ==> UpperChar(w[i]) == v[i] by {
        assert forall i :: 0 <= i < |w| ==> Upper(w)[i] == UpperChar(w[i]);
      }
    }
  }

  lemma WordReads(w: string, at: nat, t: Token)
    ensures t == TokenOf(Word(w), at) <==> Reads(t, Word(w), at)
  {
    forall v | v in KEYWORDS ensures Upper(w) == v <==> SameLetters(w, v) {
      UpperIsKeyword(w, v);
    }
    hide Upper, SameLetters, KEYWORDS;
  }

  /** The token of a lexeme is the only one that reads it. */
  lemma TokenReads(l: Lexeme, at: nat, t: Token)
    ensures t == TokenOf(l, at) <==> Reads(t, l, at)
  {
    if l.Word? {
      WordReads(l.text, at, t);
    }
  }

  // ---- Reading one lexeme ----

  /** How many leading characters satisfy `p`. */
  function Span(p: char -> bool, s: string): (k: nat)
    ensures k <= |s| && All(p, s[..k]) && (k < |s| ==> !p(s[k]))
  {
    if |s| == 0 || !p(s[0]) then 0 else 1 + Span(p, s[1..])
  }

  /** The content up to the closing quote, and what follows that quote; None when it never comes. */
  function Quoted(s: string, q: char): (r: Option<(string, string)>)
    ensures r.Some? ==> |r.value.1| < |s|
  {
    if |s| == 0 then None
    else if s[0] != q then
      var (content, rest) :- Quoted(s[1..], q);
      Some(([s[0]] + content, rest))
    else if |s| > 1 && s[1] == q then
      var (content, rest) :- Quoted(s[2..], q);
      Some(([q] + content, rest))
    else Some(("", s[1..]))
  }

  predicate StartsNum(s: string) {
    |s| > 0 && (IsDigit(s[0]) || (s[0] == '-' && |s| > 1 && IsDigit(s[1])))
  }

  /** One operator or punctuation mark: the longer operator where there is a choice. */
  function ScanSign(s: string): (r: Option<(Lexeme, string)>)
    requires |s| > 0
    ensures r.Some? ==> |r.value.1| < |s|
  {
    var c := s[0];
    if c == '=' then Some((Op("="), s[1..]))
    else if c == '<' || c == '>' then
      if |s| > 1 && s[1] == '=' then Some((Op([c, '=']), s[2..])) else Some((Op([c]), s[1..]))
    else if c == '!' then
      if |s| > 1 && s[1] == '=' then Some((Op("!="), s[2..])) else None
    else if c == '(' || c == ')' || c == ',' || c == '*' then Some((Mark([c]), s[1..]))
    else None
  }

  /** The lexeme a text starts with, and what follows it; None for the lexer's three errors. */
  function Scan(s: string): (r: Option<(Lexeme, string)>)
    requires |s| > 0
    ensures r.Some? ==> |r.value.1| < |s|
  {
    if IsIdentStart(s[0]) then
      var k := 1 + Span(IsIdentChar, s[1..]);
      Some((Word(s[..k]), s[k..]))
    else if StartsNum(s) then
      var k := 1 + Span(IsDigit, s[1..]);
      Some((Num(s[..k]), s[k..]))
    else if IsQuote(s[0]) then
      var (content, rest) :- Quoted(s[1..], s[0]);
      Some((Str(s[0], content), rest))
    else ScanSign(s)
  }

  lemma {:induction false} SpanForward(p: char -> bool, s: string, rest: string)
    requires All(p, s) && (|rest| > 0 ==> !p(rest[0]))
    ensures Span(p, s + rest) == |s|
  {
    if |s| == 0 {
      assert s + rest == rest;
    } else {
      assert (s + rest)[1..] == s[1..] + rest;
      SpanForward(p, s[1..], rest);
    }
  }

  /** What reading gives when more was read before it. */
  ghost function Continued(content: string, r: Option<(string, string)>): Option<(string, string)> {
    match r
    case Some((more, rest)) => Some((content + more, rest))
    case None => None
  }

  lemma QuotedPlain(c: char, s: string, q: char)
    requires c != q
    ensures Quoted([c] + s, q) == Continued([c], Quoted(s, q))
  {
    assert ([c] + s)[1..] == s;
  }

  lemma QuotedTwice(s: string, q: char)
    ensures Quoted([q, q] + s, q) == Continued([q], Quoted(s, q))
  {
    assert ([q, q] + s)[2..] == s;
  }

  lemma QuotedEnd(rest: string, q: char)
    requires |rest| > 0 ==> rest[0] != q
    ensures Quoted([q] + rest, q) == Some(("", rest))
  {
    assert ([q] + rest)[1..] == rest;
  }

  lemma {:induction false} QuotedForward(content: string, q: char, rest: string)
    requires |rest| > 0 ==> rest[0] != q
    ensures Quoted(Doubled(content, q) + [q] + rest, q) == Some((content, rest))
  {
    hide Quoted;
    if |content| == 0 {
      assert Doubled(content, q) + [q] + rest == [q] + rest;
      QuotedEnd(rest, q);
    } else {
      var tail := Doubled(content[1..], q) + [q] + rest;
      QuotedForward(content[1..], q, rest);
      assert content == [content[0]] + content[1..];
      if content[0] == q {
        assert Doubled(content, q) + [q] + rest == [q, q] + tail;
        QuotedTwice(tail, q);
      } else {
        assert Doubled(content, q) + [q] + rest == [content[0]] + tail;
        QuotedPlain(content[0], tail, q);
      }
    }
  }

  lemma DoubledCons(c: char, content: string, q: char)
    ensures Doubled([c] + content, q) == (if c == q then [q, q] else [c]) + Doubled(content, q)
    ensures Doubled("", q) == ""
  {
    assert ([c] + content)[1..] == content;
  }

  lemma {:induction false} QuotedBackward(s: string, q: char)
    requires Quoted(s, q).Some?
    ensures var (content, rest) := Quoted(s, q).value;
      s == Doubled(content, q) + [q] + rest && (|rest| > 0 ==> rest[0] != q)
  {
    hide Doubled;
    if s[0] != q {
      QuotedBackward(s[1..], q);
      var (content, rest) := Quoted(s[1..], q).value;
      DoubledCons(s[0], content, q);
      assert s == [s[0]] + s[1..] == [s[0]] + Doubled(content, q) + [q] + rest;
    } else if |s| > 1 && s[1] == q {
      QuotedBackward(s[2..], q);
      var (content, rest) := Quoted(s[2..], q).value;
      DoubledCons(q, content, q);
      assert s == [q, q] + s[2..] == [q, q] + Doubled(content, q) + [q] + rest;
    } else {
      DoubledCons(q, "", q);
      assert s == [q] + s[1..];
    }
  }

  lemma SignForward(l: Lexeme, rest: string)
    requires Proper(l) && !Extends(l, rest) && (l.Op? || l.Mark?)
    ensures var c := Spell(l)[0]; !IsSpace(c) && !IsIdentStart(c) && !IsDigit(c) && c != '-' && !IsQuote(c)
    ensures ScanSign(Spell(l) + rest) == Some((l, rest))
  {
    var s := l.text + rest;
    assert |l.text| == 1 ==> l.text == [l.text[0]] && s[1..] == rest;
    assert |l.text| == 2 ==> l.text == [l.text[0], '='] && s[2..] == rest;
  }

  lemma SignBackward(s: string)
    requires |s| > 0 && ScanSign(s).Some?
    ensures var (l, rest) := ScanSign(s).value;
      Proper(l) && s == Spell(l) + rest && !Extends(l, rest)
  {
    var (l, rest) := ScanSign(s).value;
    assert |rest| + 1 == |s| ==> s == [s[0]] + rest;
    assert |rest| + 2 == |s| ==> s == [s[0], '='] + rest;
  }

  lemma WordForward(text: string, rest: string)
    requires IsWord(text) && !Extends(Word(text), rest)
    ensures !IsSpace(text[0]) && Scan(text + rest) == Some((Word(text), rest))
  {
    hide ScanSign, Quoted, Span;
    assert (text + rest)[1..] == text[1..] + rest;
    SpanForward(IsIdentChar, text[1..], rest);
  }

  lemma NumForward(text: string, rest: string)
    requires IsNum(text) && !Extends(Num(text), rest)
    ensures !IsSpace(text[0]) && Scan(text + rest) == Some((Num(text), rest))
  {
    hide ScanSign, Quoted, Span;
    assert (text + rest)[1..] == text[1..] + rest;
    SpanForward(IsDigit, text[1..], rest);
  }

  lemma StrForward(q: char, content: string, rest: string)
    requires IsQuote(q) && !Extends(Str(q, content), rest)
    ensures !IsSpace(q) && Scan(Spell(Str(q, content)) + rest) == Some((Str(q, content), rest))
  {
    hide ScanSign, Quoted, Span, Doubled;
    QuotedForward(content, q, rest);
    assert (Spell(Str(q, content)) + rest)[1..] == Doubled(content, q) + [q] + rest;
  }

  /** A spelled lexeme is read back whole, unless the text after it extends it. */
  lemma ScanForward(l: Lexeme, rest: string)
    requires Proper(l) && !Extends(l, rest)
    ensures |Spell(l)| > 0 && !IsSpace(Spell(l)[0]) && Scan(Spell(l) + rest) == Some((l, rest))
  {
    match l
    case Word(text) => hide Scan; WordForward(text, rest);
    case Num(text) => hide Scan; NumForward(text, rest);
    case Str(q, content) => hide Scan; StrForward(q, content, rest);
    case Op(_) => hide ScanSign; SignForward(l, rest);
    case Mark(_) => hide ScanSign; SignForward(l, rest);
  }

  lemma SpanBackward(p: char -> bool, s: string, k: nat)
    requires |s| > 0 && k == 1 + Span(p, s[1..])
    ensures k <= |s| && s == s[..k] + s[k..] && All(p, s[..k][1..]) && (k < |s| ==> !p(s[k]))
  {
    hide Span;
    assert s[..k][1..] == s[1..][..k - 1];
  }

  /** Whatever is read is the spelling of the lexeme, read as far as it goes. */
  lemma ScanBackward(s: string)
    requires |s| > 0 && Scan(s).Some?
    ensures var (l, rest) := Scan(s).value;
      Proper(l) && s == Spell(l) + rest && !Extends(l, rest)
  {
    hide ScanSign, Span, Quoted, Doubled;
    if IsIdentStart(s[0]) {
      SpanBackward(IsIdentChar, s, 1 + Span(IsIdentChar, s[1..]));
    } else if StartsNum(s) {
      SpanBackward(IsDigit, s, 1 + Span(IsDigit, s[1..]));
    } else if IsQuote(s[0]) {
      QuotedBackward(s[1..], s[0]);
      assert s == [s[0]] + s[1..];
    } else {
      SignBackward(s);
    }
  }

  // ---- Whole texts ----

  /** A lexeme with the white space before it. */
  datatype Piece = Piece(gap: string, lexeme: Lexeme)

  function Render(pieces: seq<Piece>, tail: string): string {
    if |pieces| == 0 then tail
    else pieces[0].gap + (Spell(pieces[0].lexeme) + Render(pieces[1..], tail))
  }

  /** The pieces are kept apart well enough: no lexeme runs into what follows it. */
  predicate Legible(pieces: seq<Piece>, tail: string) {
    if |pieces| == 0 then All(IsSpace, tail)
    else
      && All(IsSpace, pieces[0].gap)
      && Proper(pieces[0].lexeme)
      && !Extends(pieces[0].lexeme, Render(pieces[1..], tail))
      && Legible(pieces[1..], tail)
  }

  /** One token per lexeme, at its offset in the text, and the sentinel at the end of the text. */
  function Tokens(pieces: seq<Piece>, tail: string, at: nat): seq<Token> {
    if |pieces| == 0 then [Token(END, "", at + |tail|)]
    else
      var start := at + |pieces[0].gap|;
      [TokenOf(pieces[0].lexeme, start)] + Tokens(pieces[1..], tail, start + |Spell(pieces[0].lexeme)|)
  }

  /** One token per lexeme, each reading it at its place, and the sentinel at the end of the text. */
  ghost predicate ReadsAll(tokens: seq<Token>, pieces: seq<Piece>, tail: string, at: nat)
    decreases |pieces|
  {
    if |pieces| == 0 then tokens == [Token(END, "", at + |tail|)]
    else
      var start := at + |pieces[0].gap|;
      && |tokens| > 0 && Reads(tokens[0], pieces[0].lexeme, start)
      && ReadsAll(tokens[1..], pieces[1..], tail, start + |Spell(pieces[0].lexeme)|)
  }

  lemma {:induction false} TokensReadAll(tokens: seq<Token>, pieces: seq<Piece>, tail: string, at: nat)
    ensures tokens == Tokens(pieces, tail, at) <==> ReadsAll(tokens, pieces, tail, at)
    decreases |pieces|
  {
    hide TokenOf, Reads, Spell;
    if |pieces| > 0 {
      var start := at + |pieces[0].gap|;
      var at' := start + |Spell(pieces[0].lexeme)|;
      if |tokens| > 0 {
        TokenReads(pieces[0].lexeme, start, tokens[0]);
        TokensReadAll(tokens[1..], pieces[1..], tail, at');
        assert tokens == [tokens[0]] + tokens[1..];
        var rest := Tokens(pieces[1..], tail, at');
        assert ([TokenOf(pieces[0].lexeme, start)] + rest)[1..] == rest;
      }
    }
  }

  /** A text has these tokens: it is legible as lexemes that the tokens read. */
  ghost predicate Accepts(input: string, tokens: seq<Token>) {
    exists pieces, tail :: Legible(pieces, tail) && input == Render(pieces, tail) && ReadsAll(tokens, pieces, tail, 0)
  }

  /** The lexer accepts exactly the legible texts, with exactly the tokens that read their lexemes. */
  lemma LexExactly(input: string, tokens: seq<Token>)
    ensures Lex(input, 0) == Some(tokens) <==> Accepts(input, tokens)
  {
    hide Lex, Legible, Render, Tokens, ReadsAll;
    if Lex(input, 0) == Some(tokens) {
      var pieces, tail := LexBackward(input, 0);
      TokensReadAll(tokens, pieces, tail, 0);
    }
    if Accepts(input, tokens) {
      var pieces, tail :| Legible(pieces, tail) && input == Render(pieces, tail) && ReadsAll(tokens, pieces, tail, 0);
      LexForward(pieces, tail, 0);
      TokensReadAll(tokens, pieces, tail, 0);
    }
  }

  function Lex(s: string, at: nat): Option<seq<Token>>
    decreases |s|
  {
    if |s| == 0 then Some([Token(END, "", at)])
    else if IsSpace(s[0]) then Lex(s[1..], at + 1)
    else
      var (l, rest) :- Scan(s);
      var tokens :- Lex(rest, at + |s| - |rest|);
      Some([TokenOf(l, at)] + tokens)
  }

  lemma {:induction false} LexGap(gap: string, s: string, at: nat)
    requires All(IsSpace, gap)
    ensures Lex(gap + s, at) == Lex(s, at + |gap|)
    decreases |gap|
  {
    if |gap| == 0 {
      assert gap + s == s;
    } else {
      assert (gap + s)[1..] == gap[1..] + s;
      LexGap(gap[1..], s, at + 1);
    }
  }

  /** A legible text is lexed into exactly its lexemes. */
  lemma {:induction false} LexForward(pieces: seq<Piece>, tail: string, at: nat)
    requires Legible(pieces, tail)
    ensures Lex(Render(pieces, tail), at) == Some(Tokens(pieces, tail, at))
    ensures ReadsAll(Tokens(pieces, tail, at), pieces, tail, at)
    decreases |pieces|
  {
    TokensReadAll(Tokens(pieces, tail, at), pieces, tail, at);
    hide Scan, Proper, Extends, Spell, TokenOf, ReadsAll;
    if |pieces| == 0 {
      LexGap(tail, "", at);
      assert tail + "" == tail;
    } else {
      var l, rest := pieces[0].lexeme, Render(pieces[1..], tail);
      var start := at + |pieces[0].gap|;
      LexGap(pieces[0].gap, Spell(l) + rest, at);
      ScanForward(l, rest);
      LexForward(pieces[1..], tail, start + |Spell(l)|);
    }
  }

  /** Every text the lexer accepts is legible, so its lexemes are the only reading of it. */
  lemma {:induction false} LexBackward(s: string, at: nat) returns (pieces: seq<Piece>, tail: string)
    requires Lex(s, at).Some?
    ensures Legible(pieces, tail) && s == Render(pieces, tail)
    ensures Lex(s, at) == Some(Tokens(pieces, tail, at))
    decreases |s|
  {
    hide Scan, Proper, Extends, Spell, TokenOf;
    if |s| == 0 {
      pieces, tail := [], "";
    } else if IsSpace(s[0]) {
      pieces, tail := LexBackward(s[1..], at + 1);
      assert s == [s[0]] + s[1..];
      if |pieces| == 0 {
        tail := [s[0]] + tail;
      } else {
        pieces := Indented(s[0], pieces, tail, at);
      }
    } else {
      ScanBackward(s);
      var (l, rest) := Scan(s).value;
      pieces, tail := LexBackward(rest, at + |s| - |rest|);
      pieces := [Piece("", l)] + pieces;
      assert "" + (Spell(l) + rest) == s;
    }
  }

  /** One more white-space character before the first piece. */
  lemma Indented(c: char, pieces: seq<Piece>, tail: string, at: nat) returns (more: seq<Piece>)
    requires IsSpace(c) && |pieces| > 0 && Legible(pieces, tail)
    ensures |more| > 0 && Legible(more, tail) && Render(more, tail) == [c] + Render(pieces, tail)
    ensures Tokens(more, tail, at) == Tokens(pieces, tail, at + 1)
  {
    hide Proper, Extends, Spell, TokenOf;
    more := [Piece([c] + pieces[0].gap, pieces[0].lexeme)] + pieces[1..];
    assert more[1..] == pieces[1..];
  }

  lemma TokenIsNotEnd(l: Lexeme, at: nat)
    ensures TokenOf(l, at).kind != END
  {
  }

  lemma {:induction false} TokensEndOnce(pieces: seq<Piece>, tail: string, at: nat)
    ensures EndsOnce(Tokens(pieces, tail, at))
    decreases |pieces|
  {
    hide TokenOf, Spell;
    if |pieces| > 0 {
      var start := at + |pieces[0].gap|;
      TokenIsNotEnd(pieces[0].lexeme, start);
      TokensEndOnce(pieces[1..], tail, start + |Spell(pieces[0].lexeme)|);
    }
  }

  // ---- The lexer's loops ----

  method Uppercase(word: string) returns (upper: string)
    ensures upper == Upper(word)
  {
    upper := "";
    for i := 0 to |word|
      invariant |upper| == i && forall k :: 0 <= k < i ==> upper[k] == UpperChar(word[k])
    {
      upper := upper + [UpperChar(word[i])];
    }
  }

  method IsKeyword(upper: string) returns (found: bool)
    ensures found <==> upper in KEYWORDS
  {
    for i := 0 to |KEYWORDS|
      invariant upper !in KEYWORDS[..i]
    {
      if upper == KEYWORDS[i] {
        return true;
      }
    }
    assert KEYWORDS[..|KEYWORDS|] == KEYWORDS;
    return false;
  }

  /** Moves past the characters of a class. */
  method SkipWhile(p: char -> bool, input: string, start: nat) returns (i: nat)
    requires start <= |input|
    ensures start <= i <= |input| && i - start == Span(p, input[start..])
  {
    i := start;
    while i < |input| && p(input[i])
      invariant start <= i <= |input|
      invariant i - start + Span(p, input[i..]) == Span(p, input[start..])
    {
      assert input[i..][1..] == input[i + 1..];
      i := i + 1;
    }
  }

  /** Reads up to the closing quote, undoing doubled quotes. */
  method ReadString(input: string, start: nat, quote: char) returns (r: Option<(string, nat)>)
    requires start <= |input|
    ensures r.None? <==> Quoted(input[start..], quote).None?
    ensures r.Some? ==>
      && start < r.value.1 <= |input|
      && Quoted(input[start..], quote) == Some((r.value.0, input[r.value.1..]))
  {
    var i, content := start, "";
    ContinuedStart(Quoted(input[start..], quote));
    while i < |input|
      invariant start <= i <= |input|
      invariant Quoted(input[start..], quote) == Continued(content, Quoted(input[i..], quote))
    {
      assert input[i..][1..] == input[i + 1..];
      if input[i] == quote {
        if i + 1 < |input| && input[i + 1] == quote {
          ContinuedOnce(content, quote, Quoted(input[i + 2..], quote));
          assert input[i..][2..] == input[i + 2..];
          content := content + [quote];
          i := i + 2;
          continue;
        }
        assert content + "" == content;
        return Some((content, i + 1));
      }
      ContinuedOnce(content, input[i], Quoted(input[i + 1..], quote));
      content := content + [input[i]];
      i := i + 1;
    }
    return None;
  }

  lemma ContinuedStart(r: Option<(string, string)>)
    ensures Continued("", r) == r
  {
    if r.Some? {
      assert "" + r.value.0 == r.value.0;
    }
  }

  lemma ContinuedOnce(content: string, c: char, r: Option<(string, string)>)
    ensures Continued(content + [c], r) == Continued(content, Continued([c], r))
  {
    if r.Some? {
      assert content + [c] + r.value.0 == content + ([c] + r.value.0);
    }
  }

  method WordToken(word: string, start: nat) returns (t: Token)
    ensures t == TokenOf(Word(word), start)
  {
    var upper := Uppercase(word);
    var keyword := IsKeyword(upper);
    if keyword {
      return Token(KEYWORD, upper, start);
    }
    return Token(IDENTIFIER, word, start);
  }

  /** One round of the main loop at a character that is not white space. */
  method NextToken(input: string, start: nat) returns (r: Option<(Token, nat)>)
    requires start < |input|
    ensures r.None? <==> Scan(input[start..]).None?
    ensures r.Some? ==>
      && start < r.value.1 <= |input|
      && Scan(input[start..]).value.1 == input[r.value.1..]
      && r.value.0 == TokenOf(Scan(input[start..]).value.0, start)
  {
    hide Span, Quoted, TokenOf;
    ghost var s := input[start..];
    var c := input[start];
    assert s[1..] == input[start + 1..];
    if IsIdentStart(c) {
      var i := SkipWhile(IsIdentChar, input, start + 1);
      assert s[..i - start] == input[start..i] && s[i - start..] == input[i..];
      var t := WordToken(input[start..i], start);
      return Some((t, i));
    }
    if IsDigit(c) || (c == '-' && start + 1 < |input| && IsDigit(input[start + 1])) {
      var i := SkipWhile(IsDigit, input, start + 1);
      assert s[..i - start] == input[start..i] && s[i - start..] == input[i..];
      return Some((NumToken(input[start..i], start), i));
    }
    if IsQuote(c) {
      var content :- ReadString(input, start + 1, c);
      return Some((StrToken(c, content.0, start), content.1));
    }
    r := NextSign(input, start);
  }

  function NumToken(text: string, start: nat): (t: Token)
    ensures t == TokenOf(Num(text), start)
  {
    Token(NUMBER, text, start)
  }

  function StrToken(quote: char, content: string, start: nat): (t: Token)
    ensures t == TokenOf(Str(quote, content), start)
  {
    Token(STRING, content, start)
  }

  method NextSign(input: string, start: nat) returns (r: Option<(Token, nat)>)
    requires start < |input|
    ensures r.None? <==> ScanSign(input[start..]).None?
    ensures r.Some? ==>
      && start < r.value.1 <= |input|
      && ScanSign(input[start..]).value.1 == input[r.value.1..]
      && r.value.0 == TokenOf(ScanSign(input[start..]).value.0, start)
  {
    ghost var s := input[start..];
    var c := input[start];
    assert s[1..] == input[start + 1..];
    assert |s| > 1 ==> s[2..] == input[start + 2..];
    var equal := start + 1 < |input| && input[start + 1] == '=';
    if c == '=' {
      return Some((Token(OPERATOR, "=", start), start + 1));
    }
    if c == '<' || c == '>' {
      if equal {
        return Some((Token(OPERATOR, [c, '='], start), start + 2));
      }
      return Some((Token(OPERATOR, [c], start), start + 1));
    }
    if c == '!' {
      if equal {
        return Some((Token(OPERATOR, "!=", start), start + 2));
      }
      return None;
    }
    if c == '(' || c == ')' || c == ',' || c == '*' {
      return Some((Token(PUNCTUATION, [c], start), start + 1));
    }
    return None;
  }

  method Tokenize(input: string) returns (r: Option<seq<Token>>)
    ensures r == Lex(input, 0)
    ensures r.Some? ==> EndsOnce(r.value) && Accepts(input, r.value)
    ensures r.None? ==> forall tokens :: !Accepts(input, tokens)
  {
    hide Scan, IsSpace, TokenOf;
    var i: nat, tokens: seq<Token> := 0, [];
    assert input[0..] == input;
    AfterStart(Lex(input, 0));
    while i < |input|
      invariant i <= |input|
      invariant Lex(input, 0) == After(tokens, Lex(input[i..], i))
    {
      if IsSpace(input[i]) {
        assert input[i..][1..] == input[i + 1..];
        i := i + 1;
        continue;
      }
      var step := NextToken(input, i);
      if step.None? {
        forall tokens ensures !Accepts(input, tokens) {
          LexExactly(input, tokens);
        }
        return None;
      }
      var next := step.value;
      AfterOnce(tokens, next.0, Lex(input[next.1..], next.1));
      tokens := tokens + [next.0];
      i := next.1;
    }
    r := Some(tokens + [Token(END, "", |input|)]);
    var pieces, tail := LexBackward(input, 0);
    TokensEndOnce(pieces, tail, 0);
    LexExactly(input, r.value);
  }

  ghost function After(tokens: seq<Token>, r: Option<seq<Token>>): Option<seq<Token>> {
    match r
    case Some(more) => Some(tokens + more)
    case None => None
  }

  lemma AfterStart(r: Option<seq<Token>>)
    ensures After([], r) == r
  {
    if r.Some? {
      assert [] + r.value == r.value;
    }
  }

  lemma AfterOnce(tokens: seq<Token>, t: Token, r: Option<seq<Token>>)
    ensures After(tokens + [t], r) == After(tokens, After([t], r))
  {
    if r.Some? {
      assert tokens + [t] + r.value == tokens + ([t] + r.value);
    }
  }
}
