/** From query text to statement and back: the lexer and the parser together. */
module Queries {
  import opened Options
  import opened Rows
  import opened Ast
  import opened Sql
  import opened Parsers
  import opened Lexers

  /** The statement a text asks for, or None where the front end reports a query error. */
  function Read(input: string): Option<Statement> {
    var tokens :- Lex(input, 0);
    Sql.Parse(Syms(tokens))
  }

  /** The lexer feeds the parser. */
  method ParseQuery(input: string) returns (r: Option<Statement>)
    ensures r == Read(input)
  {
    hide Lex, Sql.Parse, EndsOnce, Syms;
    var tokens :- Tokenize(input);
    r := Parsers.Parse(tokens);
  }

  // ---- What can be written ----

  predicate Writable(sym: Sym) {
    match sym
    case Kw(v) => v in KEYWORDS
    case Id(v) => IsWord(v) && Upper(v) !in KEYWORDS
    case Lit(_) => true
    case Opr(v) => IsOp(v)
    case Pun(v) => IsMark(v)
    case End => false
  }

  predicate AllWritable(ss: seq<Sym>) {
    forall i :: 0 <= i < |ss| ==> Writable(ss[i])
  }

  /** One way to write a symbol: keywords in capitals, literals quoted with doubled quotes. */
  function Write(sym: Sym): Lexeme {
    match sym
    case Kw(v) => Word(v)
    case Id(v) => Word(v)
    case Lit(v) => Str('\'', v)
    case Opr(v) => Op(v)
    case Pun(v) => Mark(v)
    case End => Mark("")
  }

  /** The symbols with a space before each. */
  function Spaced(ss: seq<Sym>): seq<Piece> {
    seq(|ss|, i requires 0 <= i < |ss| => Piece(" ", Write(ss[i])))
  }

  lemma KeywordsAreWords(v: string)
    requires v in KEYWORDS
    ensures IsWord(v) && Upper(v) == v
  {
    hide UpperChar, IsIdentStart;
    KeywordsAreCapital(v);
    hide KEYWORDS;
    forall i | 0 <= i < |v| ensures UpperChar(v[i]) == v[i] && IsIdentStart(v[i]) {
      Capital(v[i]);
    }
  }

  lemma Capital(c: char)
    requires 'A' <= c <= 'Z'
    ensures UpperChar(c) == c && IsIdentStart(c)
  {
  }

  lemma WriteReads(sym: Sym, at: nat)
    requires Writable(sym)
    ensures Proper(Write(sym)) && SymOf(TokenOf(Write(sym), at)) == sym
  {
    if sym.Kw? {
      KeywordsAreWords(sym.v);
    }
  }

  /** A space never extends a lexeme, and neither does the end of the text. */
  lemma SpaceSeparates(l: Lexeme, rest: string)
    requires Proper(l) && (|rest| > 0 ==> rest[0] == ' ')
    ensures !Extends(l, rest)
  {
  }

  lemma SymsCons(t: Token, ts: seq<Token>)
    ensures Syms([t] + ts) == [SymOf(t)] + Syms(ts)
  {
    hide SymOf;
  }

  lemma SpacedTail(ss: seq<Sym>)
    requires |ss| > 0
    ensures |Spaced(ss)| == |ss| && Spaced(ss)[0] == Piece(" ", Write(ss[0])) && Spaced(ss)[1..] == Spaced(ss[1..])
  {
    hide Write;
  }

  lemma {:induction false} SpacedLegible(ss: seq<Sym>)
    requires AllWritable(ss)
    ensures Legible(Spaced(ss), "")
    ensures |Render(Spaced(ss), "")| > 0 ==> Render(Spaced(ss), "")[0] == ' '
    decreases |ss|
  {
    hide Proper, Extends, Spell, Write, Writable;
    if |ss| > 0 {
      SpacedTail(ss);
      WriteReads(ss[0], 0);
      SpacedLegible(ss[1..]);
      SpaceSeparates(Write(ss[0]), Render(Spaced(ss[1..]), ""));
      hide Spaced;
    }
  }

  lemma {:induction false} SpacedSyms(ss: seq<Sym>, at: nat)
    requires AllWritable(ss)
    ensures Syms(Tokens(Spaced(ss), "", at)) == ss + [End]
    decreases |ss|
  {
    hide Spell, TokenOf, SymOf, Write, Writable, Syms, Spaced;
    if |ss| == 0 {
      NothingSpaced(ss, at);
    } else {
      var at' := at + 1 + |Spell(Write(ss[0]))|;
      SpacedTail(ss);
      WriteReads(ss[0], at + 1);
      SpacedSyms(ss[1..], at');
      SymsCons(TokenOf(Write(ss[0]), at + 1), Tokens(Spaced(ss[1..]), "", at'));
      assert [ss[0]] + (ss[1..] + [End]) == ss + [End];
    }
  }

  lemma NothingSpaced(ss: seq<Sym>, at: nat)
    requires |ss| == 0
    ensures Syms(Tokens(Spaced(ss), "", at)) == ss + [End]
  {
  }

  lemma LexemeIsWritable(l: Lexeme, at: nat)
    requires Proper(l)
    ensures Writable(SymOf(TokenOf(l, at)))
  {
  }

  lemma {:induction false} TokensAreWritable(pieces: seq<Piece>, tail: string, at: nat) returns (ss: seq<Sym>)
    requires Legible(pieces, tail)
    ensures AllWritable(ss) && Syms(Tokens(pieces, tail, at)) == ss + [End]
    decreases |pieces|
  {
    hide Proper, Extends, Spell, TokenOf, SymOf, Writable;
    if |pieces| == 0 {
      ss := [];
      SymOfEnd(at + |tail|);
    } else {
      var start := at + |pieces[0].gap|;
      LexemeIsWritable(pieces[0].lexeme, start);
      ss := TokensAreWritable(pieces[1..], tail, start + |Spell(pieces[0].lexeme)|);
      ss := [SymOf(TokenOf(pieces[0].lexeme, start))] + ss;
    }
  }

  lemma SymOfEnd(at: nat)
    ensures SymOf(Token(END, "", at)) == End
  {
  }

  // ---- Names ----

  /** An identifier that is not a keyword in any case. */
  predicate IsName(v: string) { Writable(Id(v)) }

  predicate LegalClauses(conditions: seq<WhereClause>) {
    forall c :: c in conditions ==> IsName(c.column)
  }

  /** Every table and column of the statement has a name the lexer reads as an identifier. */
  predicate LegalNames(s: Statement) {
    IsName(s.table) &&
    match s
    case CreateTable(_, defs) => forall d :: d in defs ==> IsName(d.name)
    case DropTable(_) => true
    case Insert(_, columns, _) => forall c :: c in columns ==> IsName(c)
    case Select(_, columns, conditions) => (forall c :: c in columns ==> IsName(c)) && LegalClauses(conditions)
    case Update(_, assignments, conditions) =>
      (forall a :: a in assignments ==> IsName(a.0)) && LegalClauses(conditions)
    case Delete(_, conditions) => LegalClauses(conditions)
  }

  lemma WritableConcat(a: seq<Sym>, b: seq<Sym>)
    ensures AllWritable(a + b) <==> AllWritable(a) && AllWritable(b)
  {
    hide Writable;
    if AllWritable(a + b) {
      assert forall i :: 0 <= i < |a| ==> a[i] == (a + b)[i];
      assert forall i :: 0 <= i < |b| ==> b[i] == (a + b)[|a| + i];
    }
  }

  lemma {:induction false} ListWritable<T>(print1: T -> seq<Sym>, sep: Sym, xs: seq<T>)
    requires Writable(sep)
    ensures AllWritable(PrintList(print1, sep, xs)) <==> forall i :: 0 <= i < |xs| ==> AllWritable(print1(xs[i]))
    decreases |xs|
  {
    hide Writable, AllWritable;
    if |xs| > 1 {
      var more := PrintList(print1, sep, xs[1..]);
      ListWritable(print1, sep, xs[1..]);
      WritableConcat([sep], more);
      WritableConcat(print1(xs[0]), [sep] + more);
      OneWritable(sep);
      assert forall i :: 0 < i < |xs| ==> xs[i] == xs[1..][i - 1];
    } else {
      NoneWritable();
    }
  }

  lemma OneWritable(sym: Sym)
    ensures AllWritable([sym]) <==> Writable(sym)
  {
    assert [sym][0] == sym;
  }

  lemma NoneWritable()
    ensures AllWritable([])
  {
  }

  lemma SignsWritable(op: CompareOp, t: DataType)
    ensures Writable(Opr(OpText(op))) && Writable(Kw(TypeText(t))) && Writable(COMMA) && Writable(AND)
  {
  }

  lemma IdsWritable(names: seq<string>)
    ensures AllWritable(PrintList(PrintId, COMMA, names)) <==> forall c :: c in names ==> IsName(c)
  {
    hide Writable, PrintList;
    SignsWritable(EQ, INT);
    ListWritable(PrintId, COMMA, names);
    forall i | 0 <= i < |names| ensures AllWritable(PrintId(names[i])) <==> IsName(names[i]) {
      OneWritable(Id(names[i]));
    }
  }

  lemma LitsWritable(values: seq<string>)
    ensures AllWritable(PrintList(PrintLit, COMMA, values))
  {
    hide PrintList;
    SignsWritable(EQ, INT);
    ListWritable(PrintLit, COMMA, values);
  }

  lemma DefsWritable(defs: seq<ColumnDef>)
    ensures AllWritable(PrintList(PrintDef, COMMA, defs)) <==> forall d :: d in defs ==> IsName(d.name)
  {
    hide Writable, PrintList;
    SignsWritable(EQ, INT);
    ListWritable(PrintDef, COMMA, defs);
    forall i | 0 <= i < |defs| ensures AllWritable(PrintDef(defs[i])) <==> IsName(defs[i].name) {
      SignsWritable(EQ, defs[i].dataType);
      assert PrintDef(defs[i])[0] == Id(defs[i].name);
    }
  }

  lemma AssignmentsWritable(assignments: seq<(string, string)>)
    ensures AllWritable(PrintList(PrintAssignment, COMMA, assignments))
       <==> forall a :: a in assignments ==> IsName(a.0)
  {
    hide Writable, PrintList;
    SignsWritable(EQ, INT);
    ListWritable(PrintAssignment, COMMA, assignments);
    forall i | 0 <= i < |assignments|
      ensures AllWritable(PrintAssignment(assignments[i])) <==> IsName(assignments[i].0)
    {
      assert PrintAssignment(assignments[i])[0] == Id(assignments[i].0);
      LitWritable(assignments[i].1);
    }
  }

  lemma LitWritable(v: string)
    ensures Writable(Lit(v))
  {
  }

  lemma WhereWritable(conditions: seq<WhereClause>)
    ensures AllWritable(PrintWhere(conditions)) <==> LegalClauses(conditions)
  {
    hide Writable, PrintList;
    SignsWritable(EQ, INT);
    ListWritable(PrintClause, AND, conditions);
    forall i | 0 <= i < |conditions| ensures AllWritable(PrintClause(conditions[i])) <==> IsName(conditions[i].column) {
      SignsWritable(conditions[i].op, INT);
      LitWritable(conditions[i].value);
      assert PrintClause(conditions[i])[0] == Id(conditions[i].column);
    }
    if |conditions| > 0 {
      KeywordWritable("WHERE");
      WritableConcat([Kw("WHERE")], PrintList(PrintClause, AND, conditions));
    }
  }

  lemma KeywordWritable(v: string)
    requires v in KEYWORDS
    ensures Writable(Kw(v))
  {
  }

  /** A fixed opening with one name in it. */
  lemma Opening(before: seq<Sym>, table: string, after: seq<Sym>)
    requires forall i :: 0 <= i < |before| ==> before[i].Kw? && before[i].v in KEYWORDS
    requires forall i :: 0 <= i < |after| ==>
      (after[i].Kw? && after[i].v in KEYWORDS) || (after[i].Pun? && IsMark(after[i].v))
    ensures AllWritable(before + [Id(table)] + after) <==> IsName(table)
  {
    hide IsWord;
    assert (before + [Id(table)] + after)[|before|] == Id(table);
  }

  lemma CreateWritable(s: Statement) returns (ss: seq<Sym>)
    requires s.CreateTable?
    ensures Print(s) == ss + [End] && (AllWritable(ss) <==> LegalNames(s))
  {
    hide Writable, AllWritable, PrintList, IsName;
    var open := [Kw("CREATE"), Kw("TABLE")] + [Id(s.table)] + [Pun("(")];
    var list := PrintList(PrintDef, COMMA, s.defs);
    Opening([Kw("CREATE"), Kw("TABLE")], s.table, [Pun("(")]);
    DefsWritable(s.defs);
    MarkWritable(")");
    WritableConcat(open, list);
    WritableConcat(open + list, [Pun(")")]);
    ss := open + list + [Pun(")")];
  }

  lemma MarkWritable(v: string)
    requires IsMark(v)
    ensures AllWritable([Pun(v)])
  {
  }

  lemma DropWritable(s: Statement) returns (ss: seq<Sym>)
    requires s.DropTable?
    ensures Print(s) == ss + [End] && (AllWritable(ss) <==> LegalNames(s))
  {
    hide Writable, AllWritable;
    ss := [Kw("DROP"), Kw("TABLE")] + [Id(s.table)] + [];
    Opening([Kw("DROP"), Kw("TABLE")], s.table, []);
  }

  lemma InsertWritable(s: Statement) returns (ss: seq<Sym>)
    requires s.Insert?
    ensures Print(s) == ss + [End] && (AllWritable(ss) <==> LegalNames(s))
  {
    hide Writable, AllWritable, PrintList, IsName;
    var open := [Kw("INSERT"), Kw("INTO")] + [Id(s.table)] + [Pun("(")];
    var names, values := PrintList(PrintId, COMMA, s.columns), PrintList(PrintLit, COMMA, s.values);
    var middle := [Pun(")"), Kw("VALUES"), Pun("(")];
    Opening([Kw("INSERT"), Kw("INTO")], s.table, [Pun("(")]);
    IdsWritable(s.columns);
    LitsWritable(s.values);
    MiddleWritable();
    MarkWritable(")");
    WritableConcat(open, names);
    WritableConcat(open + names, middle);
    WritableConcat(open + names + middle, values);
    WritableConcat(open + names + middle + values, [Pun(")")]);
    ss := open + names + middle + values + [Pun(")")];
  }

  lemma MiddleWritable()
    ensures AllWritable([Pun(")"), Kw("VALUES"), Pun("(")])
  {
  }

  lemma SelectWritable(s: Statement) returns (ss: seq<Sym>)
    requires s.Select?
    ensures Print(s) == ss + [End] && (AllWritable(ss) <==> LegalNames(s))
  {
    hide Writable, AllWritable, PrintList, PrintWhere, IsName, LegalClauses;
    var columns := if |s.columns| == 0 then [Pun("*")] else PrintList(PrintId, COMMA, s.columns);
    var from := [Kw("FROM")] + [Id(s.table)] + [];
    IdsWritable(s.columns);
    MarkWritable("*");
    KeywordWritable("SELECT");
    OneWritable(Kw("SELECT"));
    Opening([Kw("FROM")], s.table, []);
    WhereWritable(s.conditions);
    WritableConcat([Kw("SELECT")], columns);
    WritableConcat([Kw("SELECT")] + columns, from);
    WritableConcat([Kw("SELECT")] + columns + from, PrintWhere(s.conditions));
    ss := [Kw("SELECT")] + columns + from + PrintWhere(s.conditions);
  }

  lemma UpdateWritable(s: Statement) returns (ss: seq<Sym>)
    requires s.Update?
    ensures Print(s) == ss + [End] && (AllWritable(ss) <==> LegalNames(s))
  {
    hide Writable, AllWritable, PrintList, PrintWhere, IsName, LegalClauses;
    var open := [Kw("UPDATE")] + [Id(s.table)] + [Kw("SET")];
    var list := PrintList(PrintAssignment, COMMA, s.assignments);
    Opening([Kw("UPDATE")], s.table, [Kw("SET")]);
    AssignmentsWritable(s.assignments);
    WhereWritable(s.conditions);
    WritableConcat(open, list);
    WritableConcat(open + list, PrintWhere(s.conditions));
    ss := open + list + PrintWhere(s.conditions);
  }

  lemma DeleteWritable(s: Statement) returns (ss: seq<Sym>)
    requires s.Delete?
    ensures Print(s) == ss + [End] && (AllWritable(ss) <==> LegalNames(s))
  {
    hide Writable, AllWritable, PrintWhere, IsName, LegalClauses;
    var open := [Kw("DELETE"), Kw("FROM")] + [Id(s.table)] + [];
    Opening([Kw("DELETE"), Kw("FROM")], s.table, []);
    WhereWritable(s.conditions);
    WritableConcat(open, PrintWhere(s.conditions));
    ss := open + PrintWhere(s.conditions);
  }

  /** Names decide whether a statement can be written: its other symbols always can. */
  lemma PrintWritable(s: Statement) returns (ss: seq<Sym>)
    ensures Print(s) == ss + [End] && (AllWritable(ss) <==> LegalNames(s))
  {
    hide Print, AllWritable, LegalNames;
    match s
    case CreateTable(_, _) => ss := CreateWritable(s);
    case DropTable(_) => ss := DropWritable(s);
    case Insert(_, _, _) => ss := InsertWritable(s);
    case Select(_, _, _) => ss := SelectWritable(s);
    case Update(_, _, _) => ss := UpdateWritable(s);
    case Delete(_, _) => ss := DeleteWritable(s);
  }

  // ---- The round trip through text ----

  /** A statement as query text. */
  function Text(s: Statement): string {
    var ss := Print(s);
    if |ss| == 0 then "" else Render(Spaced(ss[..|ss| - 1]), "")
  }

  /** How a symbol may be written: a keyword in any case, a literal as a number or as a string in either quote. */
  ghost predicate SpelledBy(sym: Sym, l: Lexeme) {
    match sym
    case Kw(v) => l.Word? && v in KEYWORDS && SameLetters(l.text, v)
    case Id(v) => l == Word(v) && forall k :: k in KEYWORDS ==> !SameLetters(v, k)
    case Lit(v) => l == Num(v) || (l.Str? && l.content == v)
    case Opr(v) => l == Op(v)
    case Pun(v) => l == Mark(v)
    case End => false
  }

  lemma SpelledExactly(sym: Sym, l: Lexeme, at: nat)
    ensures SymOf(TokenOf(l, at)) == sym <==> SpelledBy(sym, l)
  {
    TokenReads(l, at, TokenOf(l, at));
    if l.Word? {
      WordSpelled(sym, l.text, at);
    } else {
      hide KEYWORDS, SameLetters;
    }
  }

  lemma WordSpelled(sym: Sym, w: string, at: nat)
    ensures SymOf(TokenOf(Word(w), at)) == sym <==> SpelledBy(sym, Word(w))
  {
    forall v | v in KEYWORDS ensures Upper(w) == v <==> SameLetters(w, v) {
      UpperIsKeyword(w, v);
    }
    hide Upper, SameLetters, KEYWORDS;
  }

  /** The pieces write the symbols one by one; the end of the query is not written. */
  ghost predicate SpellsAll(ss: seq<Sym>, pieces: seq<Piece>) {
    && |ss| == |pieces| + 1 && ss[|pieces|] == End
    && forall i :: 0 <= i < |pieces| ==> SpelledBy(ss[i], pieces[i].lexeme)
  }

  lemma {:induction false} SymsSpell(pieces: seq<Piece>, tail: string, at: nat, ss: seq<Sym>)
    ensures Syms(Tokens(pieces, tail, at)) == ss <==> SpellsAll(ss, pieces)
    decreases |pieces|
  {
    hide TokenOf, SymOf, Spell, SpelledBy, Syms;
    if |pieces| == 0 {
      NoPieces(pieces, tail, at, ss);
    } else {
      var start := at + |pieces[0].gap|;
      var at' := start + |Spell(pieces[0].lexeme)|;
      var t, rest := TokenOf(pieces[0].lexeme, start), Tokens(pieces[1..], tail, at');
      SymsCons(t, rest);
      if |ss| > 0 {
        SpelledExactly(ss[0], pieces[0].lexeme, start);
        SymsSpell(pieces[1..], tail, at', ss[1..]);
        SpellsCons(ss, pieces);
        hide SpellsAll;
        assert ss == [ss[0]] + ss[1..];
        assert ([SymOf(t)] + Syms(rest))[1..] == Syms(rest);
      }
    }
  }

  lemma NoPieces(pieces: seq<Piece>, tail: string, at: nat, ss: seq<Sym>)
    requires |pieces| == 0
    ensures Syms(Tokens(pieces, tail, at)) == ss <==> SpellsAll(ss, pieces)
  {
    assert Syms(Tokens(pieces, tail, at)) == [End];
    assert SpellsAll(ss, pieces) ==> ss == [End];
  }

  lemma SpellsCons(ss: seq<Sym>, pieces: seq<Piece>)
    requires |ss| > 0 && |pieces| > 0
    ensures SpellsAll(ss, pieces) <==> SpelledBy(ss[0], pieces[0].lexeme) && SpellsAll(ss[1..], pieces[1..])
  {
    hide SpelledBy;
    if SpelledBy(ss[0], pieces[0].lexeme) && SpellsAll(ss[1..], pieces[1..]) {
      forall i | 0 <= i < |pieces| ensures SpelledBy(ss[i], pieces[i].lexeme) {
        assert i > 0 ==> ss[i] == ss[1..][i - 1] && pieces[i] == pieces[1..][i - 1];
      }
    }
  }

  /** Any legible text that writes a statement's symbols one by one reads as the statement, however it is spaced,
      capitalised and quoted. */
  lemma ReadComplete(pieces: seq<Piece>, tail: string, s: Statement)
    requires WellFormed(s) && Legible(pieces, tail) && SpellsAll(Print(s), pieces)
    ensures Read(Render(pieces, tail)) == Some(s)
  {
    hide Print, Lex, Render, Tokens, Legible, Sql.Parse, Syms, SpellsAll;
    LexForward(pieces, tail, 0);
    SymsSpell(pieces, tail, 0, Print(s));
    ParsePrint(s);
  }

  /** Whatever reads as a statement writes that statement's symbols one by one, and nothing else. */
  lemma ReadSound(input: string) returns (pieces: seq<Piece>, tail: string)
    requires Read(input).Some?
    ensures WellFormed(Read(input).value) && LegalNames(Read(input).value)
    ensures Legible(pieces, tail) && input == Render(pieces, tail)
    ensures SpellsAll(Print(Read(input).value), pieces)
  {
    hide Print, Lex, Render, Tokens, Legible, Sql.Parse, Syms, AllWritable, LegalNames, SpellsAll;
    pieces, tail := LexBackward(input, 0);
    PrintParse(Syms(Lex(input, 0).value));
    SymsSpell(pieces, tail, 0, Print(Read(input).value));
    var ss := TokensAreWritable(pieces, tail, 0);
    var ss' := PrintWritable(Read(input).value);
    assert ss == (ss + [End])[..|ss|] == (ss' + [End])[..|ss'|] == ss';
  }

  lemma CreatePrints() returns (s: Statement)
    ensures WellFormed(s)
    ensures Kw("CREATE") in Print(s) && Kw("TABLE") in Print(s) && Kw("INT") in Print(s) && Kw("TEXT") in Print(s)
  {
    var defs := [ColumnDef("a", INT), ColumnDef("b", TEXT)];
    s := CreateTable("t", defs);
    assert PrintList(PrintDef, COMMA, defs[1..]) == PrintDef(defs[1]);
    assert Print(s)[0] == Kw("CREATE") && Print(s)[1] == Kw("TABLE");
    assert Print(s)[5] == Kw("INT") && Print(s)[8] == Kw("TEXT");
  }

  lemma InsertPrints() returns (s: Statement)
    ensures WellFormed(s) && Kw("INSERT") in Print(s) && Kw("INTO") in Print(s) && Kw("VALUES") in Print(s)
  {
    s := Insert("t", ["a"], ["0"]);
    assert Print(s)[0] == Kw("INSERT") && Print(s)[1] == Kw("INTO") && Print(s)[6] == Kw("VALUES");
  }

  lemma SelectPrints() returns (s: Statement)
    ensures WellFormed(s)
    ensures Kw("SELECT") in Print(s) && Kw("FROM") in Print(s) && Kw("WHERE") in Print(s) && Kw("AND") in Print(s)
  {
    var clauses := [WhereClause("a", EQ, "0"), WhereClause("b", EQ, "0")];
    s := Select("t", [], clauses);
    assert PrintList(PrintClause, AND, clauses[1..]) == PrintClause(clauses[1]);
    assert Print(s)[0] == Kw("SELECT") && Print(s)[2] == Kw("FROM");
    assert Print(s)[4] == Kw("WHERE") && Print(s)[8] == Kw("AND");
  }

  lemma OtherPrints() returns (update: Statement, drop: Statement, delete: Statement)
    ensures WellFormed(update) && Kw("UPDATE") in Print(update) && Kw("SET") in Print(update)
    ensures WellFormed(drop) && Kw("DROP") in Print(drop) && WellFormed(delete) && Kw("DELETE") in Print(delete)
  {
    update, drop, delete := Update("t", [("a", "0")], []), DropTable("t"), Delete("t", []);
    assert Print(update)[0] == Kw("UPDATE") && Print(update)[2] == Kw("SET");
    assert Print(drop)[0] == Kw("DROP") && Print(delete)[0] == Kw("DELETE");
  }

  /** Every keyword is one that some statement prints: no other word is kept from being a name. */
  lemma KeywordsAreUsed(v: string) returns (s: Statement)
    requires v in KEYWORDS
    ensures WellFormed(s) && Kw(v) in Print(s)
  {
    hide Print, WellFormed;
    var create := CreatePrints();
    var insert := InsertPrints();
    var select := SelectPrints();
    var update, drop, delete := OtherPrints();
    s := if Kw(v) in Print(create) then create
         else if Kw(v) in Print(insert) then insert
         else if Kw(v) in Print(select) then select
         else if Kw(v) in Print(update) then update
         else if Kw(v) in Print(drop) then drop
         else delete;
  }

  /** Writing a statement and reading it back gives the statement. */
  lemma ReadText(s: Statement)
    requires WellFormed(s) && LegalNames(s)
    ensures Read(Text(s)) == Some(s)
  {
    hide Print, Render, Tokens, Legible, Read, Syms, AllWritable, LegalNames, Spaced, SpellsAll;
    var ss := PrintWritable(s);
    assert Print(s)[..|Print(s)| - 1] == ss;
    SpacedLegible(ss);
    SpacedSyms(ss, 0);
    SymsSpell(Spaced(ss), "", 0, Print(s));
    ReadComplete(Spaced(ss), "", s);
  }

  /** Queries can ask for exactly the well-formed statements with legal names. */
  lemma Expressible(s: Statement)
    ensures (exists input :: Read(input) == Some(s)) <==> WellFormed(s) && LegalNames(s)
  {
    hide Read, LegalNames, Text;
    if WellFormed(s) && LegalNames(s) {
      ReadText(s);
    }
    if input :| Read(input) == Some(s) {
      var pieces, tail := ReadSound(input);
    }
  }
}
