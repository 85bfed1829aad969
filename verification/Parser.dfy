/** The recursive-descent parser: a cursor over the token stream, proved to read exactly the grammar of `Sql`. */
module Parsers {
  import opened Options
  import opened Rows
  import opened Ast
  import opened Sql

  datatype TokenType = KEYWORD | IDENTIFIER | NUMBER | STRING | OPERATOR | PUNCTUATION | END

  datatype Token = Token(kind: TokenType, value: string, position: nat)

  function SymOf(t: Token): Sym {
    match t.kind
    case KEYWORD => Kw(t.value)
    case IDENTIFIER => Id(t.value)
    case NUMBER => Lit(t.value)
    case STRING => Lit(t.value)
    case OPERATOR => Opr(t.value)
    case PUNCTUATION => Pun(t.value)
    case END => End
  }

  function Syms(tokens: seq<Token>): (ss: seq<Sym>)
    ensures |ss| == |tokens| && forall i :: 0 <= i < |ss| ==> ss[i] == SymOf(tokens[i])
  {
    seq(|tokens|, i requires 0 <= i < |tokens| => SymOf(tokens[i]))
  }

  /** What the lexer guarantees: the sentinel closes the stream and stands nowhere else. */
  ghost predicate EndsOnce(tokens: seq<Token>) {
    && |tokens| > 0 && tokens[|tokens| - 1].kind == END
    && forall i :: 0 <= i < |tokens| - 1 ==> tokens[i].kind != END
  }

  /** A read agrees with the grammar: same success, same value, same rest. */
  ghost predicate Agrees<T>(result: Option<T>, rest: seq<Sym>, spec: Parsed<T>) {
    match spec
    case Some((x, r)) => result == Some(x) && rest == r
    case None => result == None
  }

  // ---- Lists read item by item ----

  /** The list parse continued after some items, at what follows the last of them. */
  ghost function More<T>(item: seq<Sym> -> Parsed<T>, sep: Sym, xs: seq<T>, ss: seq<Sym>): Parsed<seq<T>> {
    if Starts(ss, sep) then
      match ParseList(item, sep, ss[1..])
      case Some((ys, r)) => Some((xs + ys, r))
      case None => None
    else Some((xs, ss))
  }

  lemma ListStart<T>(item: seq<Sym> -> Parsed<T>, sep: Sym, ss: seq<Sym>)
    requires item(ss).Some? ==> |item(ss).value.1| <= |ss|
    ensures item(ss).None? ==> ParseList(item, sep, ss).None?
    ensures item(ss).Some? ==> ParseList(item, sep, ss) == More(item, sep, [item(ss).value.0], item(ss).value.1)
  {
  }

  lemma ListNext<T>(item: seq<Sym> -> Parsed<T>, sep: Sym, xs: seq<T>, ss: seq<Sym>)
    requires Starts(ss, sep) && (item(ss[1..]).Some? ==> |item(ss[1..]).value.1| <= |ss[1..]|)
    ensures item(ss[1..]).None? ==> More(item, sep, xs, ss).None?
    ensures item(ss[1..]).Some? ==>
      More(item, sep, xs, ss) == More(item, sep, xs + [item(ss[1..]).value.0], item(ss[1..]).value.1)
  {
    ListStart(item, sep, ss[1..]);
    hide ParseList;
    if item(ss[1..]).Some? {
      var (x, r) := item(ss[1..]).value;
      if Starts(r, sep) && ParseList(item, sep, r[1..]).Some? {
        assert xs + ([x] + ParseList(item, sep, r[1..]).value.0) == xs + [x] + ParseList(item, sep, r[1..]).value.0;
      }
    }
  }

  class Parser {
    const tokens: seq<Token>
    var pos: nat

    ghost predicate Valid()
      reads this
    {
      EndsOnce(tokens) && pos < |tokens|
    }

    ghost function Rest(): seq<Sym>
      reads this
      requires Valid()
    {
      Syms(tokens)[pos..]
    }

    constructor (tokens: seq<Token>)
      requires EndsOnce(tokens)
      ensures Valid() && Rest() == Syms(tokens) && this.tokens == tokens
    {
      this.tokens, pos := tokens, 0;
      new;
      assert Syms(tokens)[0..] == Syms(tokens);
    }

    /** Steps over a token, never past the sentinel. */
    method Advance() returns (t: Token)
      requires Valid()
      modifies this
      ensures Valid() && SymOf(t) == old(Rest())[0] && t == tokens[old(pos)]
      ensures t.kind != END ==> Rest() == old(Rest())[1..] && pos == old(pos) + 1
      ensures old(Rest())[0] != End ==> t.kind != END
      ensures t.kind == END ==> pos == old(pos)
    {
      t := tokens[pos];
      if t.kind != END {
        assert Syms(tokens)[pos..][1..] == Syms(tokens)[pos + 1..];
        pos := pos + 1;
      }
    }

    function PeekIs(kind: TokenType, value: string): bool
      reads this
      requires Valid()
      ensures kind == PUNCTUATION ==> (PeekIs(kind, value) <==> Starts(Rest(), Pun(value)))
      ensures kind == KEYWORD ==> (PeekIs(kind, value) <==> Starts(Rest(), Kw(value)))
      ensures kind == OPERATOR ==> (PeekIs(kind, value) <==> Starts(Rest(), Opr(value)))
    {
      tokens[pos].kind == kind && tokens[pos].value == value
    }

    method ExpectKeyword(keyword: string) returns (ok: Option<()>)
      requires Valid()
      modifies this
      ensures Valid() && pos >= old(pos)
      ensures ok.Some? <==> Starts(old(Rest()), Kw(keyword))
      ensures ok.Some? ==> Rest() == old(Rest())[1..]
    {
      if !PeekIs(KEYWORD, keyword) {
        return None;
      }
      var t := Advance();
      return Some(());
    }

    method ExpectPunctuation(c: string) returns (ok: Option<()>)
      requires Valid()
      modifies this
      ensures Valid() && pos >= old(pos)
      ensures ok.Some? <==> Starts(old(Rest()), Pun(c))
      ensures ok.Some? ==> Rest() == old(Rest())[1..]
    {
      if !PeekIs(PUNCTUATION, c) {
        return None;
      }
      var t := Advance();
      return Some(());
    }

    method ExpectIdentifier() returns (name: Option<string>)
      requires Valid()
      modifies this
      ensures Valid() && pos >= old(pos)
      ensures Agrees(name, Rest(), ParseId(old(Rest())))
    {
      if tokens[pos].kind != IDENTIFIER {
        return None;
      }
      var t := Advance();
      return Some(t.value);
    }

    method ParseLiteral() returns (value: Option<string>)
      requires Valid()
      modifies this
      ensures Valid() && pos >= old(pos)
      ensures Agrees(value, Rest(), ParseLit(old(Rest())))
    {
      if tokens[pos].kind != NUMBER && tokens[pos].kind != STRING {
        return None;
      }
      var t := Advance();
      return Some(t.value);
    }

    method ExpectComparison() returns (op: Option<CompareOp>)
      requires Valid()
      modifies this
      ensures Valid() && pos >= old(pos)
      ensures Agrees(op, Rest(), ParseOp(old(Rest())))
    {
      if tokens[pos].kind != OPERATOR {
        return None;
      }
      var t := Advance();
      if t.value == "=" { return Some(EQ); }
      if t.value == "!=" { return Some(NE); }
      if t.value == "<" { return Some(LT); }
      if t.value == "<=" { return Some(LE); }
      if t.value == ">" { return Some(GT); }
      if t.value == ">=" { return Some(GE); }
      return None;
    }

    method ExpectType() returns (dataType: Option<DataType>)
      requires Valid()
      modifies this
      ensures Valid() && pos >= old(pos)
      ensures Agrees(dataType, Rest(), ParseType(old(Rest())))
    {
      if tokens[pos].kind != KEYWORD {
        return None;
      }
      var t := Advance();
      if t.value == "INT" { return Some(INT); }
      if t.value == "TEXT" { return Some(TEXT); }
      return None;
    }

    method ExpectEnd() returns (ok: Option<()>)
      requires Valid()
      ensures ok.Some? <==> Rest() == [End]
    {
      if tokens[pos].kind != END {
        assert Rest()[0] != End;
        return None;
      }
      return Some(());
    }

    method ParseIdentifierList() returns (names: Option<seq<string>>)
      requires Valid()
      modifies this
      ensures Valid() && pos >= old(pos)
      ensures Agrees(names, Rest(), ParseList(ParseId, COMMA, old(Rest())))
    {
      hide ParseList, Syms, SymOf, PeekIs;
      ghost var spec := ParseList(ParseId, COMMA, Rest());
      ListStart(ParseId, COMMA, Rest());
      var first :- ExpectIdentifier();
      var list := [first];
      while PeekIs(PUNCTUATION, ",")
        invariant Valid() && pos >= old(pos)
        invariant spec == More(ParseId, COMMA, list, Rest())
        decreases |tokens| - pos
      {
        ListNext(ParseId, COMMA, list, Rest());
        var comma := Advance();
        var name :- ExpectIdentifier();
        list := list + [name];
      }
      return Some(list);
    }

    method ReadDef() returns (def: Option<ColumnDef>)
      requires Valid()
      modifies this
      ensures Valid() && pos >= old(pos)
      ensures Agrees(def, Rest(), ParseDef(old(Rest())))
    {
      var name :- ExpectIdentifier();
      var dataType :- ExpectType();
      return Some(ColumnDef(name, dataType));
    }

    method ReadAssignment() returns (a: Option<(string, string)>)
      requires Valid()
      modifies this
      ensures Valid() && pos >= old(pos)
      ensures Agrees(a, Rest(), ParseAssignment(old(Rest())))
    {
      hide Syms, EndsOnce;
      var column :- ExpectIdentifier();
      if !PeekIs(OPERATOR, "=") {
        return None;
      }
      var eq := Advance();
      var value :- ParseLiteral();
      return Some((column, value));
    }

    method ReadClause() returns (c: Option<WhereClause>)
      requires Valid()
      modifies this
      ensures Valid() && pos >= old(pos)
      ensures Agrees(c, Rest(), ParseClause(old(Rest())))
    {
      var column :- ExpectIdentifier();
      var op :- ExpectComparison();
      var value :- ParseLiteral();
      return Some(WhereClause(column, op, value));
    }

    /** The column loop of CREATE TABLE. */
    method ParseDefs() returns (r: Option<seq<ColumnDef>>)
      requires Valid()
      modifies this
      ensures Valid() && pos >= old(pos)
      ensures Agrees(r, Rest(), ParseList(ParseDef, COMMA, old(Rest())))
    {
      hide ParseList, Syms, SymOf, PeekIs, ParseDef;
      ghost var spec := ParseList(ParseDef, COMMA, Rest());
      ShrinksParseDef(Rest());
      ListStart(ParseDef, COMMA, Rest());
      var first :- ReadDef();
      var list := [first];
      while PeekIs(PUNCTUATION, ",")
        invariant Valid() && pos >= old(pos)
        invariant spec == More(ParseDef, COMMA, list, Rest())
        decreases |tokens| - pos
      {
        ShrinksParseDef(Rest()[1..]);
        ListNext(ParseDef, COMMA, list, Rest());
        var separator := Advance();
        var next :- ReadDef();
        list := list + [next];
      }
      return Some(list);
    }

    /** The literal loop of INSERT. */
    method ParseValues() returns (r: Option<seq<string>>)
      requires Valid()
      modifies this
      ensures Valid() && pos >= old(pos)
      ensures Agrees(r, Rest(), ParseList(ParseLit, COMMA, old(Rest())))
    {
      hide ParseList, Syms, SymOf, PeekIs, ParseLit;
      ghost var spec := ParseList(ParseLit, COMMA, Rest());
      ShrinksParseLit(Rest());
      ListStart(ParseLit, COMMA, Rest());
      var first :- ParseLiteral();
      var list := [first];
      while PeekIs(PUNCTUATION, ",")
        invariant Valid() && pos >= old(pos)
        invariant spec == More(ParseLit, COMMA, list, Rest())
        decreases |tokens| - pos
      {
        ShrinksParseLit(Rest()[1..]);
        ListNext(ParseLit, COMMA, list, Rest());
        var separator := Advance();
        var next :- ParseLiteral();
        list := list + [next];
      }
      return Some(list);
    }

    /** The assignment loop of UPDATE. */
    method ParseAssignments() returns (r: Option<seq<(string, string)>>)
      requires Valid()
      modifies this
      ensures Valid() && pos >= old(pos)
      ensures Agrees(r, Rest(), ParseList(ParseAssignment, COMMA, old(Rest())))
    {
      hide ParseList, Syms, SymOf, PeekIs, ParseAssignment;
      ghost var spec := ParseList(ParseAssignment, COMMA, Rest());
      ShrinksParseAssignment(Rest());
      ListStart(ParseAssignment, COMMA, Rest());
      var first :- ReadAssignment();
      var list := [first];
      while PeekIs(PUNCTUATION, ",")
        invariant Valid() && pos >= old(pos)
        invariant spec == More(ParseAssignment, COMMA, list, Rest())
        decreases |tokens| - pos
      {
        ShrinksParseAssignment(Rest()[1..]);
        ListNext(ParseAssignment, COMMA, list, Rest());
        var separator := Advance();
        var next :- ReadAssignment();
        list := list + [next];
      }
      return Some(list);
    }

    /** The AND loop of WHERE. */
    method ParseClauses() returns (r: Option<seq<WhereClause>>)
      requires Valid()
      modifies this
      ensures Valid() && pos >= old(pos)
      ensures Agrees(r, Rest(), ParseList(ParseClause, AND, old(Rest())))
    {
      hide ParseList, Syms, SymOf, PeekIs, ParseClause;
      ghost var spec := ParseList(ParseClause, AND, Rest());
      ShrinksParseClause(Rest());
      ListStart(ParseClause, AND, Rest());
      var first :- ReadClause();
      var list := [first];
      while PeekIs(KEYWORD, "AND")
        invariant Valid() && pos >= old(pos)
        invariant spec == More(ParseClause, AND, list, Rest())
        decreases |tokens| - pos
      {
        ShrinksParseClause(Rest()[1..]);
        ListNext(ParseClause, AND, list, Rest());
        var separator := Advance();
        var next :- ReadClause();
        list := list + [next];
      }
      return Some(list);
    }

    method ParseOptionalWhere() returns (conditions: Option<seq<WhereClause>>)
      requires Valid()
      modifies this
      ensures Valid() && pos >= old(pos)
      ensures Agrees(conditions, Rest(), ParseWhere(old(Rest())))
    {
      hide ParseList;
      if !PeekIs(KEYWORD, "WHERE") {
        return Some([]);
      }
      var keyword := Advance();
      conditions := ParseClauses();
    }

    method ParseCreateTable() returns (r: Option<Statement>)
      requires Valid()
      modifies this
      ensures Valid() && r == ParseCreate(old(Rest()))
    {
      hide ParseList, Syms, EndsOnce;
      var create :- ExpectKeyword("CREATE");
      var keyword :- ExpectKeyword("TABLE");
      var table :- ExpectIdentifier();
      var open :- ExpectPunctuation("(");
      var defs :- ParseDefs();
      var close :- ExpectPunctuation(")");
      var end :- ExpectEnd();
      return Some(CreateTable(table, defs));
    }

    method ParseDropTable() returns (r: Option<Statement>)
      requires Valid()
      modifies this
      ensures Valid() && r == ParseDrop(old(Rest()))
    {
      hide Syms, EndsOnce;
      var drop :- ExpectKeyword("DROP");
      var keyword :- ExpectKeyword("TABLE");
      var table :- ExpectIdentifier();
      var end :- ExpectEnd();
      return Some(DropTable(table));
    }

    /** The rest of an INSERT from VALUES on. */
    method ParseValuesTail() returns (r: Option<seq<string>>)
      requires Valid()
      modifies this
      ensures Valid() && r == ParseValuesClause(old(Rest()))
    {
      hide ParseList, ParseLit, Syms, SymOf, EndsOnce;
      var keyword :- ExpectKeyword("VALUES");
      var open :- ExpectPunctuation("(");
      var values :- ParseValues();
      var close :- ExpectPunctuation(")");
      var end :- ExpectEnd();
      return Some(values);
    }

    method ParseInsertInto() returns (r: Option<Statement>)
      requires Valid()
      modifies this
      ensures Valid() && r == ParseInsert(old(Rest()))
    {
      hide ParseList, ParseId, ParseValuesClause, Syms, SymOf, EndsOnce;
      var insert :- ExpectKeyword("INSERT");
      var into :- ExpectKeyword("INTO");
      var table :- ExpectIdentifier();
      var open :- ExpectPunctuation("(");
      var columns :- ParseIdentifierList();
      var close :- ExpectPunctuation(")");
      var values :- ParseValuesTail();
      if |columns| != |values| {
        return None;
      }
      return Some(Insert(table, columns, values));
    }

    method ParseSelectFrom() returns (r: Option<Statement>)
      requires Valid()
      modifies this
      ensures Valid() && r == ParseSelect(old(Rest()))
    {
      hide ParseList, ParseWhere, ParseId, Syms, SymOf, PeekIs, EndsOnce;
      var select :- ExpectKeyword("SELECT");
      var columns := [];
      if PeekIs(PUNCTUATION, "*") {
        var star := Advance();
      } else {
        columns :- ParseIdentifierList();
      }
      var from :- ExpectKeyword("FROM");
      var table :- ExpectIdentifier();
      var conditions :- ParseOptionalWhere();
      var end :- ExpectEnd();
      return Some(Select(table, columns, conditions));
    }

    method ParseUpdateSet() returns (r: Option<Statement>)
      requires Valid()
      modifies this
      ensures Valid() && r == ParseUpdate(old(Rest()))
    {
      hide ParseList, ParseWhere, Syms, EndsOnce;
      var update :- ExpectKeyword("UPDATE");
      var table :- ExpectIdentifier();
      var keyword :- ExpectKeyword("SET");
      var assignments :- ParseAssignments();
      var conditions :- ParseOptionalWhere();
      var end :- ExpectEnd();
      return Some(Update(table, assignments, conditions));
    }

    method ParseDeleteFrom() returns (r: Option<Statement>)
      requires Valid()
      modifies this
      ensures Valid() && r == ParseDelete(old(Rest()))
    {
      hide ParseWhere, Syms, EndsOnce;
      var delete :- ExpectKeyword("DELETE");
      var from :- ExpectKeyword("FROM");
      var table :- ExpectIdentifier();
      var conditions :- ParseOptionalWhere();
      var end :- ExpectEnd();
      return Some(Delete(table, conditions));
    }

    /** Dispatches on the first keyword. */
    method ParseStatement() returns (r: Option<Statement>)
      requires Valid()
      modifies this
      ensures Valid() && r == Sql.Parse(old(Rest()))
    {
      hide ParseCreate, ParseDrop, ParseInsert, ParseSelect, ParseUpdate, ParseDelete, Syms, EndsOnce;
      assert Rest()[0] == SymOf(tokens[pos]);
      var first := tokens[pos];
      if first.kind != KEYWORD {
        return None;
      }
      if first.value == "CREATE" {
        r := ParseCreateTable();
      } else if first.value == "DROP" {
        r := ParseDropTable();
      } else if first.value == "INSERT" {
        r := ParseInsertInto();
      } else if first.value == "SELECT" {
        r := ParseSelectFrom();
      } else if first.value == "UPDATE" {
        r := ParseUpdateSet();
      } else if first.value == "DELETE" {
        r := ParseDeleteFrom();
      } else {
        return None;
      }
    }
  }

  /** The grammar decides which symbol sequences are printed statements. */
  lemma Decides(ss: seq<Sym>)
    ensures Sql.Parse(ss).Some? ==> WellFormed(Sql.Parse(ss).value) && ss == Print(Sql.Parse(ss).value)
    ensures Sql.Parse(ss).None? ==> forall s :: WellFormed(s) ==> ss != Print(s)
  {
    hide Sql.Parse, Print;
    if Sql.Parse(ss).Some? {
      PrintParse(ss);
    } else {
      forall s | WellFormed(s) ensures ss != Print(s) {
        ParsePrint(s);
      }
    }
  }

  /** Accepts exactly the printed statements, and returns the one that was printed. */
  method Parse(tokens: seq<Token>) returns (r: Option<Statement>)
    requires EndsOnce(tokens)
    ensures r == Sql.Parse(Syms(tokens))
    ensures r.Some? ==> WellFormed(r.value) && Syms(tokens) == Print(r.value)
    ensures r.None? ==> forall s :: WellFormed(s) ==> Syms(tokens) != Print(s)
  {
    hide Sql.Parse, Print, Syms;
    var parser := new Parser(tokens);
    r := parser.ParseStatement();
    Decides(Syms(tokens));
  }

  lemma ShrinksParseLit(ss: seq<Sym>)
    ensures ParseLit(ss).Some? ==> |ParseLit(ss).value.1| <= |ss|
  {
  }

  lemma ShrinksParseDef(ss: seq<Sym>)
    ensures ParseDef(ss).Some? ==> |ParseDef(ss).value.1| <= |ss|
  {
  }

  lemma ShrinksParseAssignment(ss: seq<Sym>)
    ensures ParseAssignment(ss).Some? ==> |ParseAssignment(ss).value.1| <= |ss|
  {
  }

  lemma ShrinksParseClause(ss: seq<Sym>)
    ensures ParseClause(ss).Some? ==> |ParseClause(ss).value.1| <= |ss|
  {
  }
}
