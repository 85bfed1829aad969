/** Statements, the symbols they are written in, and the grammar the parser follows.

A symbol is a token without its position, with number and string literals not told apart, as the parser does not.
*/
module Sql {
  import opened Options
  import opened Rows
  import opened Ast

  datatype Sym = Kw(v: string) | Id(v: string) | Lit(v: string) | Opr(v: string) | Pun(v: string) | End

  /** What the grammar can write: no empty lists except a star, and as many values as columns. */
  predicate WellFormed(s: Statement) {
    match s
    case CreateTable(_, defs) => |defs| > 0
    case Insert(_, columns, values) => 0 < |columns| == |values|
    case Update(_, assignments, _) => |assignments| > 0
    case _ => true
  }

  // ---- Printing ----

  function OpText(op: CompareOp): string {
    match op
    case EQ => "="
    case NE => "!="
    case LT => "<"
    case LE => "<="
    case GT => ">"
    case GE => ">="
  }

  function TypeText(t: DataType): string {
    match t
    case INT => "INT"
    case TEXT => "TEXT"
  }

  function PrintId(name: string): seq<Sym> { [Id(name)] }

  function PrintLit(value: string): seq<Sym> { [Lit(value)] }

  function PrintDef(def: ColumnDef): seq<Sym> { [Id(def.name), Kw(TypeText(def.dataType))] }

  function PrintAssignment(a: (string, string)): seq<Sym> { [Id(a.0), Opr("="), Lit(a.1)] }

  function PrintClause(c: WhereClause): seq<Sym> { [Id(c.column), Opr(OpText(c.op)), Lit(c.value)] }

  /** Items with a separator between them. */
  function PrintList<T>(print1: T -> seq<Sym>, sep: Sym, xs: seq<T>): seq<Sym> {
    if |xs| == 0 then []
    else if |xs| == 1 then print1(xs[0])
    else print1(xs[0]) + ([sep] + PrintList(print1, sep, xs[1..]))
  }

  const COMMA: Sym := Pun(",")
  const AND: Sym := Kw("AND")

  function PrintWhere(conditions: seq<WhereClause>): seq<Sym> {
    if |conditions| == 0 then [] else [Kw("WHERE")] + PrintList(PrintClause, AND, conditions)
  }

  /** The symbols of a statement, closed by the end of the query. */
  function Print(s: Statement): seq<Sym> {
    match s
    case CreateTable(t, defs) =>
      [Kw("CREATE"), Kw("TABLE"), Id(t), Pun("(")] + (PrintList(PrintDef, COMMA, defs) + [Pun(")"), End])
    case DropTable(t) => [Kw("DROP"), Kw("TABLE"), Id(t), End]
    case Insert(t, columns, values) =>
      [Kw("INSERT"), Kw("INTO"), Id(t), Pun("(")]
      + (PrintList(PrintId, COMMA, columns)
         + ([Pun(")"), Kw("VALUES"), Pun("(")] + (PrintList(PrintLit, COMMA, values) + [Pun(")"), End])))
    case Select(t, columns, conditions) =>
      [Kw("SELECT")] + ((if |columns| == 0 then [Pun("*")] else PrintList(PrintId, COMMA, columns))
                        + ([Kw("FROM"), Id(t)] + (PrintWhere(conditions) + [End])))
    case Update(t, assignments, conditions) =>
      [Kw("UPDATE"), Id(t), Kw("SET")]
      + (PrintList(PrintAssignment, COMMA, assignments) + (PrintWhere(conditions) + [End]))
    case Delete(t, conditions) =>
      [Kw("DELETE"), Kw("FROM"), Id(t)] + (PrintWhere(conditions) + [End])
  }

  // ---- Parsing: each function reads a prefix and returns the rest ----

  type Parsed<T> = Option<(T, seq<Sym>)>

  predicate Starts(ss: seq<Sym>, sym: Sym) {
    |ss| > 0 && ss[0] == sym
  }

  /** Reads one fixed symbol. */
  function Expect(ss: seq<Sym>, sym: Sym): Option<seq<Sym>> {
    if Starts(ss, sym) then Some(ss[1..]) else None
  }

  function ParseId(ss: seq<Sym>): Parsed<string> {
    if |ss| > 0 && ss[0].Id? then Some((ss[0].v, ss[1..])) else None
  }

  function ParseLit(ss: seq<Sym>): Parsed<string> {
    if |ss| > 0 && ss[0].Lit? then Some((ss[0].v, ss[1..])) else None
  }

  function ParseOp(ss: seq<Sym>): Parsed<CompareOp> {
    if |ss| > 0 && ss[0].Opr? then
      match ss[0].v
      case "=" => Some((EQ, ss[1..]))
      case "!=" => Some((NE, ss[1..]))
      case "<" => Some((LT, ss[1..]))
      case "<=" => Some((LE, ss[1..]))
      case ">" => Some((GT, ss[1..]))
      case ">=" => Some((GE, ss[1..]))
      case _ => None
    else None
  }

  function ParseType(ss: seq<Sym>): Parsed<DataType> {
    if Starts(ss, Kw("INT")) then Some((INT, ss[1..]))
    else if Starts(ss, Kw("TEXT")) then Some((TEXT, ss[1..]))
    else None
  }

  function ParseDef(ss: seq<Sym>): Parsed<ColumnDef> {
    var (name, r) :- ParseId(ss);
    var (dataType, r') :- ParseType(r);
    Some((ColumnDef(name, dataType), r'))
  }

  function ParseAssignment(ss: seq<Sym>): Parsed<(string, string)> {
    var (column, r) :- ParseId(ss);
    var r' :- Expect(r, Opr("="));
    var (value, r'') :- ParseLit(r');
    Some(((column, value), r''))
  }

  function ParseClause(ss: seq<Sym>): Parsed<WhereClause> {
    var (column, r) :- ParseId(ss);
    var (op, r') :- ParseOp(r);
    var (value, r'') :- ParseLit(r');
    Some((WhereClause(column, op, value), r''))
  }

  /** One or more items; a separator always asks for another. */
  function ParseList<T>(item: seq<Sym> -> Parsed<T>, sep: Sym, ss: seq<Sym>): Parsed<seq<T>>
    decreases |ss|
  {
    var (x, r) :- item(ss);
    if Starts(r, sep) && |r| <= |ss| then
      var (xs, r') :- ParseList(item, sep, r[1..]);
      Some(([x] + xs, r'))
    else Some(([x], r))
  }

  function ParseWhere(ss: seq<Sym>): Parsed<seq<WhereClause>> {
    if Starts(ss, Kw("WHERE")) then ParseList(ParseClause, AND, ss[1..]) else Some(([], ss))
  }

  function ParseEnd<T>(ss: seq<Sym>, x: T): Option<T> {
    if ss == [End] then Some(x) else None
  }

  function ParseCreate(ss: seq<Sym>): Option<Statement> {
    var r :- Expect(ss, Kw("CREATE"));
    var r :- Expect(r, Kw("TABLE"));
    var (table, r) :- ParseId(r);
    var r :- Expect(r, Pun("("));
    var (defs, r) :- ParseList(ParseDef, COMMA, r);
    var r :- Expect(r, Pun(")"));
    ParseEnd(r, CreateTable(table, defs))
  }

  function ParseDrop(ss: seq<Sym>): Option<Statement> {
    var r :- Expect(ss, Kw("DROP"));
    var r :- Expect(r, Kw("TABLE"));
    var (table, r) :- ParseId(r);
    ParseEnd(r, DropTable(table))
  }

  function ParseValuesClause(ss: seq<Sym>): Option<seq<string>> {
    var r :- Expect(ss, Kw("VALUES"));
    var r :- Expect(r, Pun("("));
    var (values, r) :- ParseList(ParseLit, COMMA, r);
    var r :- Expect(r, Pun(")"));
    ParseEnd(r, values)
  }

  function ParseInsert(ss: seq<Sym>): Option<Statement> {
    var r :- Expect(ss, Kw("INSERT"));
    var r :- Expect(r, Kw("INTO"));
    var (table, r) :- ParseId(r);
    var r :- Expect(r, Pun("("));
    var (columns, r) :- ParseList(ParseId, COMMA, r);
    var r :- Expect(r, Pun(")"));
    var values :- ParseValuesClause(r);
    if |columns| == |values| then Some(Insert(table, columns, values)) else None
  }

  function ParseColumns(ss: seq<Sym>): Parsed<seq<string>> {
    if Starts(ss, Pun("*")) then Some(([], ss[1..])) else ParseList(ParseId, COMMA, ss)
  }

  function ParseSelect(ss: seq<Sym>): Option<Statement> {
    var r :- Expect(ss, Kw("SELECT"));
    var (columns, r) :- ParseColumns(r);
    var r :- Expect(r, Kw("FROM"));
    var (table, r) :- ParseId(r);
    var (conditions, r) :- ParseWhere(r);
    ParseEnd(r, Select(table, columns, conditions))
  }

  function ParseUpdate(ss: seq<Sym>): Option<Statement> {
    var r :- Expect(ss, Kw("UPDATE"));
    var (table, r) :- ParseId(r);
    var r :- Expect(r, Kw("SET"));
    var (assignments, r) :- ParseList(ParseAssignment, COMMA, r);
    var (conditions, r) :- ParseWhere(r);
    ParseEnd(r, Update(table, assignments, conditions))
  }

  function ParseDelete(ss: seq<Sym>): Option<Statement> {
    var r :- Expect(ss, Kw("DELETE"));
    var r :- Expect(r, Kw("FROM"));
    var (table, r) :- ParseId(r);
    var (conditions, r) :- ParseWhere(r);
    ParseEnd(r, Delete(table, conditions))
  }

  /** A statement is chosen by its first keyword. */
  function Parse(ss: seq<Sym>): Option<Statement> {
    if Starts(ss, Kw("CREATE")) then ParseCreate(ss)
    else if Starts(ss, Kw("DROP")) then ParseDrop(ss)
    else if Starts(ss, Kw("INSERT")) then ParseInsert(ss)
    else if Starts(ss, Kw("SELECT")) then ParseSelect(ss)
    else if Starts(ss, Kw("UPDATE")) then ParseUpdate(ss)
    else if Starts(ss, Kw("DELETE")) then ParseDelete(ss)
    else None
  }

  // ---- Lists: printing and parsing are inverse ----

  /** An item parser that undoes an item printer, and accepts nothing else. */
  ghost predicate Inverse<T(!new)>(print1: T -> seq<Sym>, item: seq<Sym> -> Parsed<T>) {
    && (forall x, rest :: item(print1(x) + rest) == Some((x, rest)))
    && (forall ss :: item(ss).Some? ==> ss == print1(item(ss).value.0) + item(ss).value.1)
  }

  lemma {:induction false} ListForward<T(!new)>(print1: T -> seq<Sym>, item: seq<Sym> -> Parsed<T>,
                                                sep: Sym, xs: seq<T>, rest: seq<Sym>)
    requires Inverse(print1, item) && |xs| > 0 && !Starts(rest, sep)
    ensures ParseList(item, sep, PrintList(print1, sep, xs) + rest) == Some((xs, rest))
  {
    if |xs| == 1 {
      assert item(print1(xs[0]) + rest) == Some((xs[0], rest));
      assert xs == [xs[0]];
    } else {
      var more := PrintList(print1, sep, xs[1..]) + rest;
      assert PrintList(print1, sep, xs) + rest == print1(xs[0]) + ([sep] + more);
      assert item(print1(xs[0]) + ([sep] + more)) == Some((xs[0], [sep] + more));
      assert ([sep] + more)[1..] == more;
      ListForward(print1, item, sep, xs[1..], rest);
      assert [xs[0]] + xs[1..] == xs;
    }
  }

  lemma PrintCons<T>(print1: T -> seq<Sym>, sep: Sym, x: T, xs: seq<T>)
    ensures PrintList(print1, sep, [x] + xs)
         == if |xs| == 0 then print1(x) else print1(x) + ([sep] + PrintList(print1, sep, xs))
  {
    assert ([x] + xs)[1..] == xs;
  }

  lemma {:induction false} ListBackward<T(!new)>(print1: T -> seq<Sym>, item: seq<Sym> -> Parsed<T>,
                                                 sep: Sym, ss: seq<Sym>)
    requires Inverse(print1, item) && ParseList(item, sep, ss).Some?
    ensures var (xs, rest) := ParseList(item, sep, ss).value;
      |xs| > 0 && ss == PrintList(print1, sep, xs) + rest && !Starts(rest, sep)
    decreases |ss|
  {
    hide PrintList;
    var (x, r) := item(ss).value;
    assert ss == print1(x) + r;
    hide Inverse;
    if Starts(r, sep) {
      ListBackward(print1, item, sep, r[1..]);
      var (xs, rest) := ParseList(item, sep, r[1..]).value;
      PrintCons(print1, sep, x, xs);
      SepJoins(print1(x), sep, r, PrintList(print1, sep, xs), rest);
    } else {
      PrintCons(print1, sep, x, []);
      assert [x] + [] == [x];
    }
  }

  lemma SepJoins(first: seq<Sym>, sep: Sym, r: seq<Sym>, more: seq<Sym>, rest: seq<Sym>)
    requires Starts(r, sep) && r[1..] == more + rest
    ensures first + r == first + ([sep] + more) + rest
  {
    assert r == [sep] + (more + rest);
  }

  lemma IdInverse()
    ensures Inverse(PrintId, ParseId)
  {
    assert forall x: string, rest: seq<Sym> :: (PrintId(x) + rest)[1..] == rest;
  }

  lemma LitInverse()
    ensures Inverse(PrintLit, ParseLit)
  {
    assert forall x: string, rest: seq<Sym> :: (PrintLit(x) + rest)[1..] == rest;
  }

  lemma DefInverse()
    ensures Inverse(PrintDef, ParseDef)
  {
    forall x: ColumnDef, rest: seq<Sym> ensures ParseDef(PrintDef(x) + rest) == Some((x, rest)) {
      assert (PrintDef(x) + rest)[1..] == [Kw(TypeText(x.dataType))] + rest;
      assert ([Kw(TypeText(x.dataType))] + rest)[1..] == rest;
    }
    forall ss: seq<Sym> | ParseDef(ss).Some? ensures ss == PrintDef(ParseDef(ss).value.0) + ParseDef(ss).value.1 {
      assert ss[1..][1..] == ss[2..];
      assert ss == [ss[0], ss[1]] + ss[2..];
    }
  }

  lemma AssignmentInverse()
    ensures Inverse(PrintAssignment, ParseAssignment)
  {
    forall x: (string, string), rest: seq<Sym> ensures ParseAssignment(PrintAssignment(x) + rest) == Some((x, rest)) {
      assert (PrintAssignment(x) + rest)[1..] == [Opr("="), Lit(x.1)] + rest;
      assert ([Opr("="), Lit(x.1)] + rest)[1..] == [Lit(x.1)] + rest;
      assert ([Lit(x.1)] + rest)[1..] == rest;
    }
    forall ss: seq<Sym> | ParseAssignment(ss).Some?
      ensures ss == PrintAssignment(ParseAssignment(ss).value.0) + ParseAssignment(ss).value.1
    {
      assert ss[1..][1..][1..] == ss[3..];
      assert ss == [ss[0], ss[1], ss[2]] + ss[3..];
    }
  }

  lemma OpInverse(op: CompareOp, rest: seq<Sym>)
    ensures ParseOp([Opr(OpText(op))] + rest) == Some((op, rest))
  {
    assert ([Opr(OpText(op))] + rest)[1..] == rest;
  }

  lemma ClauseInverse()
    ensures Inverse(PrintClause, ParseClause)
  {
    forall x: WhereClause, rest: seq<Sym> ensures ParseClause(PrintClause(x) + rest) == Some((x, rest)) {
      var tail := [Lit(x.value)] + rest;
      assert (PrintClause(x) + rest)[1..] == [Opr(OpText(x.op))] + tail;
      OpInverse(x.op, tail);
      assert tail[1..] == rest;
    }
    forall ss: seq<Sym> | ParseClause(ss).Some?
      ensures ss == PrintClause(ParseClause(ss).value.0) + ParseClause(ss).value.1
    {
      assert ss[1..][1..][1..] == ss[3..];
      assert ss == [ss[0], ss[1], ss[2]] + ss[3..];
    }
  }

  // ---- Statements: parsing is the inverse of printing ----

  lemma WhereForward(conditions: seq<WhereClause>)
    ensures ParseWhere(PrintWhere(conditions) + [End]) == Some((conditions, [End]))
  {
    if |conditions| > 0 {
      ClauseInverse();
      var list := PrintList(PrintClause, AND, conditions) + [End];
      assert PrintWhere(conditions) + [End] == [Kw("WHERE")] + list;
      assert ([Kw("WHERE")] + list)[1..] == list;
      ListForward(PrintClause, ParseClause, AND, conditions, [End]);
    } else {
      assert conditions == [] && PrintWhere(conditions) + [End] == [End];
    }
  }

  lemma WhereBackward(ss: seq<Sym>)
    requires ParseWhere(ss).Some? && ParseWhere(ss).value.1 == [End]
    ensures ss == PrintWhere(ParseWhere(ss).value.0) + [End]
  {
    if Starts(ss, Kw("WHERE")) {
      ClauseInverse();
      ListBackward(PrintClause, ParseClause, AND, ss[1..]);
      assert ss == [Kw("WHERE")] + ss[1..];
    }
  }

  lemma CreateForward(t: string, defs: seq<ColumnDef>)
    requires |defs| > 0
    ensures ParseCreate(Print(CreateTable(t, defs))) == Some(CreateTable(t, defs))
  {
    hide PrintList, ParseList, Inverse;
    var list := PrintList(PrintDef, COMMA, defs) + [Pun(")"), End];
    var ss := Print(CreateTable(t, defs));
    assert ss[1..][1..][1..][1..] == list;
    DefInverse();
    ListForward(PrintDef, ParseDef, COMMA, defs, [Pun(")"), End]);
  }

  lemma CreateBackward(ss: seq<Sym>)
    requires ParseCreate(ss).Some?
    ensures WellFormed(ParseCreate(ss).value) && ss == Print(ParseCreate(ss).value)
  {
    hide PrintList, ParseList, Inverse;
    var list := ss[1..][1..][1..][1..];
    assert ss == [ss[0], ss[1], ss[2], ss[3]] + list;
    DefInverse();
    ListBackward(PrintDef, ParseDef, COMMA, list);
    var (defs, rest) := ParseList(ParseDef, COMMA, list).value;
    assert rest == [Pun(")")] + rest[1..] == [Pun(")"), End];
  }

  lemma InsertForward(t: string, columns: seq<string>, values: seq<string>)
    requires 0 < |columns| == |values|
    ensures ParseInsert(Print(Insert(t, columns, values))) == Some(Insert(t, columns, values))
  {
    hide PrintList, ParseList, Inverse;
    var end := [Pun(")"), End];
    var second := PrintList(PrintLit, COMMA, values) + end;
    var middle := [Pun(")"), Kw("VALUES"), Pun("(")] + second;
    var first := PrintList(PrintId, COMMA, columns) + middle;
    assert Print(Insert(t, columns, values))[1..][1..][1..][1..] == first;
    assert middle[1..][1..][1..] == second;
    IdInverse();
    LitInverse();
    ListForward(PrintId, ParseId, COMMA, columns, middle);
    ListForward(PrintLit, ParseLit, COMMA, values, end);
  }

  lemma InsertBackward(ss: seq<Sym>)
    requires ParseInsert(ss).Some?
    ensures WellFormed(ParseInsert(ss).value) && ss == Print(ParseInsert(ss).value)
  {
    hide PrintList, ParseList, Inverse;
    var first := ss[1..][1..][1..][1..];
    assert ss == [ss[0], ss[1], ss[2], ss[3]] + first;
    IdInverse();
    LitInverse();
    ListBackward(PrintId, ParseId, COMMA, first);
    var middle := ParseList(ParseId, COMMA, first).value.1;
    var second := middle[1..][1..][1..];
    assert middle == [middle[0], middle[1], middle[2]] + second;
    ListBackward(PrintLit, ParseLit, COMMA, second);
    var end := ParseList(ParseLit, COMMA, second).value.1;
    assert end == [Pun(")")] + end[1..] == [Pun(")"), End];
  }

  lemma ColumnsForward(columns: seq<string>, rest: seq<Sym>)
    requires !Starts(rest, COMMA)
    ensures ParseColumns((if |columns| == 0 then [Pun("*")] else PrintList(PrintId, COMMA, columns)) + rest)
    == Some((columns, rest))
  {
    if |columns| == 0 {
      assert ([Pun("*")] + rest)[1..] == rest;
    } else {
      IdInverse();
      ListForward(PrintId, ParseId, COMMA, columns, rest);
    }
  }

  lemma ColumnsBackward(ss: seq<Sym>)
    requires ParseColumns(ss).Some?
    ensures var (columns, rest) := ParseColumns(ss).value;
      ss == (if |columns| == 0 then [Pun("*")] else PrintList(PrintId, COMMA, columns)) + rest
  {
    if Starts(ss, Pun("*")) {
      assert ss == [Pun("*")] + ss[1..];
    } else {
      IdInverse();
      ListBackward(PrintId, ParseId, COMMA, ss);
    }
  }

  lemma SelectForward(t: string, columns: seq<string>, conditions: seq<WhereClause>)
    ensures ParseSelect(Print(Select(t, columns, conditions))) == Some(Select(t, columns, conditions))
  {
    hide ParseColumns, ParseWhere, PrintWhere, PrintList;
    var tail := PrintWhere(conditions) + [End];
    var from := [Kw("FROM"), Id(t)] + tail;
    var list := (if |columns| == 0 then [Pun("*")] else PrintList(PrintId, COMMA, columns)) + from;
    assert Print(Select(t, columns, conditions))[1..] == list;
    assert from[1..][1..] == tail;
    ColumnsForward(columns, from);
    WhereForward(conditions);
  }

  lemma SelectBackward(ss: seq<Sym>)
    requires ParseSelect(ss).Some?
    ensures ss == Print(ParseSelect(ss).value)
  {
    hide ParseColumns, ParseWhere, PrintWhere, PrintList;
    assert ss == [ss[0]] + ss[1..];
    ColumnsBackward(ss[1..]);
    var from := ParseColumns(ss[1..]).value.1;
    assert from == [from[0], from[1]] + from[1..][1..];
    WhereBackward(from[1..][1..]);
  }

  lemma UpdateForward(t: string, assignments: seq<(string, string)>, conditions: seq<WhereClause>)
    requires |assignments| > 0
    ensures ParseUpdate(Print(Update(t, assignments, conditions))) == Some(Update(t, assignments, conditions))
  {
    hide ParseWhere, PrintList, ParseList, Inverse;
    var tail := PrintWhere(conditions) + [End];
    var list := PrintList(PrintAssignment, COMMA, assignments) + tail;
    assert Print(Update(t, assignments, conditions))[1..][1..][1..] == list;
    assert !Starts(tail, COMMA);
    AssignmentInverse();
    ListForward(PrintAssignment, ParseAssignment, COMMA, assignments, tail);
    WhereForward(conditions);
  }

  lemma UpdateBackward(ss: seq<Sym>)
    requires ParseUpdate(ss).Some?
    ensures WellFormed(ParseUpdate(ss).value) && ss == Print(ParseUpdate(ss).value)
  {
    hide ParseWhere, PrintWhere, PrintList, ParseList, Inverse;
    var list := ss[1..][1..][1..];
    assert ss == [ss[0], ss[1], ss[2]] + list;
    AssignmentInverse();
    ListBackward(PrintAssignment, ParseAssignment, COMMA, list);
    WhereBackward(ParseList(ParseAssignment, COMMA, list).value.1);
  }

  lemma DeleteForward(t: string, conditions: seq<WhereClause>)
    ensures ParseDelete(Print(Delete(t, conditions))) == Some(Delete(t, conditions))
  {
    hide ParseWhere, PrintWhere;
    assert Print(Delete(t, conditions))[1..][1..][1..] == PrintWhere(conditions) + [End];
    WhereForward(conditions);
  }

  lemma DeleteBackward(ss: seq<Sym>)
    requires ParseDelete(ss).Some?
    ensures ss == Print(ParseDelete(ss).value)
  {
    hide ParseWhere, PrintWhere;
    assert ss == [ss[0], ss[1], ss[2]] + ss[1..][1..][1..];
    WhereBackward(ss[1..][1..][1..]);
  }

  lemma DropRoundTrip(ss: seq<Sym>, t: string)
    ensures ParseDrop(Print(DropTable(t))) == Some(DropTable(t))
    ensures ParseDrop(ss).Some? ==> ss == Print(ParseDrop(ss).value)
  {
    assert Print(DropTable(t))[1..][1..][1..] == [End];
    if ParseDrop(ss).Some? {
      assert ss == [ss[0], ss[1], ss[2]] + ss[1..][1..][1..];
    }
  }

  /** Parsing what a statement prints gives the statement back. */
  lemma ParsePrint(s: Statement)
    requires WellFormed(s)
    ensures Parse(Print(s)) == Some(s)
  {
    hide ParseCreate, ParseDrop, ParseInsert, ParseSelect, ParseUpdate, ParseDelete, PrintList, PrintWhere;
    match s
    case CreateTable(t, defs) => CreateForward(t, defs);
    case DropTable(t) => DropRoundTrip([], t);
    case Insert(t, columns, values) => InsertForward(t, columns, values);
    case Select(t, columns, conditions) => SelectForward(t, columns, conditions);
    case Update(t, assignments, conditions) => UpdateForward(t, assignments, conditions);
    case Delete(t, conditions) => DeleteForward(t, conditions);
  }

  /** Whatever is accepted is the printed form of the result: the parser skips and invents nothing. */
  lemma PrintParse(ss: seq<Sym>)
    requires Parse(ss).Some?
    ensures WellFormed(Parse(ss).value) && Print(Parse(ss).value) == ss
  {
    hide ParseCreate, ParseDrop, ParseInsert, ParseSelect, ParseUpdate, ParseDelete, Print;
    if Starts(ss, Kw("CREATE")) {
      CreateBackward(ss);
    } else if Starts(ss, Kw("DROP")) {
      DropIsDrop(ss);
      DropRoundTrip(ss, "");
    } else if Starts(ss, Kw("INSERT")) {
      InsertBackward(ss);
    } else if Starts(ss, Kw("SELECT")) {
      SelectIsSelect(ss);
      SelectBackward(ss);
    } else if Starts(ss, Kw("UPDATE")) {
      UpdateBackward(ss);
    } else {
      DeleteIsDelete(ss);
      DeleteBackward(ss);
    }
  }

  lemma DropIsDrop(ss: seq<Sym>)
    ensures ParseDrop(ss).Some? ==> ParseDrop(ss).value.DropTable?
  {
  }

  lemma SelectIsSelect(ss: seq<Sym>)
    ensures ParseSelect(ss).Some? ==> ParseSelect(ss).value.Select?
  {
  }

  lemma DeleteIsDelete(ss: seq<Sym>)
    ensures ParseDelete(ss).Some? ==> ParseDelete(ss).value.Delete?
  {
  }
}
