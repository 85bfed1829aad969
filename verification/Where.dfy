/** WHERE clauses: what they mean, and the predicates they compile to. */
module Where {
  import opened Options
  import opened Rows
  import opened Tables
  import opened Ast

  // ---- Meaning ----

  predicate IntsRelate(op: CompareOp, a: int, b: int) {
    match op
    case EQ => a == b
    case NE => a != b
    case LT => a < b
    case LE => a <= b
    case GT => a > b
    case GE => a >= b
  }

  /** Dictionary order by first difference: a proper prefix comes first. */
  ghost predicate Before(a: string, b: string) {
    exists k :: 0 <= k <= |a| && k < |b| && a[..k] == b[..k] && (k == |a| || a[k] < b[k])
  }

  ghost predicate TextsRelate(op: CompareOp, a: string, b: string) {
    match op
    case EQ => a == b
    case NE => a != b
    case LT => Before(a, b)
    case LE => Before(a, b) || a == b
    case GT => Before(b, a)
    case GE => Before(b, a) || a == b
  }

  /** A clause is legal when its column exists and its literal suits the column's type. */
  predicate ClauseOk(schema: Schema, clause: WhereClause) {
    var column := FindColumn(schema, clause.column);
    column.Some? && IsValidValueFor(column.value.dataType, clause.value)
  }

  /** Legality said without parsing. */
  lemma ClauseOkExactly(schema: Schema, clause: WhereClause)
    requires UniqueNames(schema.columns)
    ensures ClauseOk(schema, clause) <==>
      exists c :: c in schema.columns && c.name == clause.column && Suits(c.dataType, clause.value)
  {
    LegalExactly(schema, clause.column, clause.value);
  }

  ghost predicate ClauseHolds(schema: Schema, clause: WhereClause, row: Row)
    requires ClauseOk(schema, clause)
  {
    match (FindColumn(schema, clause.column).value.dataType, Cell(row, clause.column))
    case (INT, Some(IntValue(n))) => IntsRelate(clause.op, n, ParseInt64(clause.value).value)
    case (TEXT, Some(TextValue(s))) => TextsRelate(clause.op, s, clause.value)
    case _ => false
  }

  predicate AllOk(schema: Schema, conditions: seq<WhereClause>) {
    forall i :: 0 <= i < |conditions| ==> ClauseOk(schema, conditions[i])
  }

  ghost predicate AllHold(schema: Schema, conditions: seq<WhereClause>, row: Row)
    requires AllOk(schema, conditions)
  {
    forall i :: 0 <= i < |conditions| ==> ClauseHolds(schema, conditions[i], row)
  }

  /** The whole conjunction as one row predicate; an empty list filters nothing. */
  ghost function Condition(schema: Schema, conditions: seq<WhereClause>): Predicate
    requires AllOk(schema, conditions)
  {
    (row: Row) => AllHold(schema, conditions, row)
  }

  // ---- Compilation ----

  function ApplyOp(op: CompareOp, cmp: int): bool {
    match op
    case EQ => cmp == 0
    case NE => cmp != 0
    case LT => cmp < 0
    case LE => cmp <= 0
    case GT => cmp > 0
    case GE => cmp >= 0
  }

  /** `std::string::compare`, reduced to its sign. */
  function CompareText(a: string, b: string): int {
    if |a| == 0 && |b| == 0 then 0
    else if |a| == 0 then -1
    else if |b| == 0 then 1
    else if a[0] < b[0] then -1
    else if a[0] > b[0] then 1
    else CompareText(a[1..], b[1..])
  }

  lemma {:induction false} CompareTextSign(a: string, b: string)
    ensures CompareText(a, b) < 0 <==> Before(a, b)
    ensures CompareText(a, b) > 0 <==> Before(b, a)
    ensures CompareText(a, b) == 0 <==> a == b
  {
    if |a| == 0 || |b| == 0 || a[0] != b[0] {
      BeforeHead(a, b);
      BeforeHead(b, a);
    } else {
      CompareTextSign(a[1..], b[1..]);
      BeforeTail(a, b);
      BeforeTail(b, a);
      assert a == [a[0]] + a[1..] && b == [b[0]] + b[1..];
    }
  }

  lemma BeforeHead(a: string, b: string)
    requires |a| == 0 || |b| == 0 || a[0] != b[0]
    ensures Before(a, b) <==> |b| > 0 && (|a| == 0 || a[0] < b[0])
  {
    if |b| > 0 && (|a| == 0 || a[0] < b[0]) {
      assert a[..0] == b[..0];
    }
    if Before(a, b) {
      var k :| 0 <= k <= |a| && k < |b| && a[..k] == b[..k] && (k == |a| || a[k] < b[k]);
      if k > 0 {
        assert a[..k][0] == b[..k][0];
      }
    }
  }

  lemma BeforeTail(a: string, b: string)
    requires |a| > 0 && |b| > 0 && a[0] == b[0]
    ensures Before(a, b) <==> Before(a[1..], b[1..])
  {
    if Before(a, b) {
      var k :| 0 <= k <= |a| && k < |b| && a[..k] == b[..k] && (k == |a| || a[k] < b[k]);
      SameTail(a, b, k);
    }
    if Before(a[1..], b[1..]) {
      var k :| 0 <= k <= |a[1..]| && k < |b[1..]| && a[1..][..k] == b[1..][..k]
        && (k == |a[1..]| || a[1..][k] < b[1..][k]);
      SameTail(a, b, k + 1);
    }
  }

  lemma SameTail(a: string, b: string, k: nat)
    requires 0 < k <= |a| && k <= |b| && a[0] == b[0]
    ensures a[..k] == b[..k] <==> a[1..][..k - 1] == b[1..][..k - 1]
  {
    assert a[1..][..k - 1] == a[..k][1..] && b[1..][..k - 1] == b[..k][1..];
    assert a[..k] == [a[0]] + a[..k][1..] && b[..k] == [b[0]] + b[..k][1..];
  }

  /** Compiles a clause; `None` stands for the query error on an unknown column or an ill-typed literal. */
  method MakePredicate(schema: Schema, clause: WhereClause) returns (p: Option<Predicate>)
    ensures p.Some? <==> ClauseOk(schema, clause)
    ensures p.Some? ==> forall row :: p.value(row) <==> ClauseHolds(schema, clause, row)
  {
    var column := FindColumn(schema, clause.column);
    if column.None? || !IsValidValueFor(column.value.dataType, clause.value) {
      return None;
    }
    var name, op := clause.column, clause.op;
    if column.value.dataType == INT {
      var expected := ParseInt64(clause.value).value;
      var test: Predicate := (row: Row) => TestInt(row, name, expected, op);
      return Some(test);
    }
    var literal := clause.value;
    var test: Predicate := (row: Row) => TestText(row, name, literal, op);
    forall row ensures test(row) <==> ClauseHolds(schema, clause, row) {
      TestTextMeaning(row, name, literal, op);
    }
    return Some(test);
  }

  predicate TestInt(row: Row, name: string, expected: int, op: CompareOp) {
    match Cell(row, name)
    case Some(IntValue(actual)) => ApplyOp(op, if actual < expected then -1 else if actual > expected then 1 else 0)
    case _ => false
  }

  predicate TestText(row: Row, name: string, literal: string, op: CompareOp) {
    match Cell(row, name)
    case Some(TextValue(s)) => ApplyOp(op, CompareText(s, literal))
    case _ => false
  }

  lemma TestTextMeaning(row: Row, name: string, literal: string, op: CompareOp)
    ensures TestText(row, name, literal, op) <==>
      match Cell(row, name)
      case Some(TextValue(s)) => TextsRelate(op, s, literal)
      case _ => false
  {
    match Cell(row, name)
    case Some(TextValue(s)) => CompareTextSign(s, literal);
    case _ =>
  }

  /** On a row a table may hold, a legal clause always finds a cell of its column's type, so no test can throw. */
  lemma CellPresent(schema: Schema, clause: WhereClause, row: Row)
    requires row.schema == schema && Complete(row) && ClauseOk(schema, clause)
    ensures Cell(row, clause.column).Some?
    ensures HasType(Cell(row, clause.column).value, FindColumn(schema, clause.column).value.dataType)
  {
  }

  /** AND-combines every clause, checking all of them first. */
  method MakeConjunction(schema: Schema, conditions: seq<WhereClause>) returns (p: Option<Predicate>)
    ensures p.Some? <==> AllOk(schema, conditions)
    ensures p.Some? ==> forall row :: p.value(row) <==> AllHold(schema, conditions, row)
  {
    var predicates: seq<Predicate> := [];
    for i := 0 to |conditions|
      invariant |predicates| == i && AllOk(schema, conditions[..i])
      invariant forall k :: 0 <= k < i ==> ClauseOk(schema, conditions[k])
      invariant forall k, row :: 0 <= k < i ==> (predicates[k](row) <==> ClauseHolds(schema, conditions[k], row))
    {
      var one := MakePredicate(schema, conditions[i]);
      if one.None? {
        return None;
      }
      predicates := predicates + [one.value];
    }
    var all: Predicate := (row: Row) => forall k :: 0 <= k < |predicates| ==> predicates[k](row);
    return Some(all);
  }

  // ---- An update is found by its own literals ----

  /** A row that went through checked assignments satisfies `column = literal` for the last literal each column got. */
  lemma UpdateIsFound(schema: Schema, id: int, row: Row, assignments: seq<(string, string)>, column: string)
    requires Filed(schema, id, row) && AllAssignable(schema, assignments) && LastAssigned(assignments, column).Some?
    ensures var clause := WhereClause(column, EQ, LastAssigned(assignments, column).value);
      ClauseOk(schema, clause) && ClauseHolds(schema, clause, Changed(row, assignments))
  {
    hide ParseInt64, Spells, Filed, AllAssignable, ColumnIndex;
    ChangedFiled(schema, id, row, assignments);
    assert row.schema == schema by { FiledSchema(schema, id, row); }
    AssignedEffect(schema, row, assignments, column);
    var v := LastAssigned(assignments, column).value;
    LastIsAssignable(schema, assignments, column);
    match Cell(Changed(row, assignments), column)
    case Some(IntValue(n)) => ParseExactly(v, n);
    case _ =>
  }

  lemma FiledSchema(schema: Schema, id: int, row: Row)
    requires Filed(schema, id, row)
    ensures row.schema == schema
  {
  }

  lemma {:induction false} LastIsAssignable(schema: Schema, assignments: seq<(string, string)>, column: string)
    requires AllAssignable(schema, assignments) && LastAssigned(assignments, column).Some?
    ensures Assignable(schema, (column, LastAssigned(assignments, column).value))
    decreases |assignments|
  {
    if LastAssigned(assignments[1..], column).Some? {
      LastIsAssignable(schema, assignments[1..], column);
    }
  }
}
