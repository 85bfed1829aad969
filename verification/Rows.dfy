/** Schemas, typed rows, and the 64-bit integer literals their INT cells hold. */
module Rows {
  import opened Options

  const INT64_MIN: int := -0x8000_0000_0000_0000
  const INT64_MAX: int := 0x7FFF_FFFF_FFFF_FFFF
  const ID: string := "id"

  predicate IsInt64(n: int) {
    INT64_MIN <= n <= INT64_MAX
  }

  // ---- Integer literals ----

  predicate IsDigit(c: char) {
    '0' <= c <= '9'
  }

  function Digits(s: string): Option<nat> {
    if |s| == 0 then Some(0)
    else
      var last := s[|s| - 1];
      match Digits(s[..|s| - 1])
      case None => None
      case Some(n) => if IsDigit(last) then Some(10 * n + (last as nat - '0' as nat)) else None
  }

  /** `std::from_chars` consuming a whole literal: an optional minus, at least one digit, in range. */
  function ParseInt64(s: string): (r: Option<int>)
    ensures r.Some? ==> IsInt64(r.value)
  {
    var negative := |s| > 0 && s[0] == '-';
    var body := if negative then s[1..] else s;
    if |body| == 0 then None
    else
      match Digits(body)
      case None => None
      case Some(n) =>
        var v: int := if negative then 0 - n as int else n as int;
        if IsInt64(v) then Some(v) else None
  }

  /** The decimal digits of a number, without leading zeros. */
  function Decimal(n: nat): string {
    if n < 10 then [DigitChar(n)] else Decimal(n / 10) + [DigitChar(n % 10)]
  }

  function DigitChar(d: nat): char
    requires d < 10
  {
    "0123456789"[d]
  }

  function Zeros(k: nat): string {
    seq(k, _ => '0')
  }

  /** A text that spells an integer: leading zeros are allowed, a plus sign is not, and zero may carry a minus. */
  ghost predicate Spells(s: string, n: int) {
    exists k :: SpellsWith(s, n, k)
  }

  ghost predicate SpellsWith(s: string, n: int, k: nat) {
    (n >= 0 && s == Zeros(k) + Decimal(n)) || (n <= 0 && s == "-" + (Zeros(k) + Decimal(-n)))
  }

  lemma DigitValue(d: nat)
    requires d < 10
    ensures IsDigit(DigitChar(d)) && DigitChar(d) as nat - '0' as nat == d
  {
  }

  lemma DigitOf(c: char) returns (d: nat)
    requires IsDigit(c)
    ensures d < 10 && c == DigitChar(d)
  {
    d := c as nat - '0' as nat;
  }

  lemma DigitsLast(s: string, d: nat)
    requires d < 10
    ensures Digits(s + [DigitChar(d)]) == match Digits(s) case None => None case Some(n) => Some(10 * n + d)
  {
    DigitValue(d);
    assert (s + [DigitChar(d)])[..|s|] == s;
  }

  lemma {:induction false} DigitsOfZeros(k: nat)
    ensures Digits(Zeros(k)) == Some(0)
  {
    if k > 0 {
      DigitsOfZeros(k - 1);
      assert Zeros(k) == Zeros(k - 1) + [DigitChar(0)];
      DigitsLast(Zeros(k - 1), 0);
    }
  }

  lemma {:induction false} DigitsOfDecimal(k: nat, n: nat)
    ensures Digits(Zeros(k) + Decimal(n)) == Some(n)
    decreases n
  {
    hide Digits;
    if n < 10 {
      DigitsOfZeros(k);
      DigitsLast(Zeros(k), n);
    } else {
      DigitsOfDecimal(k, n / 10);
      assert Zeros(k) + Decimal(n) == Zeros(k) + Decimal(n / 10) + [DigitChar(n % 10)];
      DigitsLast(Zeros(k) + Decimal(n / 10), n % 10);
    }
  }

  lemma DecimalLonger(n: nat, d: nat)
    requires n > 0 && d < 10
    ensures Decimal(10 * n + d) == Decimal(n) + [DigitChar(d)]
  {
    assert (10 * n + d) / 10 == n && (10 * n + d) % 10 == d;
  }

  lemma ZerosMore(k: nat)
    ensures Zeros(0) == "" && Zeros(k) + Decimal(0) == Zeros(k + 1)
  {
  }

  lemma DecimalDigit(d: nat)
    requires d < 10
    ensures Decimal(d) == [DigitChar(d)]
  {
  }

  lemma DigitsInit(s: string) returns (d: nat)
    requires |s| > 0 && Digits(s).Some?
    ensures Digits(s[..|s| - 1]).Some? && d < 10 && s == s[..|s| - 1] + [DigitChar(d)]
    ensures Digits(s).value == 10 * Digits(s[..|s| - 1]).value + d
    ensures |s| == 1 ==> Digits(s[..|s| - 1]).value == 0
  {
    d := DigitOf(s[|s| - 1]);
    DigitValue(d);
  }

  lemma {:induction false} DigitsAreDecimal(s: string) returns (k: nat)
    requires |s| > 0 && Digits(s).Some?
    ensures s == Zeros(k) + Decimal(Digits(s).value)
  {
    hide Digits, Decimal, Zeros, DigitChar;
    var d := DigitsInit(s);
    var rest := s[..|s| - 1];
    DecimalDigit(d);
    if |rest| == 0 {
      k := 0;
      ZerosMore(0);
      assert s == "" + [DigitChar(d)];
    } else {
      k := DigitsAreDecimal(rest);
      var n := Digits(rest).value;
      if n == 0 {
        ZerosMore(k);
        k := k + 1;
      } else {
        DecimalLonger(n, d);
        Joined(Zeros(k), Decimal(n), [DigitChar(d)]);
      }
    }
  }

  lemma Joined(a: string, b: string, c: string)
    ensures a + b + c == a + (b + c)
  {
  }

  lemma NoSign(k: nat, n: nat)
    ensures |Zeros(k) + Decimal(n)| > 0 && (Zeros(k) + Decimal(n))[0] != '-'
  {
    DecimalHead(n);
  }

  lemma {:induction false} DecimalHead(n: nat)
    ensures |Decimal(n)| > 0 && IsDigit(Decimal(n)[0])
  {
    if n >= 10 {
      DecimalHead(n / 10);
    }
  }

  lemma ParseSpelled(s: string, n: int, k: nat)
    requires SpellsWith(s, n, k) && IsInt64(n)
    ensures ParseInt64(s) == Some(n)
  {
    hide Digits, Decimal;
    var m: nat := if n < 0 then -n else n;
    DigitsOfDecimal(k, m);
    NoSign(k, m);
    hide Zeros;
    assert ("-" + (Zeros(k) + Decimal(m)))[1..] == Zeros(k) + Decimal(m);
  }

  lemma ParsedIsSpelled(s: string)
    requires ParseInt64(s).Some?
    ensures Spells(s, ParseInt64(s).value)
  {
    hide Digits, Decimal, Zeros;
    var n := ParseInt64(s).value;
    if s[0] == '-' {
      var k := DigitsAreDecimal(s[1..]);
      assert s == "-" + s[1..];
      assert SpellsWith(s, n, k);
    } else {
      var k := DigitsAreDecimal(s);
      assert SpellsWith(s, n, k);
    }
  }

  /** A literal is read as an integer exactly when it spells that integer and the integer has 64 bits. */
  lemma ParseExactly(s: string, n: int)
    ensures ParseInt64(s) == Some(n) <==> Spells(s, n) && -9223372036854775808 <= n <= 9223372036854775807
  {
    hide ParseInt64;
    if Spells(s, n) && IsInt64(n) {
      var k :| SpellsWith(s, n, k);
      ParseSpelled(s, n, k);
    }
    if ParseInt64(s).Some? {
      ParsedIsSpelled(s);
    }
  }

  // ---- Schemas ----

  datatype DataType = INT | TEXT

  datatype Value = IntValue(n: int) | TextValue(s: string)

  datatype Column = Column(name: string, dataType: DataType)

  datatype Schema = Schema(columns: seq<Column>)

  ghost predicate UniqueNames(columns: seq<Column>) {
    forall i, j :: 0 <= i < j < |columns| ==> columns[i].name != columns[j].name
  }

  predicate IsValidValueFor(dataType: DataType, value: string) {
    dataType == TEXT || ParseInt64(value).Some?
  }

  /** Every text suits a TEXT column; an INT column takes exactly the texts that spell a 64-bit integer. */
  lemma SuitsExactly(value: string)
    ensures IsValidValueFor(TEXT, value)
    ensures IsValidValueFor(INT, value) <==> exists n :: IsInt64(n) && Spells(value, n)
  {
    hide ParseInt64, Spells;
    if IsValidValueFor(INT, value) {
      ParseExactly(value, ParseInt64(value).value);
    }
    if n :| IsInt64(n) && Spells(value, n) {
      ParseExactly(value, n);
    }
  }

  /** What a column of a type can hold, said without parsing. */
  ghost predicate Suits(dataType: DataType, value: string) {
    dataType == TEXT || exists n :: IsInt64(n) && Spells(value, n)
  }

  /** The first column with a name. */
  function ColumnIndex(columns: seq<Column>, name: string): (r: Option<nat>)
    ensures r.Some? ==> r.value < |columns| && columns[r.value].name == name
    ensures r.None? <==> forall i :: 0 <= i < |columns| ==> columns[i].name != name
  {
    if |columns| == 0 then None
    else if columns[0].name == name then Some(0)
    else
      match ColumnIndex(columns[1..], name)
      case Some(i) => assert columns[1..][i] == columns[i + 1]; Some(i + 1)
      case None => assert forall i :: 0 < i < |columns| ==> columns[i] == columns[1..][i - 1]; None
  }

  function FindColumn(schema: Schema, name: string): Option<Column> {
    match ColumnIndex(schema.columns, name)
    case Some(i) => Some(schema.columns[i])
    case None => None
  }

  lemma FindColumnExactly(schema: Schema, name: string, column: Column)
    requires UniqueNames(schema.columns)
    ensures FindColumn(schema, name) == Some(column) <==> column in schema.columns && column.name == name
  {
    if column in schema.columns && column.name == name {
      var i :| 0 <= i < |schema.columns| && schema.columns[i] == column;
      assert ColumnIndex(schema.columns, name) == Some(i);
    }
  }

  /** A literal for a named column is legal exactly when some column has the name and its type can hold the literal. */
  lemma LegalExactly(schema: Schema, name: string, value: string)
    requires UniqueNames(schema.columns)
    ensures FindColumn(schema, name).Some? && IsValidValueFor(FindColumn(schema, name).value.dataType, value)
         <==> exists column :: column in schema.columns && column.name == name && Suits(column.dataType, value)
  {
    hide FindColumn, IsValidValueFor, UniqueNames, Spells, IsInt64;
    SuitsExactly(value);
    if FindColumn(schema, name).Some? {
      FindColumnExactly(schema, name, FindColumn(schema, name).value);
    }
    if column :| column in schema.columns && column.name == name && Suits(column.dataType, value) {
      FindColumnExactly(schema, name, column);
    }
  }

  /** Appending a column with a new name leaves every other lookup as it was. */
  lemma Appended(columns: seq<Column>, column: Column)
    requires ColumnIndex(columns, column.name).None?
    ensures forall other ::
      ColumnIndex(columns + [column], other)
      == if other == column.name then Some(|columns|) else ColumnIndex(columns, other)
  {
    forall other {
      AppendedAt(columns, column, other);
    }
  }

  lemma {:induction false} AppendedAt(columns: seq<Column>, column: Column, name: string)
    requires ColumnIndex(columns, column.name).None?
    ensures ColumnIndex(columns + [column], name) ==
      if name == column.name then Some(|columns|) else ColumnIndex(columns, name)
  {
    if |columns| > 0 {
      assert (columns + [column])[1..] == columns[1..] + [column];
      AppendedAt(columns[1..], column, name);
    }
  }

  /** Appends a column unless its name is empty or taken. */
  function AddColumn(schema: Schema, name: string, dataType: DataType): (r: Option<Schema>)
    ensures r.Some? && UniqueNames(schema.columns) ==> UniqueNames(r.value.columns)
    ensures r.None? <==> name == "" || FindColumn(schema, name).Some?
    ensures r.Some? ==> forall other ::
      FindColumn(r.value, other) == if other == name then Some(Column(name, dataType)) else FindColumn(schema, other)
  {
    if name == "" || FindColumn(schema, name).Some? then None
    else
      Appended(schema.columns, Column(name, dataType));
      Some(Schema(schema.columns + [Column(name, dataType)]))
  }

  // ---- Rows ----

  datatype RowData = RowData(schema: Schema, values: seq<Option<Value>>)

  predicate HasType(value: Value, dataType: DataType) {
    match value
    case IntValue(n) => dataType == INT && IsInt64(n)
    case TextValue(_) => dataType == TEXT
  }

  /** What `Row`'s own methods maintain: one cell per column, each unset or of the column's type. */
  predicate WellTyped(row: RowData) {
    && |row.values| == |row.schema.columns|
    && forall i :: 0 <= i < |row.values| && row.values[i].Some? ==>
         HasType(row.values[i].value, row.schema.columns[i].dataType)
  }

  type Row = row: RowData | WellTyped(row) witness RowData(Schema([]), [])

  function ParseValue(dataType: DataType, value: string): (v: Value)
    requires IsValidValueFor(dataType, value)
    ensures HasType(v, dataType)
  {
    match dataType
    case INT => IntValue(ParseInt64(value).value)
    case TEXT => TextValue(value)
  }

  /** Assigns a cell; `None` stands for the exception on an unknown column or an ill-typed literal. */
  function SetCell(row: Row, column: string, value: string): (r: Option<Row>)
    ensures r.Some? ==> r.value.schema == row.schema
    ensures r.Some? <==> exists i :: ColumnIndex(row.schema.columns, column) == Some(i) && i < |row.values|
                                     && IsValidValueFor(row.schema.columns[i].dataType, value)
  {
    match ColumnIndex(row.schema.columns, column)
    case None => None
    case Some(i) =>
      var dataType := row.schema.columns[i].dataType;
      if !IsValidValueFor(dataType, value) then None
      else Some(row.(values := row.values[i := Some(ParseValue(dataType, value))]))
  }

  /** The typed cell; `None` stands for the exception on an unknown or unset column. */
  function Cell(row: Row, column: string): Option<Value> {
    match ColumnIndex(row.schema.columns, column)
    case None => None
    case Some(i) => row.values[i]
  }

  function GetInt(row: Row, column: string): Option<int> {
    match Cell(row, column)
    case Some(IntValue(n)) => Some(n)
    case _ => None
  }

  predicate Complete(row: Row) {
    forall i :: 0 <= i < |row.values| ==> row.values[i].Some?
  }

  /** `Schema::validate`: every column of the schema is set on the row. */
  predicate Validate(schema: Schema, row: Row) {
    forall i :: 0 <= i < |schema.columns| ==> Cell(row, schema.columns[i].name).Some?
  }

  /** A row over the schema's own columns passes validation exactly when no cell is unset. */
  lemma ValidateIsComplete(schema: Schema, row: Row)
    requires row.schema == schema && UniqueNames(schema.columns)
    ensures Validate(schema, row) <==> Complete(row)
  {
    forall i | 0 <= i < |schema.columns| ensures Cell(row, schema.columns[i].name) == row.values[i] {
      var j := ColumnIndex(schema.columns, schema.columns[i].name);
    }
  }

  // ---- Several assignments ----

  /** `column = value` pairs applied left to right. */
  function Assigned(row: Row, assignments: seq<(string, string)>): Option<Row>
    decreases |assignments|
  {
    if |assignments| == 0 then Some(row)
    else
      match SetCell(row, assignments[0].0, assignments[0].1)
      case None => None
      case Some(r) => Assigned(r, assignments[1..])
  }

  /** The literal the last assignment to a column gives it. */
  function LastAssigned(assignments: seq<(string, string)>, column: string): Option<string> {
    if |assignments| == 0 then None
    else
      match LastAssigned(assignments[1..], column)
      case Some(v) => Some(v)
      case None => if assignments[0].0 == column then Some(assignments[0].1) else None
  }

  /** What `updateWhere` checks before it touches a row. */
  predicate Assignable(schema: Schema, assignment: (string, string)) {
    && assignment.0 != ID
    && var column := FindColumn(schema, assignment.0);
       column.Some? && IsValidValueFor(column.value.dataType, assignment.1)
  }

  /** An assignment passes the check exactly when it names a column other than `id` whose type can hold its literal. */
  lemma AssignableExactly(schema: Schema, assignment: (string, string))
    requires UniqueNames(schema.columns)
    ensures Assignable(schema, assignment) <==>
      && assignment.0 != "id"
      && exists c :: c in schema.columns && c.name == assignment.0 && Suits(c.dataType, assignment.1)
  {
    LegalExactly(schema, assignment.0, assignment.1);
  }

  lemma {:induction false} LastAssignedExactly(assignments: seq<(string, string)>, column: string)
    ensures LastAssigned(assignments, column).None? <==>
      forall i :: 0 <= i < |assignments| ==> assignments[i].0 != column
    ensures LastAssigned(assignments, column).Some? ==>
      exists i :: 0 <= i < |assignments| && assignments[i] == (column, LastAssigned(assignments, column).value)
                  && forall j :: i < j < |assignments| ==> assignments[j].0 != column
    decreases |assignments|
  {
    if |assignments| > 0 {
      var rest := assignments[1..];
      LastAssignedExactly(rest, column);
      assert forall k :: 0 < k < |assignments| ==> assignments[k] == rest[k - 1];
      if LastAssigned(rest, column).Some? {
        var i :| 0 <= i < |rest| && rest[i] == (column, LastAssigned(rest, column).value)
                 && forall j :: i < j < |rest| ==> rest[j].0 != column;
        assert assignments[i + 1] == rest[i];
      }
    }
  }

  predicate AllAssignable(schema: Schema, assignments: seq<(string, string)>) {
    forall i :: 0 <= i < |assignments| ==> Assignable(schema, assignments[i])
  }

  /** The cell a literal makes in a column, if it makes one. */
  function NewCell(schema: Schema, column: string, value: string): Option<Value> {
    match FindColumn(schema, column)
    case None => None
    case Some(c) => if IsValidValueFor(c.dataType, value) then Some(ParseValue(c.dataType, value)) else None
  }

  /** A TEXT cell is the literal itself; an INT cell is the integer the literal spells. */
  ghost predicate CellFor(dataType: DataType, value: string, cell: Option<Value>) {
    match dataType
    case TEXT => cell == Some(TextValue(value))
    case INT => cell.Some? && cell.value.IntValue? && IsInt64(cell.value.n) && Spells(value, cell.value.n)
  }

  lemma NewCellHolds(schema: Schema, column: string, value: string)
    requires NewCell(schema, column, value).Some?
    ensures FindColumn(schema, column).Some?
    ensures CellFor(FindColumn(schema, column).value.dataType, value, NewCell(schema, column, value))
  {
    hide ParseInt64, Spells, ColumnIndex;
    if FindColumn(schema, column).value.dataType == INT {
      ParseExactly(value, ParseInt64(value).value);
    }
  }

  lemma SetCellEffect(row: Row, column: string, value: string, other: string)
    requires SetCell(row, column, value).Some?
    ensures var r := SetCell(row, column, value).value;
      Cell(r, other) == if other == column then NewCell(row.schema, column, value) else Cell(row, other)
    ensures FindColumn(row.schema, column).Some?
    ensures CellFor(FindColumn(row.schema, column).value.dataType, value,
                    Cell(SetCell(row, column, value).value, column))
    ensures Complete(row) ==> Complete(SetCell(row, column, value).value)
  {
    hide ParseInt64, CellFor;
    NewCellHolds(row.schema, column, value);
  }

  /** Checked assignments never fail on a row of the schema; the last one to a column wins, all others stay. */
  lemma {:induction false} AssignedEffect(schema: Schema, row: Row, assignments: seq<(string, string)>, column: string)
    requires row.schema == schema && AllAssignable(schema, assignments)
    ensures Assigned(row, assignments).Some?
    ensures var r := Assigned(row, assignments).value;
      && r.schema == schema
      && (Complete(row) ==> Complete(r))
      && Cell(r, column) == match LastAssigned(assignments, column)
                            case Some(v) => NewCell(schema, column, v)
                            case None => Cell(row, column)
    ensures LastAssigned(assignments, column).Some? ==>
      && FindColumn(schema, column).Some?
      && CellFor(FindColumn(schema, column).value.dataType, LastAssigned(assignments, column).value,
                 Cell(Assigned(row, assignments).value, column))
    decreases |assignments|
  {
    hide ParseInt64, CellFor;
    if |assignments| > 0 {
      var first := assignments[0];
      assert Assignable(schema, first);
      var r := SetCell(row, first.0, first.1).value;
      SetCellEffect(row, first.0, first.1, column);
      assert AllAssignable(schema, assignments[1..]);
      AssignedEffect(schema, r, assignments[1..], column);
    }
  }
}
