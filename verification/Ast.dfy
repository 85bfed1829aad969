/** Parsed statements. */
module Ast {
  import opened Rows

  datatype CompareOp = EQ | NE | LT | LE | GT | GE

  /** `column op literal`; the literal stays raw until the query runs. */
  datatype WhereClause = WhereClause(column: string, op: CompareOp, value: string)

  datatype ColumnDef = ColumnDef(name: string, dataType: DataType)

  datatype Statement =
    | CreateTable(table: string, defs: seq<ColumnDef>)
    | DropTable(table: string)
    | Insert(table: string, columns: seq<string>, values: seq<string>)
    | Select(table: string, columns: seq<string>, conditions: seq<WhereClause>)
    | Update(table: string, assignments: seq<(string, string)>, conditions: seq<WhereClause>)
    | Delete(table: string, conditions: seq<WhereClause>)
}
