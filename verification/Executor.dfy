/** The query planner: id comparisons go through the B-tree, and the answer is that of filtering every row. */
module Executor {
  import opened Options
  import opened Sequences
  import opened Rows
  import opened BTreeNodes
  import opened BTrees
  import opened Tables
  import opened Where
  import opened Ast
  import opened LRUCaches
  import HM = HashMaps
  import Scan = BTreeScan

  type Int64 = n: int | IsInt64(n)

  // ---- Filtering, in pieces and as a whole ----

  /** Predicates that agree on every row of a scan select the same rows. */
  lemma {:induction false} SelectedSame(s: seq<Entry<Row>>, p: Predicate, q: Predicate)
    requires forall i :: 0 <= i < |s| ==> p(s[i].1) == q(s[i].1)
    ensures Selected(s, p) == Selected(s, q)
  {
    if |s| > 0 {
      SelectedSame(s[..|s| - 1], p, q);
    }
  }

  ghost function Filtered(rows: seq<Row>, p: Predicate): seq<Row> {
    if |rows| == 0 then []
    else Filtered(rows[..|rows| - 1], p) + if p(rows[|rows| - 1]) then [rows[|rows| - 1]] else []
  }

  lemma FilteredPush(rows: seq<Row>, row: Row, p: Predicate)
    ensures Filtered(rows + [row], p) == Filtered(rows, p) + if p(row) then [row] else []
  {
    assert (rows + [row])[..|rows|] == rows;
  }

  /** Filtering a selection is selecting by both predicates at once. */
  lemma {:induction false} FilteredSelection(s: seq<Entry<Row>>, p: Predicate, q: Predicate, both: Predicate)
    requires forall i :: 0 <= i < |s| ==> both(s[i].1) == (p(s[i].1) && q(s[i].1))
    ensures Filtered(Selected(s, p), q) == Selected(s, both)
  {
    if |s| > 0 {
      var rest, last := s[..|s| - 1], s[|s| - 1].1;
      FilteredSelection(rest, p, q, both);
      if p(last) {
        FilteredPush(Selected(rest, p), last, q);
      } else {
        assert Selected(s, p) == Selected(rest, p);
      }
      assert both(last) == (p(last) && q(last));
    }
  }

  ghost predicate FiledEntries(schema: Schema, s: seq<Entry<Row>>) {
    forall i :: 0 <= i < |s| ==> Filed(schema, s[i].0, s[i].1)
  }

  ghost predicate IdBetween(row: Row, lo: int, hi: int) {
    GetInt(row, ID).Some? && lo <= GetInt(row, ID).value <= hi
  }

  /** A range scan over ids is a filter on the id cell, because every row is filed under its own id. */
  lemma {:induction false} RangeIsFilter(schema: Schema, s: seq<Entry<Row>>, lo: int, hi: int, p: Predicate)
    requires FiledEntries(schema, s)
    requires forall row: Row :: p(row) <==> IdBetween(row, lo, hi)
    ensures Selected(Scan.Within(s, lo, hi), _ => true) == Selected(s, p)
  {
    hide Filed;
    if |s| > 0 {
      var rest, last := s[..|s| - 1], s[|s| - 1];
      RangeIsFilter(schema, rest, lo, hi, p);
      RangeOne(schema, last, lo, hi, p);
      hide IdBetween, FiledEntries;
      assert s == rest + [last];
      Scan.WithinConcat(rest, [last], lo, hi);
      SelectedAppend(Scan.Within(rest, lo, hi), Scan.Within([last], lo, hi), _ => true);
      SelectedAppend(rest, [last], p);
    }
  }

  lemma RangeOne(schema: Schema, e: Entry<Row>, lo: int, hi: int, p: Predicate)
    requires Filed(schema, e.0, e.1) && (p(e.1) <==> IdBetween(e.1, lo, hi))
    ensures Selected(Scan.Within([e], lo, hi), _ => true) == Selected([e], p)
  {
    assert Scan.Within([e], lo, hi) == if lo <= e.0 <= hi then [e] else [];
    SelectedOne(e, p);
    SelectedOne(e, _ => true);
  }

  lemma SelectedOne(e: Entry<Row>, p: Predicate)
    ensures Selected([e], p) == if p(e.1) then [e.1] else []
  {
    assert [e][..0] == [] && Selected([], p) == [];
  }

  lemma {:induction false} SelectedAppend(a: seq<Entry<Row>>, b: seq<Entry<Row>>, p: Predicate)
    ensures Selected(a + b, p) == Selected(a, p) + Selected(b, p)
  {
    if |b| == 0 {
      assert a + b == a;
    } else {
      var rest, last := b[..|b| - 1], b[|b| - 1];
      SelectedAppend(a, rest, p);
      assert (a + b)[..|a + b| - 1] == a + rest;
    }
  }

  lemma AllEntriesFiled(schema: Schema, s: seq<Entry<Row>>)
    requires Ascending(s) && AllFiled(schema, AsMap(s))
    ensures FiledEntries(schema, s)
  {
    forall i | 0 <= i < |s| ensures Filed(schema, s[i].0, s[i].1) {
      AsMapAt(s, i);
    }
  }

  lemma {:induction false} PointWithin(s: seq<Entry<Row>>, id: int)
    requires Ascending(s)
    ensures Scan.Within(s, id, id) == if id in AsMap(s) then [(id, AsMap(s)[id])] else []
  {
    if |s| > 0 {
      if s[0].0 == id {
        AsMapDomain(s[1..], id);
        Scan.WithinNone(s[1..], id, id);
      } else {
        PointWithin(s[1..], id);
      }
    }
  }

  lemma {:induction false} CrossedWithin(s: seq<Entry<Row>>, lo: int, hi: int)
    requires hi < lo
    ensures Scan.Within(s, lo, hi) == []
  {
    if |s| > 0 {
      CrossedWithin(s[1..], lo, hi);
    }
  }

  lemma CrossedSelected(s: seq<Entry<Row>>, lo: int, hi: int)
    requires hi < lo
    ensures Selected(Scan.Within(s, lo, hi), _ => true) == []
  {
    CrossedWithin(s, lo, hi);
  }

  // ---- Id comparisons as ranges ----

  predicate IsIndexableIdClause(clause: WhereClause) {
    clause.column == ID && clause.op != NE
  }

  /** One clause as a row predicate. */
  ghost function One(schema: Schema, clause: WhereClause): Predicate
    requires ClauseOk(schema, clause)
  {
    (row: Row) => ClauseHolds(schema, clause, row)
  }

  ghost function RangeLow(op: CompareOp, v: int): int {
    match op
    case LT => INT64_MIN
    case LE => INT64_MIN
    case GT => v + 1
    case _ => v
  }

  ghost function RangeHigh(op: CompareOp, v: int): int {
    match op
    case GT => INT64_MAX
    case GE => INT64_MAX
    case LT => v - 1
    case _ => v
  }

  /** Id cells are 64-bit, so every indexable comparison is an inclusive range. */
  lemma IdClauseIsRange(schema: Schema, clause: WhereClause)
    requires IsTableSchema(schema) && ClauseOk(schema, clause) && IsIndexableIdClause(clause)
    ensures forall row: Row :: One(schema, clause)(row) <==>
      var v := ParseInt64(clause.value).value; IdBetween(row, RangeLow(clause.op, v), RangeHigh(clause.op, v))
  {
    forall row: Row
      ensures One(schema, clause)(row) <==>
        var v := ParseInt64(clause.value).value; IdBetween(row, RangeLow(clause.op, v), RangeHigh(clause.op, v))
    {
      IdCellInRange(row);
    }
  }

  lemma IdCellInRange(row: Row)
    ensures GetInt(row, ID).Some? ==> IsInt64(GetInt(row, ID).value)
  {
  }

  /** The range scan that answers an indexable clause. */
  lemma ClauseByRange(table: Table, clause: WhereClause)
    requires table.Valid() && ClauseOk(table.schema, clause) && IsIndexableIdClause(clause)
    ensures var v := ParseInt64(clause.value).value;
      Selected(table.rows.Contents(), One(table.schema, clause))
      == Selected(Scan.Within(table.rows.Contents(), RangeLow(clause.op, v), RangeHigh(clause.op, v)), _ => true)
  {
    hide LRUCache.Valid, HM.HashMap.Valid, ClauseHolds;
    var v := ParseInt64(clause.value).value;
    IdClauseIsRange(table.schema, clause);
    AllEntriesFiled(table.schema, table.rows.Contents());
    RangeIsFilter(table.schema, table.rows.Contents(), RangeLow(clause.op, v), RangeHigh(clause.op, v),
                  One(table.schema, clause));
  }

  /** Rows matching an indexable id clause, straight off the tree; bounds never leave the 64-bit range. */
  method RowsByIdClause(table: Table, clause: WhereClause) returns (r: Outcome<seq<Row>>)
    requires table.Valid() && IsIndexableIdClause(clause)
    modifies table.cache.Repr()
    ensures table.Valid() && table.rows.Contents() == old(table.rows.Contents())
    ensures fresh(table.Repr() - old(table.Repr()))
    ensures r.Rejected? <==> !ClauseOk(table.schema, clause)
    ensures r.Done? ==> r.value == Selected(table.rows.Contents(), One(table.schema, clause))
  {
    hide Table.Valid, BTree.Valid, BTree.Contents, ClauseOk, ClauseHolds, ParseInt64, Scan.Within, Selected;
    IdClauseOk(table, clause);
    if !IsValidValueFor(INT, clause.value) {
      return Rejected;
    }
    ClauseByRange(table, clause);
    var v: Int64 := ParseInt64(clause.value).value;
    match clause.op
    case EQ =>
      PointSelected(table, v);
      var row := table.FindById(v);
      return Done(if row.Some? then [row.value] else []);
    case LT =>
      if v == INT64_MIN {
        CrossedSelected(table.rows.Contents(), INT64_MIN, v - 1);
        return Done([]);
      }
      var hi: Int64 := v - 1;
      var rows := table.SelectIdRange(INT64_MIN, hi);
      return Done(rows);
    case LE =>
      var rows := table.SelectIdRange(INT64_MIN, v);
      return Done(rows);
    case GT =>
      if v == INT64_MAX {
        CrossedSelected(table.rows.Contents(), v + 1, INT64_MAX);
        return Done([]);
      }
      var lo: Int64 := v + 1;
      var rows := table.SelectIdRange(lo, INT64_MAX);
      return Done(rows);
    case GE =>
      var rows := table.SelectIdRange(v, INT64_MAX);
      return Done(rows);
  }

  lemma IdClauseOk(table: Table, clause: WhereClause)
    requires table.Valid() && clause.column == ID
    ensures ClauseOk(table.schema, clause) <==> IsValidValueFor(INT, clause.value)
  {
    hide BTree.Valid, LRUCache.Valid, AllFiled;
  }

  lemma PointSelected(table: Table, id: int)
    requires table.Valid()
    ensures Selected(Scan.Within(table.rows.Contents(), id, id), _ => true)
         == if id in table.Model() then [table.Model()[id]] else []
  {
    hide LRUCache.Valid;
    PointWithin(table.rows.Contents(), id);
  }

  // ---- SELECT ----

  /** The first clause the tree can answer. */
  method FindIndexable(conditions: seq<WhereClause>) returns (k: Option<nat>)
    ensures k.Some? ==> k.value < |conditions| && IsIndexableIdClause(conditions[k.value])
    ensures k.Some? ==> forall i :: 0 <= i < k.value ==> !IsIndexableIdClause(conditions[i])
    ensures k.None? ==> forall i :: 0 <= i < |conditions| ==> !IsIndexableIdClause(conditions[i])
  {
    for i := 0 to |conditions|
      invariant forall j :: 0 <= j < i ==> !IsIndexableIdClause(conditions[j])
    {
      if IsIndexableIdClause(conditions[i]) {
        return Some(i);
      }
    }
    return None;
  }

  /** Setting one clause aside loses nothing: it and the rest are the whole conjunction. */
  lemma ApartOk(schema: Schema, conditions: seq<WhereClause>, k: nat)
    requires k < |conditions|
    ensures AllOk(schema, conditions) <==> ClauseOk(schema, conditions[k]) && AllOk(schema, Cut(conditions, k))
  {
    hide ClauseOk, Cut;
    var rest := Cut(conditions, k);
    if AllOk(schema, rest) && ClauseOk(schema, conditions[k]) {
      forall i | 0 <= i < |conditions| ensures ClauseOk(schema, conditions[i]) {
        assert i != k ==> conditions[i] == rest[if i < k then i else i - 1];
      }
    }
  }

  lemma ApartHolds(schema: Schema, conditions: seq<WhereClause>, k: nat, row: Row)
    requires k < |conditions| && AllOk(schema, conditions)
    requires ClauseOk(schema, conditions[k]) && AllOk(schema, Cut(conditions, k))
    ensures AllHold(schema, conditions, row) <==>
      ClauseHolds(schema, conditions[k], row) && AllHold(schema, Cut(conditions, k), row)
  {
    hide ClauseOk, ClauseHolds, Cut;
    var rest := Cut(conditions, k);
    if AllHold(schema, rest, row) && ClauseHolds(schema, conditions[k], row) {
      forall i | 0 <= i < |conditions| ensures ClauseHolds(schema, conditions[i], row) {
        assert i != k ==> conditions[i] == rest[if i < k then i else i - 1];
      }
    }
  }

  /** The rows a filter scan over the whole conjunction would return, in the same order, with the same errors. */
  method FetchRows(table: Table, conditions: seq<WhereClause>) returns (r: Outcome<seq<Row>>)
    requires table.Valid()
    modifies table.cache.Repr()
    ensures table.Valid() && table.rows.Contents() == old(table.rows.Contents())
    ensures r.Rejected? <==> !AllOk(table.schema, conditions)
    ensures r.Done? ==> r.value == Selected(table.rows.Contents(), Condition(table.schema, conditions))
  {
    hide Table.Valid, Table.Model, BTree.Contents, ClauseOk, ClauseHolds, IsIndexableIdClause;
    ghost var s := table.rows.Contents();
    if |conditions| == 0 {
      var rows := table.SelectAll();
      SelectedSame(s, _ => true, Condition(table.schema, conditions));
      return Done(rows);
    }
    var k := FindIndexable(conditions);
    if k.None? {
      var p := MakeConjunction(table.schema, conditions);
      if p.None? {
        return Rejected;
      }
      var rows := table.SelectWhere(p.value);
      SelectedSame(s, p.value, Condition(table.schema, conditions));
      return Done(rows);
    }
    r := FetchByIndex(table, conditions, k.value);
  }

  /** Candidates from the tree, then the remaining clauses as a filter. */
  method FetchByIndex(table: Table, conditions: seq<WhereClause>, k: nat) returns (r: Outcome<seq<Row>>)
    requires table.Valid() && k < |conditions| && IsIndexableIdClause(conditions[k])
    modifies table.cache.Repr()
    ensures table.Valid() && table.rows.Contents() == old(table.rows.Contents())
    ensures r.Rejected? <==> !AllOk(table.schema, conditions)
    ensures r.Done? ==> r.value == Selected(table.rows.Contents(), Condition(table.schema, conditions))
  {
    hide Table.Valid, Table.Model, BTree.Contents, ClauseOk, ClauseHolds, IsIndexableIdClause,
         AllOk, AllHold, Cut, Selected;
    ghost var s := table.rows.Contents();
    ApartOk(table.schema, conditions, k);
    var candidates := RowsByIdClause(table, conditions[k]);
    if candidates.Rejected? {
      return Rejected;
    }
    var rest := AllBut(conditions, k);
    if |rest| == 0 {
      OnlyClause(table.schema, conditions, s);
      return candidates;
    }
    var p := MakeConjunction(table.schema, rest);
    if p.None? {
      return Rejected;
    }
    forall row: Row
      ensures Condition(table.schema, conditions)(row) == (One(table.schema, conditions[k])(row) && p.value(row))
    {
      ApartHolds(table.schema, conditions, k, row);
    }
    var rows := Keep(candidates.value, p.value);
    FilteredSelection(s, One(table.schema, conditions[k]), p.value, Condition(table.schema, conditions));
    return Done(rows);
  }

  lemma OnlyClause(schema: Schema, conditions: seq<WhereClause>, s: seq<Entry<Row>>)
    requires |conditions| == 1 && ClauseOk(schema, conditions[0])
    ensures AllOk(schema, conditions)
    ensures Selected(s, One(schema, conditions[0])) == Selected(s, Condition(schema, conditions))
  {
    hide ClauseOk, ClauseHolds;
    SelectedSame(s, One(schema, conditions[0]), Condition(schema, conditions));
  }

  method AllBut(conditions: seq<WhereClause>, k: nat) returns (rest: seq<WhereClause>)
    requires k < |conditions|
    ensures rest == Cut(conditions, k)
  {
    rest := [];
    for i := 0 to |conditions|
      invariant rest == if i <= k then conditions[..i] else Cut(conditions, k)[..i - 1]
    {
      if i != k {
        rest := rest + [conditions[i]];
      }
    }
  }

  method Keep(rows: seq<Row>, p: Predicate) returns (result: seq<Row>)
    ensures result == Filtered(rows, p)
  {
    result := [];
    for i := 0 to |rows|
      invariant result == Filtered(rows[..i], p)
    {
      FilteredPush(rows[..i], rows[i], p);
      assert rows[..i + 1] == rows[..i] + [rows[i]];
      if p(rows[i]) {
        result := result + [rows[i]];
      }
    }
    assert rows[..|rows|] == rows;
  }

  // ---- DELETE and UPDATE ----

  lemma OnlyClauseOk(schema: Schema, clause: WhereClause)
    requires ClauseOk(schema, clause)
    ensures AllOk(schema, [clause])
  {
    hide ClauseOk;
  }

  /** A row satisfies an equality on the id exactly when it is filed under that id. */
  lemma PointMatches(schema: Schema, clause: WhereClause, id: int, row: Row)
    requires IsTableSchema(schema) && clause.column == ID && clause.op == EQ && ClauseOk(schema, clause)
    requires Filed(schema, id, row) && AllOk(schema, [clause])
    ensures Condition(schema, [clause])(row) <==> id == ParseInt64(clause.value).value
  {
    IdClauseIsRange(schema, clause);
    var v := ParseInt64(clause.value).value;
    assert One(schema, clause)(row) <==> IdBetween(row, v, v);
    hide ClauseHolds, ParseInt64, ClauseOk;
    assert AllHold(schema, [clause], row) <==> ClauseHolds(schema, [clause][0], row);
  }

  /** Deleting one id is deleting where the id equals it, because no two rows share an id cell. */
  lemma PointDelete(table: Table, clause: WhereClause)
    requires table.Valid() && clause.column == ID && clause.op == EQ && ClauseOk(table.schema, clause)
    ensures AllOk(table.schema, [clause])
    ensures var p, v := Condition(table.schema, [clause]), ParseInt64(clause.value).value;
      && Surviving(table.Model(), p) == table.Model() - {v}
      && Matching(table.Model(), p) == if v in table.Model() then {v} else {}
  {
    hide BTree.Valid, BTree.Model, LRUCache.Valid, ClauseHolds, ClauseOk, ParseInt64, Filed;
    OnlyClauseOk(table.schema, clause);
    IdClauseOk(table, clause);
    hide AllOk;
    var m, p, v := table.Model(), Condition(table.schema, [clause]), ParseInt64(clause.value).value;
    forall id | id in m ensures p(m[id]) <==> id == v {
      PointMatches(table.schema, clause, id, m[id]);
    }
    hide Condition;
  }

  /** Predicates that agree on every stored row delete, match and update the same rows. */
  lemma SameEffect(m: map<int, Row>, p: Predicate, q: Predicate, assignments: seq<(string, string)>)
    requires forall id :: id in m ==> p(m[id]) == q(m[id])
    ensures Surviving(m, p) == Surviving(m, q) && Matching(m, p) == Matching(m, q)
    ensures Updated(m, p, assignments) == Updated(m, q, assignments)
  {
    hide Changed;
    forall id | id in m ensures p(m[id]) == q(m[id]) {
    }
    assert forall id :: id in Matching(m, p) <==> id in Matching(m, q);
    assert forall id :: id in Surviving(m, p) <==> id in Surviving(m, q);
  }

  /** DELETE removes exactly the rows that satisfy the whole conjunction, by either path. */
  method RunDelete(table: Table, conditions: seq<WhereClause>) returns (r: Outcome<nat>)
    requires table.Valid()
    modifies table.Repr()
    ensures table.Valid()
    ensures r.Rejected? <==> !AllOk(table.schema, conditions)
    ensures r.Rejected? ==> table.Model() == old(table.Model())
    ensures r.Done? ==>
      && table.Model() == Surviving(old(table.Model()), Condition(table.schema, conditions))
      && r.value == |Matching(old(table.Model()), Condition(table.schema, conditions))|
  {
    hide Table.Valid, Table.Model, ClauseOk, ClauseHolds, ParseInt64, Surviving, Matching, Updated;
    ghost var m := table.Model();
    if |conditions| == 1 && conditions[0].column == ID && conditions[0].op == EQ
       && IsValidValueFor(INT, conditions[0].value) {
      IdClauseOk(table, conditions[0]);
      PointDelete(table, conditions[0]);
      assert conditions == [conditions[0]];
      var removed := table.DeleteById(ParseInt64(conditions[0].value).value);
      return Done(if removed then 1 else 0);
    }
    if |conditions| > 0 {
      var p := MakeConjunction(table.schema, conditions);
      if p.None? {
        return Rejected;
      }
      var deleted := table.DeleteWhere(p.value);
      SameEffect(m, p.value, Condition(table.schema, conditions), []);
      return Done(deleted);
    }
    var deleted := table.DeleteWhere(_ => true);
    SameEffect(m, _ => true, Condition(table.schema, conditions), []);
    return Done(deleted);
  }

  /** UPDATE is all or nothing: illegal conditions or assignments change no row. */
  method RunUpdate(table: Table, assignments: seq<(string, string)>, conditions: seq<WhereClause>)
      returns (r: Outcome<nat>)
    requires table.Valid()
    modifies table.Repr()
    ensures table.Valid()
    ensures r.Rejected? <==> !AllOk(table.schema, conditions) || !AllAssignable(table.schema, assignments)
    ensures r.Rejected? ==> table.Model() == old(table.Model())
    ensures r.Done? ==>
      && table.Model() == Updated(old(table.Model()), Condition(table.schema, conditions), assignments)
      && r.value == |Matching(old(table.Model()), Condition(table.schema, conditions))|
  {
    hide Table.Valid, Table.Model, ClauseOk, ClauseHolds, Surviving, Matching, Updated, AllAssignable;
    ghost var m := table.Model();
    var p: Predicate := _ => true;
    if |conditions| > 0 {
      var conjunction := MakeConjunction(table.schema, conditions);
      if conjunction.None? {
        return Rejected;
      }
      p := conjunction.value;
    }
    SameEffect(m, p, Condition(table.schema, conditions), assignments);
    r := table.UpdateWhere(p, assignments);
  }
}
