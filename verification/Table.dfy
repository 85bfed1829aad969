/** The table: rows clustered by id in a B-tree, with a read cache that must always agree with it. */
module Tables {
  import opened Options
  import opened Rows
  import opened BTreeNodes
  import opened BTrees
  import opened LRUCaches
  import HM = HashMaps
  import Scan = BTreeScan
  import R = Recency
  import opened Coherence

  type Predicate = Row -> bool

  // ---- What a table may hold ----

  ghost predicate IsTableSchema(schema: Schema) {
    UniqueNames(schema.columns) && FindColumn(schema, ID) == Some(Column(ID, INT))
  }

  /** A complete row of the schema, filed under its own id cell. */
  ghost predicate Filed(schema: Schema, id: int, row: Row) {
    row.schema == schema && Complete(row) && GetInt(row, ID) == Some(id)
  }

  ghost predicate AllFiled(schema: Schema, m: map<int, Row>) {
    forall id :: id in m ==> Filed(schema, id, m[id])
  }

  // ---- Scan results ----

  /** The rows of `s` that satisfy `p`, in order. */
  ghost function Selected(s: seq<Entry<Row>>, p: Predicate): seq<Row> {
    if |s| == 0 then [] else Selected(s[..|s| - 1], p) + if p(s[|s| - 1].1) then [s[|s| - 1].1] else []
  }

  ghost function Matching(m: map<int, Row>, p: Predicate): set<int> {
    set id | id in m && p(m[id])
  }

  /** The table after a delete. */
  ghost function Surviving(m: map<int, Row>, p: Predicate): map<int, Row> {
    map id | id in m && !p(m[id]) :: m[id]
  }

  /** The table after an update: matching rows go through the assignments, the rest stay. */
  ghost function Updated(m: map<int, Row>, p: Predicate, assignments: seq<(string, string)>): map<int, Row> {
    map id | id in m :: if p(m[id]) then Changed(m[id], assignments) else m[id]
  }

  ghost function Changed(row: Row, assignments: seq<(string, string)>): Row {
    match Assigned(row, assignments)
    case Some(r) => r
    case None => row
  }

  /** The ids of the rows of `s` that satisfy `p`, in order. */
  ghost function Ids(s: seq<Entry<Row>>, p: Predicate): seq<int> {
    if |s| == 0 then [] else Ids(s[..|s| - 1], p) + if p(s[|s| - 1].1) then [s[|s| - 1].0] else []
  }

  lemma {:induction false} IdsIn(s: seq<Entry<Row>>, p: Predicate, id: int)
    ensures id in Ids(s, p) <==> exists i :: 0 <= i < |s| && s[i].0 == id && p(s[i].1)
  {
    if |s| > 0 {
      IdsIn(s[..|s| - 1], p, id);
    }
  }

  ghost predicate NoDuplicates(ids: seq<int>) {
    forall i, j :: 0 <= i < j < |ids| ==> ids[i] != ids[j]
  }

  lemma {:induction false} IdsDistinct(s: seq<Entry<Row>>, p: Predicate)
    requires Ascending(s)
    ensures NoDuplicates(Ids(s, p))
  {
    if |s| > 0 {
      var rest, last := s[..|s| - 1], s[|s| - 1];
      IdsDistinct(rest, p);
      IdsIn(rest, p, last.0);
      assert last.0 !in Ids(rest, p);
    }
  }

  lemma {:induction false} SetSize(ids: seq<int>)
    requires NoDuplicates(ids)
    ensures |SetOf(ids)| == |ids|
  {
    if |ids| > 0 {
      var rest, last := ids[..|ids| - 1], ids[|ids| - 1];
      SetSize(rest);
      assert (set id | id in ids) == (set id | id in rest) + {last};
    }
  }

  /** A scan collects exactly the matching ids, each once. */
  lemma IdsMatch(s: seq<Entry<Row>>, p: Predicate)
    requires Ascending(s)
    ensures forall id :: id in Ids(s, p) <==> id in Matching(AsMap(s), p)
    ensures NoDuplicates(Ids(s, p)) && |Ids(s, p)| == |Matching(AsMap(s), p)|
  {
    hide AsMap, Ids;
    forall id ensures id in Ids(s, p) <==> id in Matching(AsMap(s), p) {
      IdsIn(s, p, id);
      AsMapDomain(s, id);
      if id in AsMap(s) {
        var i :| 0 <= i < |s| && s[i].0 == id;
        AsMapAt(s, i);
      }
    }
    IdsDistinct(s, p);
    SetSize(Ids(s, p));
    assert (set id | id in Ids(s, p)) == Matching(AsMap(s), p);
  }

  // ---- Updates ----

  ghost function UpdatedFor(m: map<int, Row>, ids: seq<int>, assignments: seq<(string, string)>): map<int, Row> {
    map id | id in m :: if id in ids then Changed(m[id], assignments) else m[id]
  }

  /** A filter scan returns exactly the matching rows, each once, in ascending id order. */
  lemma SelectedExactly(s: seq<Entry<Row>>, p: Predicate)
    requires Ascending(s)
    ensures forall id :: id in Ids(s, p) <==> id in AsMap(s) && p(AsMap(s)[id])
    ensures forall i, j :: 0 <= i < j < |Ids(s, p)| ==> Ids(s, p)[i] < Ids(s, p)[j]
    ensures |Selected(s, p)| == |Ids(s, p)|
    ensures forall k :: 0 <= k < |Ids(s, p)| ==> Ids(s, p)[k] in AsMap(s) && Selected(s, p)[k] == AsMap(s)[Ids(s, p)[k]]
  {
    hide AsMap;
    IdsMatch(s, p);
    SelectedPairs(s, p);
    forall k | 0 <= k < |Ids(s, p)| ensures Ids(s, p)[k] in AsMap(s) && Selected(s, p)[k] == AsMap(s)[Ids(s, p)[k]] {
      var i :| 0 <= i < |s| && s[i] == (Ids(s, p)[k], Selected(s, p)[k]);
      AsMapAt(s, i);
    }
  }

  /** Ids in ascending order, each with its row in `s`. */
  ghost predicate PairedIn(ids: seq<int>, rows: seq<Row>, s: seq<Entry<Row>>) {
    && |rows| == |ids|
    && (forall i, j :: 0 <= i < j < |ids| ==> ids[i] < ids[j])
    && forall k :: 0 <= k < |ids| ==> (ids[k], rows[k]) in s
  }

  lemma {:induction false} SelectedPairs(s: seq<Entry<Row>>, p: Predicate)
    requires Ascending(s)
    ensures PairedIn(Ids(s, p), Selected(s, p), s)
  {
    if |s| > 0 {
      var rest, last := s[..|s| - 1], s[|s| - 1];
      SelectedPairs(rest, p);
      assert Ids(s, p) == Ids(rest, p) + if p(last.1) then [last.0] else [];
      assert Selected(s, p) == Selected(rest, p) + if p(last.1) then [last.1] else [];
      hide Ids, Selected, PairedIn;
      PairPushed(Ids(rest, p), Selected(rest, p), s);
      if !p(last.1) {
        assert Ids(s, p) == Ids(rest, p) && Selected(s, p) == Selected(rest, p);
      }
    }
  }

  lemma PairPushed(ids: seq<int>, rows: seq<Row>, s: seq<Entry<Row>>)
    requires |s| > 0 && Ascending(s) && PairedIn(ids, rows, s[..|s| - 1])
    ensures PairedIn(ids, rows, s) && PairedIn(ids + [s[|s| - 1].0], rows + [s[|s| - 1].1], s)
  {
    assert forall e :: e in s[..|s| - 1] ==> e in s && e.0 < s[|s| - 1].0;
  }

  lemma UpdatedNext(m: map<int, Row>, ids: seq<int>, j: nat, assignments: seq<(string, string)>)
    requires j < |ids| && NoDuplicates(ids) && ids[j] in m
    ensures ids[j] in UpdatedFor(m, ids[..j], assignments) && UpdatedFor(m, ids[..j], assignments)[ids[j]] == m[ids[j]]
    ensures UpdatedFor(m, ids[..j + 1], assignments)
         == UpdatedFor(m, ids[..j], assignments)[ids[j] := Changed(m[ids[j]], assignments)]
  {
    assert ids[..j + 1] == ids[..j] + [ids[j]];
    assert ids[j] !in ids[..j];
  }

  /** Checked assignments keep a row complete and under its id. */
  lemma ChangedFiled(schema: Schema, id: int, row: Row, assignments: seq<(string, string)>)
    requires Filed(schema, id, row) && AllAssignable(schema, assignments)
    ensures Assigned(row, assignments) == Some(Changed(row, assignments))
    ensures Filed(schema, id, Changed(row, assignments))
  {
    AssignedEffect(schema, row, assignments, ID);
    IdUntouched(schema, assignments);
  }

  lemma {:induction false} IdUntouched(schema: Schema, assignments: seq<(string, string)>)
    requires AllAssignable(schema, assignments)
    ensures LastAssigned(assignments, ID) == None
  {
    if |assignments| > 0 {
      assert Assignable(schema, assignments[0]);
      IdUntouched(schema, assignments[1..]);
    }
  }

  lemma UpdatedFiled(schema: Schema, m: map<int, Row>, ids: seq<int>, assignments: seq<(string, string)>)
    requires AllFiled(schema, m) && AllAssignable(schema, assignments)
    ensures AllFiled(schema, UpdatedFor(m, ids, assignments))
  {
    hide Filed, Changed, AllAssignable;
    forall id | id in m ensures Filed(schema, id, UpdatedFor(m, ids, assignments)[id]) {
      ChangedFiled(schema, id, m[id], assignments);
    }
  }

  /** After an update the same ids are there; a row that did not match is as it was; in one that did, each column has
      the cell its last literal makes, and the cell it had if it got none. */
  lemma UpdatedExactly(schema: Schema, m: map<int, Row>, p: Predicate, assignments: seq<(string, string)>,
                       id: int, column: string)
    requires AllFiled(schema, m) && AllAssignable(schema, assignments) && id in m
    ensures Updated(m, p, assignments).Keys == m.Keys
    ensures !p(m[id]) ==> Updated(m, p, assignments)[id] == m[id]
    ensures p(m[id]) ==>
      match LastAssigned(assignments, column)
      case None => Cell(Updated(m, p, assignments)[id], column) == Cell(m[id], column)
      case Some(v) =>
        && FindColumn(schema, column).Some?
        && CellFor(FindColumn(schema, column).value.dataType, v, Cell(Updated(m, p, assignments)[id], column))
  {
    hide CellFor, Cell, LastAssigned, FindColumn, AllAssignable, Assigned;
    assert Filed(schema, id, m[id]);
    ChangedFiled(schema, id, m[id], assignments);
    AssignedEffect(schema, m[id], assignments, column);
  }

  // ---- The table ----

  datatype Outcome<T> = Done(value: T) | Rejected

  class Table {
    const schema: Schema
    const rows: BTree<Row>
    const cache: LRUCache<int, Row>

    ghost function Repr(): set<object>
      reads this, cache, cache.index
    {
      {rows} + cache.Repr()
    }

    /** The rows by id. */
    ghost function Model(): map<int, Row>
      reads rows
    {
      rows.Model()
    }

    ghost predicate Valid()
      reads this, rows, cache, cache.index, cache.index.slots, cache.items
    {
      && IsTableSchema(schema)
      && rows.Valid() && AllFiled(schema, Model())
      && cache.Valid() && Coherent(cache.Contents, Model())
    }

    constructor (schema: Schema, cacheCapacity: nat, hash: int -> nat)
      requires IsTableSchema(schema) && cacheCapacity > 0
      ensures Valid() && Model() == map[] && this.schema == schema && fresh(Repr())
    {
      hide BTree.Valid, BTree.Model, LRUCache.Valid, HM.HashMap.Valid;
      this.schema := schema;
      rows := new BTree(16);
      cache := new LRUCache(cacheCapacity, hash);
    }

    /** A schema without an INT id column and a zero cache capacity are rejected. */
    static method Make(schema: Schema, cacheCapacity: nat, hash: int -> nat) returns (table: Option<Table>)
      requires UniqueNames(schema.columns)
      ensures table.Some? <==> FindColumn(schema, "id") == Some(Column("id", INT)) && cacheCapacity > 0
      ensures table.Some? ==> fresh(table.value) && table.value.Valid() && table.value.Model() == map[]
    {
      var id := FindColumn(schema, ID);
      if id.None? || id.value.dataType != INT || cacheCapacity == 0 {
        return None;
      }
      var made := new Table(schema, cacheCapacity, hash);
      return Some(made);
    }

    /** Files a row under its id unless the id is taken; a foreign or incomplete row is rejected. */
    method Insert(row: Row) returns (r: Outcome<bool>)
      requires Valid()
      modifies rows
      ensures Valid()
      ensures r.Rejected? <==> row.schema.columns != schema.columns || !Complete(row)
      ensures r.Rejected? ==> Model() == old(Model())
      ensures r.Done? ==> GetInt(row, ID).Some? && var id := GetInt(row, ID).value;
                && (r.value <==> id !in old(Model()))
                && Model() == if r.value then old(Model())[id := row] else old(Model())
    {
      hide BTree.Valid, BTree.Model, LRUCache.Valid, HM.HashMap.Valid;
      if row.schema.columns != schema.columns {
        return Rejected;
      }
      ValidateIsComplete(schema, row);
      if !Validate(schema, row) {
        return Rejected;
      }
      HasId(schema, row);
      var inserted := rows.Insert(GetInt(row, ID).value, row);
      return Done(inserted);
    }

    /** Point lookup through the cache: what a bare search of the tree would return. */
    method FindById(id: int) returns (row: Option<Row>)
      requires Valid()
      modifies cache.Repr()
      ensures Valid() && Model() == old(Model()) && fresh(Repr() - old(Repr()))
      ensures row == if id in Model() then Some(Model()[id]) else None
      ensures cache.Contents == AfterLookup(old(cache.Contents), cache.capacity, Model(), id)
    {
      hide BTree.Valid, BTree.Model, LRUCache.Valid, HM.HashMap.Valid, AllFiled, Coherent, R.Lookup, R.Touch, R.Put;
      ghost var m := Model();
      ghost var cached := cache.Contents;
      cache.NoKeyTwice();
      CoherentTouch(cached, m, id);
      LookupCases(cached, cache.capacity, m, id);
      hide AfterLookup, IsTableSchema;
      var hit := cache.Get(id);
      if hit.Some? {
        HitIsStored(cached, m, id);
        return hit;
      }
      row := SearchAndFill(id);
    }

    /** A lookup that missed the cache: the tree answers, and a row it finds is cached. */
    method SearchAndFill(id: int) returns (row: Option<Row>)
      requires Valid()
      modifies cache.Repr()
      ensures Valid() && Model() == old(Model()) && fresh(Repr() - old(Repr()))
      ensures row == if id in Model() then Some(Model()[id]) else None
      ensures cache.capacity > 0 && cache.Contents ==
        if id in Model() then R.Put(old(cache.Contents), cache.capacity, id, Model()[id]) else old(cache.Contents)
    {
      hide BTree.Valid, BTree.Model, LRUCache.Valid, HM.HashMap.Valid, AllFiled, Coherent, R.Put, IsTableSchema;
      cache.NoKeyTwice();
      row := rows.Search(id);
      if row.None? {
        return None;
      }
      CoherentPut(cache.Contents, Model(), cache.capacity, id);
      cache.Put(id, row.value);
    }

    /** Removes a row and forgets it. */
    method DeleteById(id: int) returns (removed: bool)
      requires Valid()
      modifies Repr()
      ensures Valid() && fresh(Repr() - old(Repr()))
      ensures removed <==> id in old(Model())
      ensures Model() == old(Model()) - {id}
      ensures cache.Contents == if removed then R.Drop(old(cache.Contents), id) else old(cache.Contents)
    {
      hide BTree.Valid, BTree.Model, LRUCache.Valid, HM.HashMap.Valid, Coherent, R.Lookup, R.Drop;
      ghost var m := Model();
      cache.NoKeyTwice();
      CoherentForget(cache.Contents, m, m - {id}, id);
      removed := rows.Remove(id);
      if removed {
        var forgotten := cache.Erase(id);
      } else {
        assert m - {id} == m;
      }
    }

    /** Filter scan in ascending id order. */
    method SelectWhere(p: Predicate) returns (result: seq<Row>)
      requires Valid()
      ensures result == Selected(rows.Contents(), p)
    {
      hide BTree.Valid, BTree.Contents, BTree.Model, LRUCache.Valid, HM.HashMap.Valid;
      var visited := rows.ForEachInOrder();
      result := [];
      for i := 0 to |visited|
        invariant result == Selected(visited[..i], p)
      {
        assert visited[..i + 1][..i] == visited[..i];
        if p(visited[i].1) {
          result := result + [visited[i].1];
        }
      }
      assert visited[..|visited|] == visited;
    }

    method SelectAll() returns (result: seq<Row>)
      requires Valid()
      ensures result == Selected(rows.Contents(), _ => true)
    {
      result := SelectWhere(_ => true);
    }

    /** Rows with lo <= id <= hi, through the pruned range scan. */
    method SelectIdRange(lo: int, hi: int) returns (result: seq<Row>)
      requires Valid()
      ensures result == Selected(Scan.Within(rows.Contents(), lo, hi), _ => true)
    {
      hide BTree.Valid, BTree.Contents, BTree.Model, LRUCache.Valid, HM.HashMap.Valid, Scan.Within;
      var visited := rows.ForEachRange(lo, hi);
      result := [];
      for i := 0 to |visited|
        invariant result == Selected(visited[..i], _ => true)
      {
        assert visited[..i + 1][..i] == visited[..i];
        result := result + [visited[i].1];
      }
      assert visited[..|visited|] == visited;
    }

    /** The collecting scan of `deleteWhere` and `updateWhere`. */
    method MatchingIds(p: Predicate) returns (ids: seq<int>)
      requires Valid()
      ensures forall id :: id in ids <==> id in Matching(Model(), p)
      ensures NoDuplicates(ids) && |ids| == |Matching(Model(), p)|
    {
      hide BTree.Valid, BTree.Contents, BTree.Model, LRUCache.Valid, HM.HashMap.Valid, AsMap;
      var visited := rows.ForEachInOrder();
      ids := [];
      for i := 0 to |visited|
        invariant ids == Ids(visited[..i], p)
      {
        assert visited[..i + 1][..i] == visited[..i];
        if p(visited[i].1) {
          ids := ids + [visited[i].0];
        }
      }
      assert visited[..|visited|] == visited;
      IdsMatch(visited, p);
    }

    /** Scan and erase as one operation: exactly the matching rows go. */
    method DeleteWhere(p: Predicate) returns (deleted: nat)
      requires Valid()
      modifies Repr()
      ensures Valid() && fresh(Repr() - old(Repr()))
      ensures Model() == Surviving(old(Model()), p)
      ensures deleted == |Matching(old(Model()), p)|
      ensures cache.Contents == Remaining(old(cache.Contents), Matching(old(Model()), p))
    {
      hide BTree.Valid, BTree.Contents, BTree.Model, LRUCache.Valid, HM.HashMap.Valid, Coherent, Remaining;
      ghost var m := Model();
      var doomed := MatchingIds(p);
      RemoveAll(doomed);
      SameDelete(m, p, doomed);
      SurvivingFiled(schema, m, p);
      return |doomed|;
    }

    /** The erasing loop: each id leaves the tree and the cache. */
    method RemoveAll(ids: seq<int>)
      requires rows.Valid() && cache.Valid() && Coherent(cache.Contents, Model())
      modifies rows, cache, cache.index, cache.index.slots
      ensures rows.Valid() && cache.Valid() && Coherent(cache.Contents, Model()) && cache.Repr() <= old(cache.Repr())
      ensures Model() == old(Model()) - SetOf(ids)
      ensures cache.Contents == Remaining(old(cache.Contents), SetOf(ids))
    {
      hide BTree.Valid, BTree.Contents, BTree.Model, LRUCache.Valid, HM.HashMap.Valid, Coherent,
           R.Drop, R.Lookup, R.Distinct, Remaining;
      ghost var m, cached := Model(), cache.Contents;
      cache.NoKeyTwice();
      NoneGone(cached);
      assert SetOf(ids[..0]) == {};
      hide SetOf;
      for j := 0 to |ids|
        invariant rows.Valid() && cache.Valid() && Coherent(cache.Contents, Model())
        invariant cache.Repr() <= old(cache.Repr())
        invariant Model() == m - SetOf(ids[..j]) && cache.Contents == Remaining(cached, SetOf(ids[..j]))
      {
        OneMoreGone(cached, SetOf(ids[..j]), ids[j]);
        SetOfNext(ids, j);
        RemoveAndForget(ids[j]);
      }
      assert ids[..|ids|] == ids;
    }

    /** One round of the erasing loop of `deleteWhere`. */
    method RemoveAndForget(id: int)
      requires rows.Valid() && cache.Valid() && Coherent(cache.Contents, Model())
      modifies rows, cache, cache.index, cache.index.slots
      ensures rows.Valid() && cache.Valid() && Coherent(cache.Contents, Model()) && cache.Repr() <= old(cache.Repr())
      ensures Model() == old(Model()) - {id} && cache.Contents == R.Drop(old(cache.Contents), id)
    {
      hide BTree.Valid, BTree.Contents, BTree.Model, LRUCache.Valid, HM.HashMap.Valid, Coherent, R.Drop, R.Lookup;
      cache.NoKeyTwice();
      CoherentForget(cache.Contents, Model(), Model() - {id}, id);
      var removed := rows.Remove(id);
      var forgotten := cache.Erase(id);
    }

    /** Rejects bad assignments before touching a row; otherwise every matching row goes through all of them. */
    method UpdateWhere(p: Predicate, assignments: seq<(string, string)>) returns (r: Outcome<nat>)
      requires Valid()
      modifies Repr()
      ensures Valid() && fresh(Repr() - old(Repr()))
      ensures r.Rejected? <==> !AllAssignable(schema, assignments)
      ensures r.Rejected? ==> Model() == old(Model())
      ensures r.Done? ==> Model() == Updated(old(Model()), p, assignments)
      ensures r.Done? ==> r.value == |Matching(old(Model()), p)|
      ensures r.Rejected? ==> cache.Contents == old(cache.Contents)
      ensures r.Done? ==> cache.Contents == Remaining(old(cache.Contents), Matching(old(Model()), p))
    {
      hide BTree.Valid, BTree.Contents, BTree.Model, LRUCache.Valid, HM.HashMap.Valid, Coherent, Assignable;
      for i := 0 to |assignments|
        invariant forall k :: 0 <= k < i ==> Assignable(schema, assignments[k])
      {
        if !Assignable(schema, assignments[i]) {
          return Rejected;
        }
      }
      ghost var m := Model();
      var matched := MatchingIds(p);
      StoreAll(matched, assignments);
      ForgetAll(matched);
      SameUpdate(m, p, matched, assignments);
      assert SetOf(matched) == Matching(m, p);
      return Done(|matched|);
    }

    /** The update loop: no assignment can fail in it. */
    method StoreAll(ids: seq<int>, assignments: seq<(string, string)>)
      requires Valid() && AllAssignable(schema, assignments)
      requires NoDuplicates(ids) && forall id :: id in ids ==> id in Model()
      modifies rows
      ensures rows.Valid() && Model() == UpdatedFor(old(Model()), ids, assignments)
      ensures AllFiled(schema, Model()) && CoherentBut(cache.Contents, Model(), ids)
    {
      hide BTree.Valid, BTree.Contents, BTree.Model, LRUCache.Valid, HM.HashMap.Valid, AllAssignable, Changed;
      ghost var m := Model();
      for j := 0 to |ids|
        invariant rows.Valid() && Model() == UpdatedFor(m, ids[..j], assignments)
      {
        assert ids[j] in ids;
        UpdatedNext(m, ids, j, assignments);
        var found := rows.Search(ids[j]);
        ChangedFiled(schema, ids[j], m[ids[j]], assignments);
        var row := AssignAll(found.value, assignments);
        rows.Store(ids[j], row);
      }
      assert ids[..|ids|] == ids;
      UpdatedFiled(schema, m, ids, assignments);
    }

    method AssignAll(row: Row, assignments: seq<(string, string)>) returns (result: Row)
      requires Assigned(row, assignments).Some?
      ensures Assigned(row, assignments) == Some(result)
    {
      result := row;
      for a := 0 to |assignments|
        invariant Assigned(result, assignments[a..]) == Assigned(row, assignments)
      {
        assert assignments[a..][1..] == assignments[a + 1..];
        result := SetCell(result, assignments[a].0, assignments[a].1).value;
      }
    }

    /** Erases updated ids from the cache. */
    method ForgetAll(ids: seq<int>)
      requires cache.Valid() && CoherentBut(cache.Contents, Model(), ids)
      modifies cache.Repr()
      ensures cache.Valid() && cache.Repr() <= old(cache.Repr())
      ensures Coherent(cache.Contents, Model()) && Model() == old(Model())
      ensures cache.Contents == Remaining(old(cache.Contents), SetOf(ids))
    {
      hide BTree.Contents, BTree.Model, LRUCache.Valid, HM.HashMap.Valid, R.Drop, R.Lookup, R.Distinct, Remaining;
      ghost var cached := cache.Contents;
      cache.NoKeyTwice();
      NoneGone(cached);
      assert SetOf(ids[..0]) == {};
      for j := 0 to |ids|
        invariant cache.Valid() && cache.Repr() <= old(cache.Repr())
        invariant CoherentBut(cache.Contents, Model(), ids[j..]) && Model() == old(Model())
        invariant cache.Contents == Remaining(cached, SetOf(ids[..j]))
      {
        OneMoreGone(cached, SetOf(ids[..j]), ids[j]);
        SetOfNext(ids, j);
        cache.NoKeyTwice();
        ForgetStale(cache.Contents, Model(), ids[j..]);
        assert ids[j..][1..] == ids[j + 1..];
        var forgotten := cache.Erase(ids[j]);
      }
      assert ids[..|ids|] == ids;
    }
  }

  lemma SameUpdate(m: map<int, Row>, p: Predicate, ids: seq<int>, assignments: seq<(string, string)>)
    requires forall id :: id in ids <==> id in Matching(m, p)
    ensures UpdatedFor(m, ids, assignments) == Updated(m, p, assignments)
  {
    forall id | id in m ensures id in ids <==> p(m[id]) {
      assert id in ids <==> id in Matching(m, p);
    }
  }

  lemma SurvivingFiled(schema: Schema, m: map<int, Row>, p: Predicate)
    requires AllFiled(schema, m)
    ensures AllFiled(schema, Surviving(m, p))
  {
  }

  lemma SameDelete(m: map<int, Row>, p: Predicate, ids: seq<int>)
    requires forall id :: id in ids <==> id in Matching(m, p)
    ensures m - SetOf(ids) == Surviving(m, p) && SetOf(ids) == Matching(m, p)
  {
    forall id | id in m ensures id in ids <==> p(m[id]) {
      assert id in ids <==> id in Matching(m, p);
    }
    assert forall id :: id in SetOf(ids) <==> id in Matching(m, p);
  }

  /** A complete row of a table's schema has an integer id. */
  lemma HasId(schema: Schema, row: Row)
    requires IsTableSchema(schema) && row.schema == schema && Complete(row)
    ensures GetInt(row, ID).Some? && Filed(schema, GetInt(row, ID).value, row)
  {
  }
}
