/** The B-tree map: a mutable root and entry count over the node operations, refining a finite map. */
module BTrees {
  import opened Options
  import opened BTreeNodes
  import opened BTreeCheck
  import Ins = BTreeInsert
  import Rem = BTreeRemove
  import Scan = BTreeScan

  class BTree<V> {
    var root: Option<Node<V>>
    var size: nat
    const t: nat

    /** Every B-tree invariant at once: shape, occupancy, uniform leaf depth, global order, entry count. */
    ghost predicate Valid()
      reads this
    {
      && t >= 2
      && match root
         case None => size == 0
         case Some(n) => Fits(t, Depth(n), true, None, None, n) && size == |Entries(n)|
    }

    ghost function Contents(): seq<Entry<V>>
      reads this
    {
      match root
      case None => []
      case Some(n) => Entries(n)
    }

    /** The finite map the tree stands for. */
    ghost function Model(): map<int, V>
      reads this
    {
      AsMap(Contents())
    }

    constructor (minDegree: nat)
      requires minDegree >= 2
      ensures Valid() && t == minDegree && Model() == map[]
    {
      root, size, t := None, 0, minDegree;
    }

    /** A minimum degree below 2 is rejected. */
    static method Make(minDegree: int) returns (tree: Option<BTree<V>>)
      ensures tree.Some? <==> minDegree >= 2
      ensures tree.Some? ==> fresh(tree.value) && tree.value.Valid() && tree.value.Model() == map[]
    {
      if minDegree < 2 {
        return None;
      }
      var made := new BTree(minDegree);
      return Some(made);
    }

    /** Adds the binding unless the key is present. A duplicate may still split nodes; the map does not change. */
    method Insert(key: int, value: V) returns (inserted: bool)
      requires Valid()
      modifies this
      ensures Valid()
      ensures inserted <==> key !in old(Model())
      ensures Model() == if inserted then old(Model())[key := value] else old(Model())
    {
      match root
      case None =>
        root, size := Some(Node([key], [value], [])), 1;
        assert Contents() == [(key, value)] && Contents()[1..] == [];
        return true;
      case Some(n) =>
        var node;
        node, inserted := InsertFrom(n, key, value);
        root := Some(node);
        if inserted {
          size := size + 1;
        }
    }

    /** Grows the tree by a level when the root is full, then inserts below a root that is not. */
    method InsertFrom(n: Node<V>, key: int, value: V) returns (node: Node<V>, inserted: bool)
      requires t >= 2 && Fits(t, Depth(n), true, None, None, n)
      ensures Fits(t, Depth(node), true, None, None, node)
      ensures inserted <==> key !in AsMap(Entries(n))
      ensures AsMap(Entries(node)) == if inserted then AsMap(Entries(n))[key := value] else AsMap(Entries(n))
      ensures |Entries(node)| == |Entries(n)| + if inserted then 1 else 0
    {
      hide Inserted, AsMap, Ascending, HasKey, Entries;
      ghost var s, h := Entries(n), Depth(n);
      AsMapDomain(s, key);
      node := n;
      if |node.keys| == 2 * t - 1 {
        node := Node([], [], [node]);
        LoneChild(n);
        h := h + 1;
        node := Ins.SplitChild(t, h, node, 0);
      }
      node, inserted := Ins.InsertNonFull(t, h, node, key, value);
      BalancedDepth(t, h, node);
      if inserted {
        InsertedIsUpdate(s, key, value);
      }
    }

    /** Deletes the binding of a key, reporting whether there was one. */
    method Remove(key: int) returns (removed: bool)
      requires Valid()
      modifies this
      ensures Valid()
      ensures removed <==> key in old(Model())
      ensures Model() == old(Model()) - {key}
    {
      match root
      case None =>
        return false;
      case Some(n) =>
        ghost var s, h := Entries(n), Depth(n);
        AsMapDomain(s, key);
        WithoutIsRemoval(s, key);
        WithoutAscending(s, key);
        var node;
        node, removed := Rem.RemoveFrom(t, h, true, n, key);
        if removed {
          size := size - 1;
        }
        BalancedDepth(t, h, node);
        root := Some(node);
        if |node.keys| == 0 {
          if node.IsLeaf() {
            root := None;
          } else {
            root := Some(node.children[0]);
            BalancedDepth(t, h - 1, node.children[0]);
          }
        }
    }

    /** Lookup by key. */
    method Search(key: int) returns (found: Option<V>)
      requires Valid()
      ensures found == if key in Model() then Some(Model()[key]) else None
    {
      AsMapDomain(Contents(), key);
      match root
      case None =>
        return None;
      case Some(n) =>
        found := Scan.Find(t, Depth(n), n, key);
        if found.Some? {
          Bound(Entries(n), key, found.value);
        }
    }

    /** Assignment through the pointer `search` returned for a key that is present. */
    method Store(key: int, value: V)
      requires Valid() && key in Model()
      modifies this
      ensures Valid() && size == old(size)
      ensures Model() == old(Model())[key := value]
    {
      AsMapDomain(Contents(), key);
      var n := root.value;
      ghost var h := Depth(n);
      var node := Scan.Store(t, h, n, key, value);
      Scan.StoredIsUpdate(Entries(n), key, value);
      BalancedDepth(t, h, node);
      root := Some(node);
    }

    /** Full traversal, in ascending key order. */
    method ForEachInOrder() returns (visited: seq<Entry<V>>)
      requires Valid()
      ensures visited == Contents() && Ascending(visited) && AsMap(visited) == Model()
    {
      match root
      case None => return [];
      case Some(n) => visited := Scan.InOrder(t, Depth(n), n);
    }

    /** Inclusive range scan; empty when the bounds cross. */
    method ForEachRange(lo: int, hi: int) returns (visited: seq<Entry<V>>)
      requires Valid()
      ensures visited == Scan.Within(Contents(), lo, hi) && Ascending(visited)
    {
      Scan.WithinAscending(Contents(), lo, hi);
      match root
      case None => return [];
      case Some(n) => visited := Scan.RangeVisit(t, Depth(n), n, lo, hi);
    }

    /** The number of levels, which the occupancy invariant keeps logarithmic in the entry count. */
    method Height() returns (h: nat)
      requires Valid()
      ensures h == 0 <==> root.None?
      ensures root.Some? ==> h == Depth(root.value) && size >= 2 * Pow(t, h - 1) - 1
    {
      match root
      case None => return 0;
      case Some(n) =>
        var node := n;
        h := 1;
        while !node.IsLeaf()
          invariant h + Depth(node) == 1 + Depth(n)
          decreases node
        {
          node := node.children[0];
          h := h + 1;
        }
        HeightBound(t, h, n);
    }

    /** The debug hook says yes exactly on trees that satisfy the invariant. */
    method CheckInvariants() returns (ok: bool)
      requires t >= 2
      ensures ok <==> Valid()
    {
      match root
      case None => return size == 0;
      case Some(n) =>
        var leafDepth, counted;
        ok, leafDepth, counted := CheckNode(t, n, 0, true, None, None, -1, 0);
        ok := ok && counted == size;
    }
  }

  /** A new root above the old one reads the same. */
  lemma LoneChild<V>(n: Node<V>)
    ensures Entries(Node([], [], [n])) == Entries(n)
  {
  }

  lemma Bound<V>(s: seq<Entry<V>>, key: int, value: V)
    requires Ascending(s) && (key, value) in s
    ensures key in AsMap(s) && AsMap(s)[key] == value
  {
    var i :| 0 <= i < |s| && s[i] == (key, value);
    AsMapAt(s, i);
  }
}
