/** Insertion with preemptive splitting: full nodes are split on the way down, so no step backs up. */
module BTreeInsert {
  import opened BTreeNodes
  import opened Sequences

  /** The node made of keys `lo..hi` of a node and the children around them. */
  function Slice<V>(n: Node<V>, lo: nat, hi: nat): Node<V>
    requires lo <= hi <= |n.keys| == |n.values| && (n.IsLeaf() || |n.children| == |n.keys| + 1)
  {
    Node(n.keys[lo..hi], n.values[lo..hi], if n.IsLeaf() then [] else n.children[lo..hi + 1])
  }

  lemma SliceBalanced<V>(t: nat, h: nat, n: Node<V>, lo: nat, hi: nat)
    requires Balanced(t, h, n) && lo <= hi <= |n.keys|
    ensures Balanced(t, h, Slice(n, lo, hi)) && Own(Slice(n, lo, hi)) == Own(n)[lo..hi]
  {
    ZipSlice(n.keys, n.values, lo, hi);
  }

  lemma SplitAt<E>(s: seq<E>, m: nat)
    requires m < |s|
    ensures s == s[0..m] + [s[m]] + s[m + 1..|s|]
  {
  }

  /** A node read as the slice below key `m`, that key, and the slice above it. */
  lemma SliceReads<V>(t: nat, h: nat, n: Node<V>, m: nat)
    requires Balanced(t, h, n) && m < |n.keys|
    ensures Entries(n) == Pair(Slice(n, 0, m), Own(n)[m], Slice(n, m + 1, |n.keys|))
  {
    SliceBalanced(t, h, n, 0, m);
    SliceBalanced(t, h, n, m + 1, |n.keys|);
    SplitAt(Own(n), m);
    hide Zip, Flat, Entries;
    assert n.children == Slice(n, 0, m).children + Slice(n, m + 1, |n.keys|).children;
    JoinedReads(n, Slice(n, 0, m), Own(n)[m], Slice(n, m + 1, |n.keys|));
  }

  /** Splits the full child `i`: its median rises into the parent and its upper half becomes a new right sibling. */
  method SplitChild<V>(t: nat, ghost h: nat, parent: Node<V>, i: nat) returns (parent': Node<V>)
    requires t >= 2 && h >= 2 && Balanced(t, h, parent) && |parent.keys| < 2 * t - 1
    requires i < |parent.children| && |parent.children[i].keys| == 2 * t - 1
    ensures Balanced(t, h, parent') && Entries(parent') == Entries(parent)
    ensures |parent'.keys| == |parent.keys| + 1
    ensures forall j :: 0 <= j < i ==> parent'.keys[j] == parent.keys[j]
    ensures forall j :: i < j < |parent'.keys| ==> parent'.keys[j] == parent.keys[j - 1]
    ensures |parent'.children[i].keys| == |parent'.children[i + 1].keys| == t - 1
  {
    hide Zip, Flat, Splice, Entries, Pair;
    var child := parent.children[i];
    var mid := t - 1;
    SliceBalanced(t, h - 1, child, 0, mid);
    SliceBalanced(t, h - 1, child, mid + 1, |child.keys|);
    var left, right := Slice(child, 0, mid), Slice(child, mid + 1, |child.keys|);
    parent' := Node(
      Splice(parent.keys, i, child.keys[mid]),
      Splice(parent.values, i, child.values[mid]),
      Splice(parent.children[i := left], i + 1, right));
    SliceReads(t, h - 1, child, mid);
    assert |left.keys| == |right.keys| == t - 1;
    assert Own(child)[mid] == (child.keys[mid], child.values[mid]);
    hide Slice;
    SpliceBalanced(t, h, parent, i, parent', left, right);
    SpliceReads(parent, i, parent', left, Own(child)[mid], right);
  }

  /** A child replaced by two that read as it did, with an entry between them, leaves the parent's entries alone. */
  lemma SpliceReads<V>(n: Node<V>, i: nat, n': Node<V>, left: Node<V>, e: Entry<V>, right: Node<V>)
    requires |n.values| == |n.keys| && |n.children| == |n.keys| + 1 && i < |n.children|
    requires Entries(n.children[i]) == Pair(left, e, right)
    requires n' == Node(Splice(n.keys, i, e.0), Splice(n.values, i, e.1), Splice(n.children[i := left], i + 1, right))
    ensures Entries(n') == Entries(n)
  {
    ZipSplice(n.keys, n.values, i, e.0, e.1);
    InnerReads(n);
    InnerReads(n');
    hide Zip, Flat, Splice, Entries, Pair;
    SplitReads(n.children, Own(n), i, left, e, right);
  }

  lemma SpliceBalanced<V>(t: nat, h: nat, n: Node<V>, i: nat, n': Node<V>, left: Node<V>, right: Node<V>)
    requires h >= 2 && Balanced(t, h, n) && |n.keys| < 2 * t - 1 && i < |n.children|
    requires Balanced(t, h - 1, left) && Balanced(t, h - 1, right) && |left.keys| >= t - 1 && |right.keys| >= t - 1
    requires |n'.values| == |n'.keys| == |n.keys| + 1
    requires n'.children == Splice(n.children[i := left], i + 1, right)
    ensures Balanced(t, h, n')
  {
    hide Splice;
  }

  /** Inserts below a node that is not full; a duplicate leaves the entries as they were, whatever was split. */
  method InsertNonFull<V>(t: nat, ghost h: nat, node: Node<V>, key: int, value: V)
      returns (node': Node<V>, inserted: bool)
    requires t >= 2 && Balanced(t, h, node) && |node.keys| < 2 * t - 1 && Ascending(Entries(node))
    ensures Balanced(t, h, node') && |node'.keys| >= |node.keys|
    ensures inserted <==> !HasKey(Entries(node), key)
    ensures Entries(node') == if inserted then Inserted(Entries(node), key, value) else Entries(node)
    decreases h, 1
  {
    var i := LowerBound(node.keys, key);
    if i < |node.keys| && node.keys[i] == key {
      OwnKeyPresent(t, h, node, i);
      return node, false;
    }
    if node.IsLeaf() {
      node' := Node(Splice(node.keys, i, key), Splice(node.values, i, value), []);
      InsertInLeaf(node, i, key, value, node');
      return node', true;
    }
    node' := node;
    if |node'.children[i].keys| == 2 * t - 1 {
      node' := SplitChild(t, h, node', i);
      if node'.keys[i] == key {
        OwnKeyPresent(t, h, node', i);
        return node', false;
      }
      if node'.keys[i] < key {
        i := i + 1;
      }
    }
    node', inserted := InsertInChild(t, h, node', i, key, value);
  }

  /** The tail call: the descent continues in child `i`, which is not full and brackets the key. */
  method InsertInChild<V>(t: nat, ghost h: nat, node: Node<V>, i: nat, key: int, value: V)
      returns (node': Node<V>, inserted: bool)
    requires t >= 2 && h >= 2 && Balanced(t, h, node) && Ascending(Entries(node))
    requires i < |node.children| && |node.children[i].keys| < 2 * t - 1
    requires i > 0 ==> node.keys[i - 1] < key
    requires i < |node.keys| ==> key < node.keys[i]
    ensures Balanced(t, h, node') && node'.keys == node.keys
    ensures inserted <==> !HasKey(Entries(node), key)
    ensures Entries(node') == if inserted then Inserted(Entries(node), key, value) else Entries(node)
    decreases h, 0
  {
    ChildOf(t, h, node, i);
    var child, ok := InsertNonFull(t, h - 1, node.children[i], key, value);
    InsertedBelow(t, h, node, i, child, ok, key, value);
    return node.(children := node.children[i := child]), ok;
  }

  lemma InsertedBelow<V>(t: nat, h: nat, n: Node<V>, i: nat, child: Node<V>, ok: bool, key: int, value: V)
    requires t >= 2 && h >= 2 && Balanced(t, h, n) && Ascending(Entries(n)) && i < |n.children|
    requires i > 0 ==> n.keys[i - 1] < key
    requires i < |n.keys| ==> key < n.keys[i]
    requires Balanced(t, h - 1, child) && |child.keys| >= |n.children[i].keys|
    requires ok <==> !HasKey(Entries(n.children[i]), key)
    requires Entries(child) == if ok then Inserted(Entries(n.children[i]), key, value) else Entries(n.children[i])
    ensures var n' := n.(children := n.children[i := child]);
      && Balanced(t, h, n')
      && (ok <==> !HasKey(Entries(n), key))
      && Entries(n') == if ok then Inserted(Entries(n), key, value) else Entries(n)
  {
    ReplaceBalanced(t, h, n, i, child);
    var cs, es := n.children, Own(n);
    var a, c := Context(cs, es, i);
    Squeezed(a, Entries(cs[i]), c, key);
    InsertedInside(a, Entries(cs[i]), c, key, value);
    assert Own(n.(children := cs[i := child])) == es;
  }

  lemma InsertInLeaf<V>(leaf: Node<V>, i: nat, key: int, value: V, leaf': Node<V>)
    requires leaf.IsLeaf() && |leaf.values| == |leaf.keys| && i <= |leaf.keys| && Ascending(Entries(leaf))
    requires i > 0 ==> leaf.keys[i - 1] < key
    requires i < |leaf.keys| ==> key < leaf.keys[i]
    requires leaf' == Node(Splice(leaf.keys, i, key), Splice(leaf.values, i, value), [])
    ensures !HasKey(Entries(leaf), key)
    ensures Entries(leaf') == Inserted(Entries(leaf), key, value)
  {
    InsertedAt(Own(leaf), i, key, value);
    AbsentAt(Own(leaf), i, key);
    ZipSplice(leaf.keys, leaf.values, i, key, value);
  }
}
