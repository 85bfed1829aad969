/** Single-pass deletion: every step enters the root or a node with at least `t` keys, so nothing backs up. */
module BTreeRemove {
  import opened BTreeNodes
  import opened Sequences

  // ---- Rebalancing one child; none of these changes what the node reads as ----

  lemma SwapBalanced<V>(t: nat, h: nat, n: Node<V>, i: nat, left: Node<V>, e: Entry<V>, right: Node<V>, n': Node<V>)
    requires h >= 2 && Balanced(t, h, n) && i < |n.keys|
    requires Balanced(t, h - 1, left) && Balanced(t, h - 1, right) && |left.keys| >= t - 1 && |right.keys| >= t - 1
    requires n' == Node(n.keys[i := e.0], n.values[i := e.1], n.children[i := left][i + 1 := right])
    ensures Balanced(t, h, n')
  {
  }

  /** A node read around separator `i`, before and after the separator and the children beside it are swapped. */
  lemma SwapReads<V>(n: Node<V>, i: nat, left: Node<V>, e: Entry<V>, right: Node<V>, n': Node<V>)
      returns (a: seq<Entry<V>>, c: seq<Entry<V>>)
    requires i < |n.keys| == |n.values| && |n.children| == |n.keys| + 1
    requires n' == Node(n.keys[i := e.0], n.values[i := e.1], n.children[i := left][i + 1 := right])
    ensures Entries(n) == a + Pair(n.children[i], Own(n)[i], n.children[i + 1]) + c
    ensures Entries(n') == a + Pair(left, e, right) + c
  {
    InnerReads(n);
    InnerReads(n');
    hide Entries, Flat, Pair, Zip;
    a, c := PairContext(n.children, Own(n), i);
    ZipUpdate(n.keys, n.values, i, e.0, e.1);
  }

  /** Two ways of cutting one joined node read alike inside a parent. */
  lemma Rotated<V>(t: nat, h: nat, n: Node<V>, i: nat, left: Node<V>, e: Entry<V>, right: Node<V>, n': Node<V>)
    requires h >= 2 && Balanced(t, h, n) && i < |n.keys|
    requires Balanced(t, h - 1, left) && Balanced(t, h - 1, right) && |left.keys| >= t - 1 && |right.keys| >= t - 1
    requires Join(left, e, right) == Join(n.children[i], Own(n)[i], n.children[i + 1])
    requires n' == Node(n.keys[i := e.0], n.values[i := e.1], n.children[i := left][i + 1 := right])
    ensures Balanced(t, h, n') && Entries(n') == Entries(n)
  {
    hide Zip, Entries, Pair, Join;
    SwapBalanced(t, h, n, i, left, e, right, n');
    JoinReads(t, h - 1, left, e, right);
    JoinReads(t, h - 1, n.children[i], Own(n)[i], n.children[i + 1]);
    var a, c := SwapReads(n, i, left, e, right, n');
  }

  /** Rotate right: the separator drops into child `i`, the left sibling's last key rises. */
  method BorrowFromPrev<V>(t: nat, ghost h: nat, node: Node<V>, i: nat) returns (node': Node<V>)
    requires t >= 2 && h >= 2 && Balanced(t, h, node) && 0 < i < |node.children|
    requires |node.children[i - 1].keys| >= t && |node.children[i].keys| == t - 1
    ensures Balanced(t, h, node') && Entries(node') == Entries(node)
    ensures node'.keys == node.keys[i - 1 := node.children[i - 1].keys[|node.children[i - 1].keys| - 1]]
    ensures |node'.children[i].keys| == t
  {
    hide Zip, Flat, Entries;
    var child, left := node.children[i], node.children[i - 1];
    var last := |left.keys| - 1;
    var child' := Node([node.keys[i - 1]] + child.keys, [node.values[i - 1]] + child.values,
                       if left.IsLeaf() then child.children else [left.children[last + 1]] + child.children);
    var left' := Node(left.keys[..last], left.values[..last],
                      if left.IsLeaf() then [] else left.children[..last + 1]);
    node' := Node(node.keys[i - 1 := left.keys[last]], node.values[i - 1 := left.values[last]],
                  node.children[i - 1 := left'][i := child']);
    assert Own(node)[i - 1] == (node.keys[i - 1], node.values[i - 1]);
    EntryMovedRight(t, h - 1, left, Own(node)[i - 1], child, left', child');
    hide Balanced, Join;
    Rotated(t, h, node, i - 1, left', (left.keys[last], left.values[last]), child', node');
  }

  /** The last entry of `left` becomes the separator and the separator the first entry of `right`. */
  lemma EntryMovedRight<V>(t: nat, h: nat, left: Node<V>, e: Entry<V>, right: Node<V>, left': Node<V>, right': Node<V>)
    requires Balanced(t, h, left) && Balanced(t, h, right) && |left.keys| > 0 && |right.keys| < 2 * t - 1
    requires var last := |left.keys| - 1;
      && left' == Node(left.keys[..last], left.values[..last],
                       if left.IsLeaf() then [] else left.children[..last + 1])
      && right' == Node([e.0] + right.keys, [e.1] + right.values,
                        if left.IsLeaf() then right.children else [left.children[last + 1]] + right.children)
    ensures Balanced(t, h, left') && Balanced(t, h, right')
    ensures var last := |left.keys| - 1;
      Join(left', (left.keys[last], left.values[last]), right') == Join(left, e, right)
  {
    ShiftRight(left.keys, [e.0], right.keys);
    ShiftRight(left.values, [e.1], right.values);
    if !left.IsLeaf() {
      ShiftRight(left.children, [], right.children);
    }
  }

  method BorrowFromNext<V>(t: nat, ghost h: nat, node: Node<V>, i: nat) returns (node': Node<V>)
    requires t >= 2 && h >= 2 && Balanced(t, h, node) && i + 1 < |node.children|
    requires |node.children[i + 1].keys| >= t && |node.children[i].keys| == t - 1
    ensures Balanced(t, h, node') && Entries(node') == Entries(node)
    ensures node'.keys == node.keys[i := node.children[i + 1].keys[0]]
    ensures |node'.children[i].keys| == t
  {
    hide Zip, Flat, Entries;
    var child, right := node.children[i], node.children[i + 1];
    var child' := Node(child.keys + [node.keys[i]], child.values + [node.values[i]],
                       if right.IsLeaf() then child.children else child.children + [right.children[0]]);
    var right' := Node(right.keys[1..], right.values[1..], if right.IsLeaf() then [] else right.children[1..]);
    node' := Node(node.keys[i := right.keys[0]], node.values[i := right.values[0]],
                  node.children[i := child'][i + 1 := right']);
    ShiftLeft(child.keys, [node.keys[i]], right.keys);
    ShiftLeft(child.values, [node.values[i]], right.values);
    if !right.IsLeaf() {
      ShiftLeft(child.children, [], right.children);
    }
    Rotated(t, h, node, i, child', (right.keys[0], right.values[0]), right', node');
  }

  /** Child `i`, separator `i` and child `i + 1` become one child; both are at minimum occupancy, so it just fits. */
  method MergeChildren<V>(t: nat, ghost h: nat, node: Node<V>, i: nat) returns (node': Node<V>)
    requires t >= 2 && h >= 2 && Balanced(t, h, node) && i + 1 < |node.children|
    requires |node.children[i].keys| == |node.children[i + 1].keys| == t - 1
    ensures Balanced(t, h, node') && Entries(node') == Entries(node)
    ensures node'.keys == Cut(node.keys, i)
    ensures |node'.children[i].keys| == 2 * t - 1
  {
    hide Zip, Flat, Cut;
    var merged := Join(node.children[i], (node.keys[i], node.values[i]), node.children[i + 1]);
    node' := Node(Cut(node.keys, i), Cut(node.values, i), Cut(node.children[i := merged], i + 1));
    JoinReads(t, h - 1, node.children[i], Own(node)[i], node.children[i + 1]);
    MergedReads(node.children, Own(node), i, merged);
    ZipErase(node.keys, node.values, i);
    JoinBalanced(t, h - 1, node.children[i], Own(node)[i], node.children[i + 1]);
  }

  lemma JoinBalanced<V>(t: nat, h: nat, left: Node<V>, e: Entry<V>, right: Node<V>)
    requires t >= 2 && Balanced(t, h, left) && Balanced(t, h, right) && |left.keys| == |right.keys| == t - 1
    ensures Balanced(t, h, Join(left, e, right))
  {
  }

  /** Tops up child `i` from minimum occupancy. Child `j` of the result covers the gap that child `i` covered. */
  method FillChild<V>(t: nat, ghost h: nat, node: Node<V>, i: nat) returns (node': Node<V>, ghost j: nat)
    requires t >= 2 && h >= 2 && Balanced(t, h, node) && |node.keys| >= 1 && Ascending(Entries(node))
    requires i < |node.children| && |node.children[i].keys| < t
    ensures Balanced(t, h, node') && Entries(node') == Entries(node)
    ensures |node.keys| - 1 <= |node'.keys| <= |node.keys|
    ensures j < |node'.children| && |node'.children[j].keys| >= t
    ensures j > 0 ==> i > 0 && node'.keys[j - 1] <= node.keys[i - 1]
    ensures j < |node'.keys| ==> i < |node.keys| && node.keys[i] <= node'.keys[j]
  {
    hide Zip, Flat, Entries, Cut;
    OwnKeysSorted(t, h, node);
    if i > 0 && |node.children[i - 1].keys| >= t {
      EndsInside(t, h, node, i - 1);
      node' := BorrowFromPrev(t, h, node, i);
      j := i;
    } else if i < |node.children| - 1 && |node.children[i + 1].keys| >= t {
      EndsInside(t, h, node, i + 1);
      node' := BorrowFromNext(t, h, node, i);
      j := i;
    } else if i > 0 {
      node' := MergeChildren(t, h, node, i - 1);
      j := i - 1;
    } else {
      node' := MergeChildren(t, h, node, i);
      j := i;
    }
  }

  /** A child's own first and last keys lie between the separators around it. */
  lemma EndsInside<V>(t: nat, h: nat, n: Node<V>, i: nat)
    requires h >= 2 && Balanced(t, h, n) && Ascending(Entries(n)) && i < |n.children| && |n.children[i].keys| > 0
    ensures i > 0 ==> n.keys[i - 1] < n.children[i].keys[0]
    ensures i < |n.keys| ==> n.children[i].keys[|n.children[i].keys| - 1] < n.keys[i]
  {
    var c := n.children[i];
    ChildOrder(n.children, Own(n), i);
    OwnKeyAt(t, h - 1, c, 0);
    OwnKeyAt(t, h - 1, c, |c.keys| - 1);
  }

  // ---- Taking the extreme entry of a subtree ----

  method TakeMax<V>(t: nat, ghost h: nat, node: Node<V>) returns (node': Node<V>, key: int, value: V)
    requires t >= 2 && Balanced(t, h, node) && |node.keys| >= t && Ascending(Entries(node))
    ensures Balanced(t, h, node') && |node'.keys| >= t - 1
    ensures Entries(node) == Entries(node') + [(key, value)]
    decreases h
  {
    hide Zip, Entries, Flat;
    if node.IsLeaf() {
      var last := |node.keys| - 1;
      key, value := node.keys[last], node.values[last];
      node' := Node(node.keys[..last], node.values[..last], []);
      LastOfLeaf(node, node');
      return;
    }
    node' := node;
    var last := |node'.children| - 1;
    if |node'.children[last].keys| < t {
      ghost var j;
      node', j := FillChild(t, h, node', last);
      last := |node'.children| - 1;
    }
    ChildOf(t, h, node', last);
    var child, k, v := TakeMax(t, h - 1, node'.children[last]);
    TookLast(t, h, node', child, (k, v));
    key, value, node' := k, v, node'.(children := node'.children[last := child]);
  }

  lemma LastOfLeaf<V>(leaf: Node<V>, leaf': Node<V>)
    requires leaf.IsLeaf() && |leaf.values| == |leaf.keys| > 0
    requires var last := |leaf.keys| - 1; leaf' == Node(leaf.keys[..last], leaf.values[..last], [])
    ensures var last := |leaf.keys| - 1; Entries(leaf) == Entries(leaf') + [(leaf.keys[last], leaf.values[last])]
  {
    var last := |leaf.keys| - 1;
    ZipSlice(leaf.keys, leaf.values, 0, last);
    assert leaf.keys[0..last] == leaf.keys[..last] && leaf.values[0..last] == leaf.values[..last];
    OwnKey(leaf, last);
    hide Zip;
    assert Own(leaf) == Own(leaf)[0..last] + [Own(leaf)[last]];
  }

  lemma TookLast<V>(t: nat, h: nat, n: Node<V>, child: Node<V>, e: Entry<V>)
    requires h >= 2 && Balanced(t, h, n) && Balanced(t, h - 1, child) && |child.keys| >= t - 1
    requires Entries(n.children[|n.keys|]) == Entries(child) + [e]
    ensures var n' := n.(children := n.children[|n.keys| := child]);
      Balanced(t, h, n') && Entries(n) == Entries(n') + [e]
  {
    var a, c := Context(n.children, Own(n), |n.keys|);
    ReplaceBalanced(t, h, n, |n.keys|, child);
    assert Own(n.(children := n.children[|n.keys| := child])) == Own(n);
    Assoc(a, Entries(child), [e]);
  }

  lemma TookFirst<V>(t: nat, h: nat, n: Node<V>, child: Node<V>, e: Entry<V>)
    requires h >= 2 && Balanced(t, h, n) && Balanced(t, h - 1, child) && |child.keys| >= t - 1
    requires Entries(n.children[0]) == [e] + Entries(child)
    ensures var n' := n.(children := n.children[0 := child]);
      Balanced(t, h, n') && Entries(n) == [e] + Entries(n')
  {
    var a, c := Context(n.children, Own(n), 0);
    ReplaceBalanced(t, h, n, 0, child);
    assert Own(n.(children := n.children[0 := child])) == Own(n);
    Assoc([e], Entries(child), c);
  }

  method TakeMin<V>(t: nat, ghost h: nat, node: Node<V>) returns (node': Node<V>, key: int, value: V)
    requires t >= 2 && Balanced(t, h, node) && |node.keys| >= t && Ascending(Entries(node))
    ensures Balanced(t, h, node') && |node'.keys| >= t - 1
    ensures Entries(node) == [(key, value)] + Entries(node')
    decreases h
  {
    if node.IsLeaf() {
      key, value := node.keys[0], node.values[0];
      node' := Node(node.keys[1..], node.values[1..], []);
      ZipSlice(node.keys, node.values, 1, |node.keys|);
      assert node.keys[1..|node.keys|] == node.keys[1..] && node.values[1..|node.keys|] == node.values[1..];
      return;
    }
    node' := node;
    if |node'.children[0].keys| < t {
      ghost var j;
      node', j := FillChild(t, h, node', 0);
    }
    ChildOf(t, h, node', 0);
    var child, k, v := TakeMin(t, h - 1, node'.children[0]);
    TookFirst(t, h, node', child, (k, v));
    key, value, node' := k, v, node'.(children := node'.children[0 := child]);
  }

  // ---- Removing a key ----

  /** Removing from child `i`, which brackets the key, removes from the node. */
  lemma RemovedBelow<V>(t: nat, h: nat, n: Node<V>, i: nat, child: Node<V>, key: int)
    requires t >= 2 && h >= 2 && Balanced(t, h, n) && Ascending(Entries(n)) && i < |n.children|
    requires i > 0 ==> n.keys[i - 1] < key
    requires i < |n.keys| ==> key < n.keys[i]
    requires Balanced(t, h - 1, child) && |child.keys| >= t - 1
    requires Entries(child) == Without(Entries(n.children[i]), key)
    ensures var n' := n.(children := n.children[i := child]);
      && Balanced(t, h, n')
      && (HasKey(Entries(n), key) <==> HasKey(Entries(n.children[i]), key))
      && Entries(n') == Without(Entries(n), key)
  {
    ReplaceBalanced(t, h, n, i, child);
    var a, c := Context(n.children, Own(n), i);
    Squeezed(a, Entries(n.children[i]), c, key);
    WithoutInside(a, Entries(n.children[i]), c, key);
    assert Own(n.(children := n.children[i := child])) == Own(n);
  }

  /** Putting the predecessor or the successor of separator `i` in its place removes that separator. */
  lemma Replaced<V>(t: nat, h: nat, n: Node<V>, i: nat, left: Node<V>, e: Entry<V>, right: Node<V>)
    requires h >= 2 && Balanced(t, h, n) && Ascending(Entries(n)) && i < |n.keys|
    requires Balanced(t, h - 1, left) && Balanced(t, h - 1, right) && |left.keys| >= t - 1 && |right.keys| >= t - 1
    requires Pair(left, e, right) == Entries(n.children[i]) + Entries(n.children[i + 1])
    ensures var n' := Node(n.keys[i := e.0], n.values[i := e.1], n.children[i := left][i + 1 := right]);
      && Balanced(t, h, n')
      && HasKey(Entries(n), n.keys[i])
      && Entries(n') == Without(Entries(n), n.keys[i])
  {
    hide Zip, Entries;
    var n' := Node(n.keys[i := e.0], n.values[i := e.1], n.children[i := left][i + 1 := right]);
    SwapBalanced(t, h, n, i, left, e, right, n');
    var a, c := SwapReads(n, i, left, e, right, n');
    OwnKey(n, i);
    hide Balanced, Without, HasKey, Ascending;
    var l, r, s := Entries(n.children[i]), Entries(n.children[i + 1]), Own(n)[i];
    Opened(a, l, s, r, c);
    WithoutMiddle(a + l, s, r + c);
  }

  lemma Opened<V>(a: seq<Entry<V>>, l: seq<Entry<V>>, e: Entry<V>, r: seq<Entry<V>>, c: seq<Entry<V>>)
    requires Ascending(a + (l + [e] + r) + c)
    ensures a + (l + [e] + r) + c == a + l + [e] + (r + c) && a + (l + r) + c == a + l + (r + c)
    ensures Below(a + l, e.0) && Above(r + c, e.0) && HasKey(a + (l + [e] + r) + c, e.0)
  {
    Regroup(a, l, e, r, c);
    RegroupPair(a, l, r, c);
    AroundEntry(a + l, e, r + c);
    hide Ascending;
    assert (a + l + [e] + (r + c))[|a + l|] == e;
  }

  /** `isRoot` marks the one call that may enter a node with fewer than `t` keys. */
  method RemoveFrom<V>(t: nat, ghost h: nat, ghost isRoot: bool, node: Node<V>, key: int)
      returns (node': Node<V>, removed: bool)
    requires t >= 2 && Balanced(t, h, node) && Ascending(Entries(node))
    requires |node.keys| >= if isRoot then 1 else t
    ensures Balanced(t, h, node') && |node'.keys| >= |node.keys| - 1
    ensures removed <==> HasKey(Entries(node), key)
    ensures Entries(node') == Without(Entries(node), key)
    decreases h, 1
  {
    hide Zip, Flat, Entries, Cut, Without;
    var i := LowerBound(node.keys, key);
    OwnKeysSorted(t, h, node);
    var present := i < |node.keys| && node.keys[i] == key;
    if node.IsLeaf() {
      node' := if present then Node(Cut(node.keys, i), Cut(node.values, i), []) else node;
      removed := present;
      RemovedFromLeaf(node, i, key);
      return;
    }
    if present {
      node' := RemoveSeparator(t, h, node, i);
      return node', true;
    }
    node' := node;
    if |node'.children[i].keys| < t {
      ghost var j;
      node', j := FillChild(t, h, node', i);
      OwnKeysSorted(t, h, node');
      i := LowerBound(node'.keys, key);
      assert i == j;
      if i < |node'.keys| && node'.keys[i] == key {
        assert false;  // the key cannot surface here: the node is never entered twice
      }
    }
    node', removed := RemoveInChild(t, h, node', i, key);
  }

  lemma RemovedFromLeaf<V>(leaf: Node<V>, i: nat, key: int)
    requires leaf.IsLeaf() && |leaf.values| == |leaf.keys| && Ascending(Entries(leaf)) && i <= |leaf.keys|
    requires i > 0 ==> leaf.keys[i - 1] < key
    requires i < |leaf.keys| ==> key <= leaf.keys[i]
    ensures i < |leaf.keys| && leaf.keys[i] == key ==>
      && HasKey(Entries(leaf), key)
      && Entries(Node(Cut(leaf.keys, i), Cut(leaf.values, i), [])) == Without(Entries(leaf), key)
    ensures !(i < |leaf.keys| && leaf.keys[i] == key) ==>
      !HasKey(Entries(leaf), key) && Entries(leaf) == Without(Entries(leaf), key)
  {
    if i < |leaf.keys| && leaf.keys[i] == key {
      ZipErase(leaf.keys, leaf.values, i);
      WithoutAt(Own(leaf), i);
      assert Own(leaf)[i].0 == key;
    } else {
      AbsentAt(Own(leaf), i, key);
      WithoutAbsent(Own(leaf), key);
    }
  }

  /** The key is separator `i`: take the predecessor or successor in its place, or sink it into the merged child. */
  method RemoveSeparator<V>(t: nat, ghost h: nat, node: Node<V>, i: nat) returns (node': Node<V>)
    requires t >= 2 && h >= 2 && Balanced(t, h, node) && Ascending(Entries(node)) && i < |node.keys|
    ensures Balanced(t, h, node') && |node'.keys| >= |node.keys| - 1
    ensures HasKey(Entries(node), node.keys[i])
    ensures Entries(node') == Without(Entries(node), node.keys[i])
    decreases h, 0
  {
    hide Zip, Flat, Without, HasKey;
    ChildOf(t, h, node, i);
    ChildOf(t, h, node, i + 1);
    var left, right := node.children[i], node.children[i + 1];
    if |left.keys| >= t {
      var left', k, v := TakeMax(t, h - 1, left);
      Replaced(t, h, node, i, left', (k, v), right);
      return Node(node.keys[i := k], node.values[i := v], node.children[i := left'][i + 1 := right]);
    }
    if |right.keys| >= t {
      var right', k, v := TakeMin(t, h - 1, right);
      Assoc(Entries(left), [(k, v)], Entries(right'));
      Replaced(t, h, node, i, left, (k, v), right');
      return Node(node.keys[i := k], node.values[i := v], node.children[i := left][i + 1 := right']);
    }
    OwnKeysSorted(t, h, node);
    node' := MergeChildren(t, h, node, i);
    assert i < |node'.keys| ==> node'.keys[i] == node.keys[i + 1];
    OwnKeyPresent(t, h, node, i);
    var removed;
    node', removed := RemoveInChild(t, h, node', i, node.keys[i]);
  }

  /** The descent continues in child `i`, which has at least `t` keys and brackets the key. */
  method RemoveInChild<V>(t: nat, ghost h: nat, node: Node<V>, i: nat, key: int) returns (node': Node<V>, removed: bool)
    requires t >= 2 && h >= 2 && Balanced(t, h, node) && Ascending(Entries(node))
    requires i < |node.children| && |node.children[i].keys| >= t
    requires i > 0 ==> node.keys[i - 1] < key
    requires i < |node.keys| ==> key < node.keys[i]
    ensures Balanced(t, h, node') && node'.keys == node.keys
    ensures removed <==> HasKey(Entries(node), key)
    ensures Entries(node') == Without(Entries(node), key)
    decreases h - 1, 2
  {
    ChildOf(t, h, node, i);
    var child, ok := RemoveFrom(t, h - 1, false, node.children[i], key);
    RemovedBelow(t, h, node, i, child, key);
    return node.(children := node.children[i := child]), ok;
  }
}
