/** The self-check `checkInvariants`: its local, accumulator-threading test decides the declared invariant. */
module BTreeCheck {
  import opened BTreeNodes
  import opened Options

  /** The number of levels along the leftmost path. */
  ghost function Depth<V>(n: Node<V>): (d: nat)
    ensures d >= 1
  {
    if n.IsLeaf() then 1 else 1 + Depth(n.children[0])
  }

  lemma {:induction false} BalancedDepth<V>(t: nat, h: nat, n: Node<V>)
    requires Balanced(t, h, n)
    ensures Depth(n) == h
  {
    if h > 1 {
      BalancedDepth(t, h - 1, n.children[0]);
    }
  }

  ghost predicate Bounded<V>(s: seq<Entry<V>>, lower: Option<int>, upper: Option<int>) {
    (lower.Some? ==> Above(s, lower.value)) && (upper.Some? ==> Below(s, upper.value))
  }

  /** The declared invariant of a subtree: shape, occupancy, global order, and separation from the limits. */
  ghost predicate Fits<V>(t: nat, h: nat, isRoot: bool, lower: Option<int>, upper: Option<int>, n: Node<V>) {
    && Balanced(t, h, n)
    && |n.keys| >= (if isRoot then 1 else t - 1)
    && Ascending(Entries(n))
    && Bounded(Entries(n), lower, upper)
  }

  /** What one node can check by looking at its own vectors. */
  ghost predicate Local<V>(t: nat, isRoot: bool, lower: Option<int>, upper: Option<int>, n: Node<V>) {
    && |n.values| == |n.keys| <= 2 * t - 1
    && |n.keys| >= (if isRoot then 1 else t - 1)
    && (forall i :: 0 <= i < |n.keys| ==> KeyFits(n.keys, i, lower, upper))
  }

  predicate KeyFits(keys: seq<int>, i: nat, lower: Option<int>, upper: Option<int>)
    requires i < |keys|
  {
    && (i > 0 ==> keys[i - 1] < keys[i])
    && (lower.Some? ==> lower.value < keys[i])
    && (upper.Some? ==> keys[i] < upper.value)
  }

  function ChildLower(keys: seq<int>, i: nat, lower: Option<int>): Option<int>
    requires i <= |keys|
  {
    if i == 0 then lower else Some(keys[i - 1])
  }

  function ChildUpper(keys: seq<int>, i: nat, upper: Option<int>): Option<int>
    requires i <= |keys|
  {
    if i == |keys| then upper else Some(keys[i])
  }

  ghost predicate ChildFits<V>(t: nat, h: nat, lower: Option<int>, upper: Option<int>, n: Node<V>, i: nat)
    requires i < |n.children| == |n.keys| + 1
  {
    Fits(t, h, false, ChildLower(n.keys, i, lower), ChildUpper(n.keys, i, upper), n.children[i])
  }

  // ---- The local tests and the children's invariants amount to the node's invariant ----

  lemma FitsInside<V>(t: nat, h: nat, isRoot: bool, lower: Option<int>, upper: Option<int>, n: Node<V>, i: nat)
    requires t >= 2 && h >= 2 && Fits(t, h, isRoot, lower, upper, n) && i < |n.children|
    ensures ChildFits(t, h - 1, lower, upper, n, i)
  {
    var a, c := Context(n.children, Own(n), i);
    ChildOrder(n.children, Own(n), i);
    BoundedPart(a, Entries(n.children[i]), c, lower, upper);
  }

  lemma BoundedPart<V>(a: seq<Entry<V>>, b: seq<Entry<V>>, c: seq<Entry<V>>, lower: Option<int>, upper: Option<int>)
    requires Bounded(a + b + c, lower, upper)
    ensures Bounded(b, lower, upper)
  {
    var s := a + b + c;
    assert forall i :: 0 <= i < |b| ==> s[|a| + i] == b[i];
  }

  lemma FitsLocal<V>(t: nat, h: nat, isRoot: bool, lower: Option<int>, upper: Option<int>, n: Node<V>)
    requires Fits(t, h, isRoot, lower, upper, n)
    ensures Local(t, isRoot, lower, upper, n)
  {
    OwnKeysSorted(t, h, n);
    forall i | 0 <= i < |n.keys| ensures KeyFits(n.keys, i, lower, upper) {
      OwnKeyBounded(t, h, n, i, lower, upper);
    }
  }

  lemma OwnKeyBounded<V>(t: nat, h: nat, n: Node<V>, i: nat, lower: Option<int>, upper: Option<int>)
    requires Balanced(t, h, n) && i < |n.keys| && Bounded(Entries(n), lower, upper)
    ensures lower.Some? ==> lower.value < n.keys[i]
    ensures upper.Some? ==> n.keys[i] < upper.value
  {
    if h == 1 {
      assert Own(n)[i].0 == n.keys[i];
    } else {
      var a, c := Context(n.children, Own(n), i);
      BoundedPart(a + Entries(n.children[i]), c, [], lower, upper);
      assert a + Entries(n.children[i]) + c + [] == a + Entries(n.children[i]) + c;
    }
  }

  /** Children that fit between sorted separators read as one ascending, bounded sequence. */
  lemma {:induction false} FlatFits<V>(cs: seq<Node<V>>, es: seq<Entry<V>>, lower: Option<int>, upper: Option<int>)
    requires |cs| == |es| + 1
    requires forall i :: 0 <= i < |cs| ==> Ascending(Entries(cs[i]))
    requires lower.Some? ==> Above(Entries(cs[0]), lower.value)
    requires forall i :: 0 <= i < |es| ==> Below(Entries(cs[i]), es[i].0)
    requires forall i :: 0 <= i < |es| ==> Above(Entries(cs[i + 1]), es[i].0)
    requires upper.Some? ==> Below(Entries(cs[|es|]), upper.value)
    requires Ascending(es)
    requires Bounded(es, lower, upper)
    ensures Ascending(Flat(cs, es)) && Bounded(Flat(cs, es), lower, upper)
  {
    if |es| > 0 {
      var cs', es' := cs[1..], es[1..];
      assert forall i :: 0 <= i < |cs'| ==> cs'[i] == cs[i + 1];
      assert forall i :: 0 <= i < |es'| ==> es'[i] == es[i + 1];
      assert Above(Entries(cs[0 + 1]), es[0].0);
      FlatFits(cs', es', Some(es[0].0), upper);
      AscendingJoin(Entries(cs[0]), es[0], Flat(cs', es'));
      HeadBounded(Entries(cs[0]), es[0], Flat(cs', es'), lower, upper);
    }
  }

  lemma HeadBounded<V>(a: seq<Entry<V>>, e: Entry<V>, b: seq<Entry<V>>, lower: Option<int>, upper: Option<int>)
    requires Below(a, e.0) && Above(b, e.0) && (lower.Some? ==> Above(a, lower.value) && lower.value < e.0)
    requires upper.Some? ==> e.0 < upper.value && Below(b, upper.value)
    ensures Bounded(a + [e] + b, lower, upper)
  {
  }

  lemma FitsWhole<V>(t: nat, d: nat, isRoot: bool, lower: Option<int>, upper: Option<int>, n: Node<V>)
    requires t >= 2 && d >= 1 && Local(t, isRoot, lower, upper, n) && |n.children| == |n.keys| + 1
    requires forall i :: 0 <= i < |n.children| ==> ChildFits(t, d, lower, upper, n, i)
    ensures Fits(t, d + 1, isRoot, lower, upper, n)
  {
    OwnFits(t, isRoot, lower, upper, n);
    ChildrenOrdered(t, d, lower, upper, n);
    FlatFits(n.children, Own(n), lower, upper);
    ChildrenBalanced(t, d, lower, upper, n);
  }

  lemma ChildrenBalanced<V>(t: nat, d: nat, lower: Option<int>, upper: Option<int>, n: Node<V>)
    requires d >= 1 && |n.values| == |n.keys| <= 2 * t - 1 && |n.children| == |n.keys| + 1
    requires forall i :: 0 <= i < |n.children| ==> ChildFits(t, d, lower, upper, n, i)
    ensures Balanced(t, d + 1, n)
  {
    forall i | 0 <= i < |n.children| ensures |n.children[i].keys| >= t - 1 && Balanced(t, d, n.children[i]) {
      assert ChildFits(t, d, lower, upper, n, i);
    }
  }

  lemma ChildrenOrdered<V>(t: nat, d: nat, lower: Option<int>, upper: Option<int>, n: Node<V>)
    requires d >= 1 && |n.values| == |n.keys| && |n.children| == |n.keys| + 1
    requires forall i :: 0 <= i < |n.children| ==> ChildFits(t, d, lower, upper, n, i)
    ensures forall i :: 0 <= i < |n.children| ==> Ascending(Entries(n.children[i]))
    ensures forall i :: 0 <= i < |n.keys| ==> Above(Entries(n.children[i + 1]), Own(n)[i].0)
    ensures forall i :: 0 <= i < |n.keys| ==> Below(Entries(n.children[i]), Own(n)[i].0)
    ensures lower.Some? ==> Above(Entries(n.children[0]), lower.value)
    ensures upper.Some? ==> Below(Entries(n.children[|n.keys|]), upper.value)
  {
    forall i | 0 <= i < |n.children| ensures Ascending(Entries(n.children[i])) {
      assert ChildFits(t, d, lower, upper, n, i);
    }
    forall i | 0 <= i < |n.keys|
      ensures Above(Entries(n.children[i + 1]), Own(n)[i].0)
      ensures Below(Entries(n.children[i]), Own(n)[i].0)
    {
      assert ChildFits(t, d, lower, upper, n, i + 1);
      assert ChildFits(t, d, lower, upper, n, i);
    }
    assert ChildFits(t, d, lower, upper, n, 0) && ChildFits(t, d, lower, upper, n, |n.keys|);
  }

  lemma OwnFits<V>(t: nat, isRoot: bool, lower: Option<int>, upper: Option<int>, n: Node<V>)
    requires Local(t, isRoot, lower, upper, n)
    ensures Ascending(Own(n)) && Bounded(Own(n), lower, upper)
  {
    forall i | 0 <= i < |n.keys|
      ensures i > 0 ==> n.keys[i - 1] < n.keys[i]
      ensures lower.Some? ==> lower.value < Own(n)[i].0
      ensures upper.Some? ==> Own(n)[i].0 < upper.value
    {
      assert KeyFits(n.keys, i, lower, upper);
    }
    AdjacentSorted(n.keys);
  }

  lemma LeafFits<V>(t: nat, isRoot: bool, lower: Option<int>, upper: Option<int>, n: Node<V>)
    requires n.IsLeaf() && Local(t, isRoot, lower, upper, n)
    ensures Fits(t, 1, isRoot, lower, upper, n) && Depth(n) == 1 && |Entries(n)| == |n.keys|
  {
    OwnFits(t, isRoot, lower, upper, n);
  }

  // ---- Counting ----

  ghost function Total<V>(cs: seq<Node<V>>): nat {
    if |cs| == 0 then 0 else Total(cs[..|cs| - 1]) + |Entries(cs[|cs| - 1])|
  }

  lemma {:induction false} TotalHead<V>(cs: seq<Node<V>>)
    requires |cs| > 0
    ensures Total(cs) == |Entries(cs[0])| + Total(cs[1..])
  {
    if |cs| > 1 {
      TotalHead(cs[..|cs| - 1]);
      assert cs[..|cs| - 1][1..] == cs[1..][..|cs| - 2];
    }
  }

  lemma {:induction false} FlatLength<V>(cs: seq<Node<V>>, es: seq<Entry<V>>)
    requires |cs| == |es| + 1
    ensures |Flat(cs, es)| == |es| + Total(cs)
  {
    TotalHead(cs);
    if |es| > 0 {
      FlatLength(cs[1..], es[1..]);
    }
  }

  lemma EntriesLength<V>(n: Node<V>)
    requires |n.values| == |n.keys| && !n.IsLeaf() && |n.children| == |n.keys| + 1
    ensures |Entries(n)| == |n.keys| + Total(n.children)
  {
    FlatLength(n.children, Own(n));
  }

  ghost function Pow(b: nat, e: nat): nat {
    if e == 0 then 1 else b * Pow(b, e - 1)
  }

  /** Minimum occupancy compounds: a subtree of `h` levels below the root holds at least t^h - 1 entries. */
  lemma {:induction false} MinEntries<V>(t: nat, h: nat, n: Node<V>)
    requires t >= 2 && Balanced(t, h, n) && |n.keys| >= t - 1
    ensures |Entries(n)| >= Pow(t, h) - 1
    decreases h, 1
  {
    if h == 1 {
      assert Pow(t, 1) == t * Pow(t, 0) == t;
    } else {
      EntriesAtLeast(t, h, n);
      Times(|n.keys| + 1, t, Pow(t, h - 1));
    }
  }

  lemma EntriesAtLeast<V>(t: nat, h: nat, n: Node<V>)
    requires t >= 2 && h >= 2 && Balanced(t, h, n)
    ensures |Entries(n)| >= (|n.keys| + 1) * Pow(t, h - 1) - 1
    decreases h, 0
  {
    forall i | 0 <= i < |n.children| ensures |Entries(n.children[i])| >= Pow(t, h - 1) - 1 {
      MinEntries(t, h - 1, n.children[i]);
    }
    var p: int := Pow(t, h - 1);
    TotalAtLeast(n.children, p - 1);
    FlatLength(n.children, Own(n));
    Spread(|n.keys|, p);
  }

  lemma Spread(k: int, p: int)
    ensures k + (k + 1) * (p - 1) == (k + 1) * p - 1
  {
  }

  lemma {:induction false} TotalAtLeast<V>(cs: seq<Node<V>>, m: int)
    requires forall i :: 0 <= i < |cs| ==> |Entries(cs[i])| >= m
    ensures Total(cs) >= |cs| * m
  {
    if |cs| > 0 {
      TotalAtLeast(cs[..|cs| - 1], m);
      OneMore(|cs|, m);
    }
  }

  lemma OneMore(n: int, m: int)
    ensures n * m == (n - 1) * m + m
  {
  }

  lemma Times(a: nat, b: nat, c: nat)
    requires a >= b
    ensures a * c >= b * c
  {
  }

  /** A valid tree of height `h` holds at least 2t^(h-1) - 1 entries, so its height is logarithmic. */
  lemma HeightBound<V>(t: nat, h: nat, root: Node<V>)
    requires t >= 2 && Fits(t, h, true, None, None, root)
    ensures |Entries(root)| >= 2 * Pow(t, h - 1) - 1
  {
    if h >= 2 {
      EntriesAtLeast(t, h, root);
      Times(|root.keys| + 1, 2, Pow(t, h - 1));
    }
  }

  // ---- The check itself ----

  /** `checkNode`, with the leaf depth and the count threaded through. */
  method CheckNode<V>(t: nat, node: Node<V>, depth: nat, isRoot: bool, lower: Option<int>, upper: Option<int>,
                      leafDepth0: int, counted0: nat)
      returns (ok: bool, leafDepth: int, counted: nat)
    requires t >= 2 && leafDepth0 >= -1
    ensures leafDepth >= -1
    ensures ok <==> Fits(t, Depth(node), isRoot, lower, upper, node)
                    && (leafDepth0 == -1 || leafDepth0 == depth + Depth(node) - 1)
    ensures ok ==> leafDepth == depth + Depth(node) - 1 && counted == counted0 + |Entries(node)|
    decreases node
  {
    hide Entries, Balanced, Fits;
    leafDepth, counted := leafDepth0, counted0;
    var local := CheckLocal(t, node, isRoot, lower, upper);
    if !local {
      NotLocal(t, isRoot, lower, upper, node);
      return false, leafDepth, counted;
    }
    var n := |node.keys|;
    counted := counted + n;
    if node.IsLeaf() {
      LeafFits(t, isRoot, lower, upper, node);
      if leafDepth == -1 {
        leafDepth := depth;
      }
      return leafDepth == depth, leafDepth, counted;
    }
    if |node.children| != n + 1 {
      NotCounted(t, isRoot, lower, upper, node);
      return false, leafDepth, counted;
    }
    var i := 0;
    ghost var d := Depth(node) - 1;
    while i <= n
      invariant 0 <= i <= n + 1
      invariant forall j :: 0 <= j < i ==> ChildFits(t, d, lower, upper, node, j)
      invariant if i == 0 then leafDepth == leafDepth0 else
                  leafDepth == depth + Depth(node) - 1 && (leafDepth0 == -1 || leafDepth0 == leafDepth)
      invariant counted == counted0 + n + Total(node.children[..i])
    {
      ok, leafDepth, counted := CheckNode(t, node.children[i], depth + 1, false,
                                          ChildLower(node.keys, i, lower), ChildUpper(node.keys, i, upper),
                                          leafDepth, counted);
      if !ok {
        ChildFails(t, isRoot, lower, upper, node, i);
        return;
      }
      assert node.children[..i + 1][..i] == node.children[..i];
      i := i + 1;
    }
    FitsWhole(t, d, isRoot, lower, upper, node);
    EntriesLength(node);
    assert node.children[..i] == node.children;
    ok := true;
  }

  lemma NotCounted<V>(t: nat, isRoot: bool, lower: Option<int>, upper: Option<int>, n: Node<V>)
    requires !n.IsLeaf() && |n.children| != |n.keys| + 1
    ensures !Fits(t, Depth(n), isRoot, lower, upper, n)
  {
  }

  lemma NotLocal<V>(t: nat, isRoot: bool, lower: Option<int>, upper: Option<int>, n: Node<V>)
    requires !Local(t, isRoot, lower, upper, n)
    ensures !Fits(t, Depth(n), isRoot, lower, upper, n)
  {
    if Fits(t, Depth(n), isRoot, lower, upper, n) {
      FitsLocal(t, Depth(n), isRoot, lower, upper, n);
    }
  }

  /** If the whole fits, every child fits at one level less. */
  lemma ChildFails<V>(t: nat, isRoot: bool, lower: Option<int>, upper: Option<int>, n: Node<V>, i: nat)
    requires t >= 2 && !n.IsLeaf() && i < |n.children| == |n.keys| + 1
    ensures Fits(t, Depth(n), isRoot, lower, upper, n) ==>
      ChildFits(t, Depth(n) - 1, lower, upper, n, i) && Depth(n.children[i]) == Depth(n) - 1
  {
    if Fits(t, Depth(n), isRoot, lower, upper, n) {
      FitsInside(t, Depth(n), isRoot, lower, upper, n, i);
      BalancedDepth(t, Depth(n) - 1, n.children[i]);
    }
  }

  /** The tests on one node's own vectors. */
  method CheckLocal<V>(t: nat, node: Node<V>, isRoot: bool, lower: Option<int>, upper: Option<int>) returns (ok: bool)
    requires t >= 2
    ensures ok <==> Local(t, isRoot, lower, upper, node)
  {
    var n := |node.keys|;
    if |node.values| != n { return false; }
    if !isRoot && n < t - 1 { return false; }
    if n > 2 * t - 1 { return false; }
    if isRoot && n == 0 { return false; }
    for i := 0 to n
      invariant forall j :: 0 <= j < i ==> KeyFits(node.keys, j, lower, upper)
    {
      if i > 0 && !(node.keys[i - 1] < node.keys[i]) {
        assert !KeyFits(node.keys, i, lower, upper);
        return false;
      }
      if lower.Some? && !(lower.value < node.keys[i]) {
        assert !KeyFits(node.keys, i, lower, upper);
        return false;
      }
      if upper.Some? && !(node.keys[i] < upper.value) {
        assert !KeyFits(node.keys, i, lower, upper);
        return false;
      }
    }
    return true;
  }
}
