/** B-tree nodes as values, the in-order reading of a tree, and the shape invariant.

A node owns its children exclusively, so a tree is a finite value. `Entries` reads a tree in order;
every operation of the tree is specified by what it does to that sequence.
*/
module BTreeNodes {
  import opened Sequences

  type Entry<V> = (int, V)

  /** A node: sorted keys, parallel values, and one more child than keys (no child at all in a leaf). */
  datatype Node<V> = Node(keys: seq<int>, values: seq<V>, children: seq<Node<V>>) {
    predicate IsLeaf() {
      |children| == 0
    }
  }

  // ---- Reading a tree in order ----

  function Zip<V>(keys: seq<int>, values: seq<V>): (s: seq<Entry<V>>)
    ensures |s| == if |keys| < |values| then |keys| else |values|
    ensures forall i :: 0 <= i < |s| ==> s[i] == (keys[i], values[i])
  {
    var n := if |keys| < |values| then |keys| else |values|;
    seq(n, i requires 0 <= i < n => (keys[i], values[i]))
  }

  lemma ZipSlice<V>(keys: seq<int>, values: seq<V>, lo: nat, hi: nat)
    requires |keys| == |values| && lo <= hi <= |keys|
    ensures Zip(keys[lo..hi], values[lo..hi]) == Zip(keys, values)[lo..hi]
  {
  }

  lemma ZipSplice<V>(keys: seq<int>, values: seq<V>, i: nat, key: int, value: V)
    requires |keys| == |values| && i <= |keys|
    ensures Zip(Splice(keys, i, key), Splice(values, i, value)) == Splice(Zip(keys, values), i, (key, value))
  {
  }

  lemma ZipJoin<V>(k1: seq<int>, v1: seq<V>, key: int, value: V, k2: seq<int>, v2: seq<V>)
    requires |k1| == |v1| && |k2| == |v2|
    ensures Zip(k1 + [key] + k2, v1 + [value] + v2) == Zip(k1, v1) + [(key, value)] + Zip(k2, v2)
  {
  }

  lemma ZipUpdate<V>(keys: seq<int>, values: seq<V>, i: nat, key: int, value: V)
    requires |keys| == |values| && i < |keys|
    ensures Zip(keys[i := key], values[i := value]) == Zip(keys, values)[i := (key, value)]
  {
  }

  lemma ZipErase<V>(keys: seq<int>, values: seq<V>, i: nat)
    requires |keys| == |values| && i < |keys|
    ensures Zip(Cut(keys, i), Cut(values, i)) == Cut(Zip(keys, values), i)
  {
  }

  /** The entries a node stores itself. */
  function Own<V>(n: Node<V>): seq<Entry<V>> {
    Zip(n.keys, n.values)
  }

  ghost function Entries<V>(n: Node<V>): seq<Entry<V>>
    decreases n, 1
  {
    if n.IsLeaf() then Own(n) else Flat(n.children, Own(n))
  }

  /** Children and separators read alternately, starting and ending with a child. */
  ghost function Flat<V>(cs: seq<Node<V>>, es: seq<Entry<V>>): seq<Entry<V>>
    decreases cs, 0
  {
    if |cs| == 0 then []
    else if |es| == 0 then Entries(cs[0])
    else Entries(cs[0]) + [es[0]] + Flat(cs[1..], es[1..])
  }

  /** Children each followed by its separator: what precedes a child in its parent. */
  ghost function Pre<V>(cs: seq<Node<V>>, es: seq<Entry<V>>): seq<Entry<V>> {
    if |cs| == 0 || |es| == 0 then [] else Entries(cs[0]) + [es[0]] + Pre(cs[1..], es[1..])
  }

  /** A separator and everything after it: what follows a child in its parent. */
  ghost function Rest<V>(cs: seq<Node<V>>, es: seq<Entry<V>>): seq<Entry<V>> {
    if |es| == 0 then [] else [es[0]] + Flat(cs, es[1..])
  }

  lemma {:induction false} FlatConcat<V>(a: seq<Node<V>>, ea: seq<Entry<V>>, b: seq<Node<V>>, eb: seq<Entry<V>>)
    requires |a| == |ea| && |b| == |eb| + 1
    ensures Flat(a + b, ea + eb) == Pre(a, ea) + Flat(b, eb)
  {
    if |a| == 0 {
      assert a + b == b && ea + eb == eb;
    } else {
      assert (a + b)[1..] == a[1..] + b;
      assert (ea + eb)[1..] == ea[1..] + eb;
      FlatConcat(a[1..], ea[1..], b, eb);
    }
  }

  lemma FlatHead<V>(c: Node<V>, cs: seq<Node<V>>, es: seq<Entry<V>>)
    requires |cs| == |es|
    ensures Flat([c] + cs, es) == Entries(c) + Rest(cs, es)
  {
    assert ([c] + cs)[1..] == cs;
  }

  /** The reading of a node's children, opened at child `i`. */
  lemma Around<V>(cs: seq<Node<V>>, es: seq<Entry<V>>, i: nat)
    requires |cs| == |es| + 1 && i < |cs|
    ensures Flat(cs, es) == Pre(cs[..i], es[..i]) + Entries(cs[i]) + Rest(cs[i + 1..], es[i..])
  {
    hide Flat, Pre, Rest, Entries;
    assert cs == cs[..i] + ([cs[i]] + cs[i + 1..]);
    assert es == es[..i] + es[i..];
    FlatConcat(cs[..i], es[..i], [cs[i]] + cs[i + 1..], es[i..]);
    FlatHead(cs[i], cs[i + 1..], es[i..]);
    Assoc(Pre(cs[..i], es[..i]), Entries(cs[i]), Rest(cs[i + 1..], es[i..]));
  }

  lemma {:induction false} PreLast<V>(cs: seq<Node<V>>, es: seq<Entry<V>>)
    requires |cs| == |es| > 0
    ensures Pre(cs, es) == Pre(cs[..|cs| - 1], es[..|es| - 1]) + Entries(cs[|cs| - 1]) + [es[|es| - 1]]
  {
    if |cs| == 1 {
      assert cs[1..] == [] && cs[..0] == [];
    } else {
      PreLast(cs[1..], es[1..]);
      var m := |cs| - 1;
      assert cs[1..][..m - 1] == cs[..m][1..] && es[1..][..m - 1] == es[..m][1..];
    }
  }

  /** What surrounds child `i`: the same `a` and `c`, whatever node stands there. */
  lemma Context<V>(cs: seq<Node<V>>, es: seq<Entry<V>>, i: nat) returns (a: seq<Entry<V>>, c: seq<Entry<V>>)
    requires |cs| == |es| + 1 && i < |cs|
    ensures Flat(cs, es) == a + Entries(cs[i]) + c
    ensures forall child :: Flat(cs[i := child], es) == a + Entries(child) + c
    ensures if i == 0 then |a| == 0 else |a| > 0 && a[|a| - 1] == es[i - 1]
    ensures if i == |es| then |c| == 0 else |c| > 0 && c[0] == es[i]
  {
    a, c := Pre(cs[..i], es[..i]), Rest(cs[i + 1..], es[i..]);
    Around(cs, es, i);
    forall child ensures Flat(cs[i := child], es) == a + Entries(child) + c {
      Around(cs[i := child], es, i);
      assert cs[i := child][..i] == cs[..i] && cs[i := child][i + 1..] == cs[i + 1..];
    }
    if i > 0 {
      PreLast(cs[..i], es[..i]);
    }
  }

  lemma {:induction false} FlatSplit<V>(a: seq<Node<V>>, ea: seq<Entry<V>>, e: Entry<V>,
                             b: seq<Node<V>>, eb: seq<Entry<V>>)
    requires |a| == |ea| + 1 && |b| == |eb| + 1
    ensures Flat(a + b, ea + [e] + eb) == Flat(a, ea) + [e] + Flat(b, eb)
  {
    if |ea| == 0 {
      assert (a + b)[1..] == b;
      assert (ea + [e] + eb)[1..] == eb;
    } else {
      assert (a + b)[1..] == a[1..] + b;
      assert (ea + [e] + eb)[1..] == ea[1..] + [e] + eb;
      FlatSplit(a[1..], ea[1..], e, b, eb);
    }
  }

  /** Two adjacent children and the separator between them. */
  ghost function Pair<V>(left: Node<V>, e: Entry<V>, right: Node<V>): seq<Entry<V>> {
    Entries(left) + [e] + Entries(right)
  }

  /** The node that holds everything two siblings and the separator between them hold. */
  ghost predicate Joins<V>(n: Node<V>, left: Node<V>, e: Entry<V>, right: Node<V>) {
    && Own(n) == Own(left) + [e] + Own(right)
    && n.children == left.children + right.children
    && (left.IsLeaf() <==> right.IsLeaf())
    && (!left.IsLeaf() ==> |left.children| == |Own(left)| + 1 && |right.children| == |Own(right)| + 1)
  }

  lemma JoinedReads<V>(n: Node<V>, left: Node<V>, e: Entry<V>, right: Node<V>)
    requires Joins(n, left, e, right)
    ensures Entries(n) == Pair(left, e, right)
  {
    if !left.IsLeaf() {
      FlatSplit(left.children, Own(left), e, right.children, Own(right));
    }
  }

  function Join<V>(left: Node<V>, e: Entry<V>, right: Node<V>): Node<V> {
    Node(left.keys + [e.0] + right.keys, left.values + [e.1] + right.values, left.children + right.children)
  }

  lemma JoinReads<V>(t: nat, h: nat, left: Node<V>, e: Entry<V>, right: Node<V>)
    requires Balanced(t, h, left) && Balanced(t, h, right)
    ensures Entries(Join(left, e, right)) == Pair(left, e, right)
  {
    ZipJoin(left.keys, left.values, e.0, e.1, right.keys, right.values);
    JoinedReads(Join(left, e, right), left, e, right);
  }

  lemma AroundPair<V>(cs: seq<Node<V>>, es: seq<Entry<V>>, i: nat)
    requires |cs| == |es| + 1 && i < |es|
    ensures Flat(cs, es) == Pre(cs[..i], es[..i]) + Pair(cs[i], es[i], cs[i + 1]) + Rest(cs[i + 2..], es[i + 1..])
  {
    hide Flat, Pre, Rest, Pair;
    var b, eb := cs[i + 2..], es[i + 1..];
    assert cs == cs[..i] + ([cs[i], cs[i + 1]] + b);
    assert es == es[..i] + ([es[i]] + eb);
    FlatConcat(cs[..i], es[..i], [cs[i], cs[i + 1]] + b, [es[i]] + eb);
    FlatPair(cs[i], es[i], cs[i + 1], b, eb);
    Assoc(Pre(cs[..i], es[..i]), Pair(cs[i], es[i], cs[i + 1]), Rest(b, eb));
  }

  lemma FlatPair<V>(left: Node<V>, e: Entry<V>, right: Node<V>, cs: seq<Node<V>>, es: seq<Entry<V>>)
    requires |cs| == |es|
    ensures Flat([left, right] + cs, [e] + es) == Pair(left, e, right) + Rest(cs, es)
  {
    hide Flat, Rest, Entries;
    assert [left] + ([right] + cs) == [left, right] + cs;
    FlatStep(left, e, [right] + cs, es);
    FlatHead(right, cs, es);
    Assoc(Entries(left) + [e], Entries(right), Rest(cs, es));
  }

  lemma InnerReads<V>(n: Node<V>)
    requires !n.IsLeaf()
    ensures Entries(n) == Flat(n.children, Own(n))
  {
  }

  lemma FlatStep<V>(c: Node<V>, e: Entry<V>, cs: seq<Node<V>>, es: seq<Entry<V>>)
    ensures Flat([c] + cs, [e] + es) == Entries(c) + [e] + Flat(cs, es)
  {
    assert ([c] + cs)[1..] == cs && ([e] + es)[1..] == es;
  }

  /** Replacing a pair by one child with the same reading changes nothing. */
  lemma MergedReads<V>(cs: seq<Node<V>>, es: seq<Entry<V>>, i: nat, c: Node<V>)
    requires |cs| == |es| + 1 && i < |es| && Entries(c) == Pair(cs[i], es[i], cs[i + 1])
    ensures Flat(Cut(cs[i := c], i + 1), Cut(es, i)) == Flat(cs, es)
  {
    var cs', es' := Cut(cs[i := c], i + 1), Cut(es, i);
    AroundPair(cs, es, i);
    Around(cs', es', i);
    assert cs'[..i] == cs[..i] && cs'[i + 1..] == cs[i + 2..] && es'[..i] == es[..i] && es'[i..] == es[i + 1..];
  }

  /** Replacing one child by a pair with the same reading changes nothing. */
  lemma SplitReads<V>(cs: seq<Node<V>>, es: seq<Entry<V>>, i: nat, left: Node<V>, e: Entry<V>, right: Node<V>)
    requires |cs| == |es| + 1 && i < |cs| && Entries(cs[i]) == Pair(left, e, right)
    ensures Flat(Splice(cs[i := left], i + 1, right), Splice(es, i, e)) == Flat(cs, es)
  {
    var cs', es' := Splice(cs[i := left], i + 1, right), Splice(es, i, e);
    Around(cs, es, i);
    AroundPair(cs', es', i);
    assert cs'[..i] == cs[..i] && cs'[i + 2..] == cs[i + 1..] && es'[..i] == es[..i] && es'[i + 1..] == es[i..];
  }

  /** What surrounds children `i` and `i + 1` and their separator, whatever stands there. */
  lemma PairContext<V>(cs: seq<Node<V>>, es: seq<Entry<V>>, i: nat) returns (a: seq<Entry<V>>, c: seq<Entry<V>>)
    requires |cs| == |es| + 1 && i < |es|
    ensures Flat(cs, es) == a + Pair(cs[i], es[i], cs[i + 1]) + c
    ensures forall left, e, right ::
      Flat(cs[i := left][i + 1 := right], es[i := e]) == a + Pair(left, e, right) + c
  {
    a, c := Pre(cs[..i], es[..i]), Rest(cs[i + 2..], es[i + 1..]);
    AroundPair(cs, es, i);
    forall left, e, right ensures Flat(cs[i := left][i + 1 := right], es[i := e]) == a + Pair(left, e, right) + c {
      var cs', es' := cs[i := left][i + 1 := right], es[i := e];
      AroundPair(cs', es', i);
      assert cs'[..i] == cs[..i] && cs'[i + 2..] == cs[i + 2..] && es'[..i] == es[..i] && es'[i + 1..] == es[i + 1..];
    }
  }

  // ---- Shape and order ----

  /** All leaves at depth `h`; parallel vectors; child counts; occupancy, whose lower half binds all but this node. */
  ghost predicate Balanced<V>(t: nat, h: nat, n: Node<V>)
    decreases h
  {
    && h >= 1
    && |n.values| == |n.keys| <= 2 * t - 1
    && if h == 1 then n.IsLeaf() else
         && |n.children| == |n.keys| + 1
         && forall i :: 0 <= i < |n.children| ==> |n.children[i].keys| >= t - 1 && Balanced(t, h - 1, n.children[i])
  }

  ghost predicate Ascending<V>(s: seq<Entry<V>>) {
    forall i, j :: 0 <= i < j < |s| ==> s[i].0 < s[j].0
  }

  ghost predicate SortedKeys(keys: seq<int>) {
    forall i, j :: 0 <= i < j < |keys| ==> keys[i] < keys[j]
  }

  ghost predicate Below<V>(s: seq<Entry<V>>, key: int) {
    forall i :: 0 <= i < |s| ==> s[i].0 < key
  }

  ghost predicate Above<V>(s: seq<Entry<V>>, key: int) {
    forall i :: 0 <= i < |s| ==> key < s[i].0
  }

  lemma AscendingParts<V>(a: seq<Entry<V>>, b: seq<Entry<V>>, c: seq<Entry<V>>)
    requires Ascending(a + b + c)
    ensures Ascending(a) && Ascending(b) && Ascending(c) && Ascending(a + b) && Ascending(b + c)
    ensures |a| > 0 ==> Above(b, a[|a| - 1].0) && Above(c, a[|a| - 1].0)
    ensures |c| > 0 ==> Below(b, c[0].0) && Below(a, c[0].0)
  {
    var s := a + b + c;
    assert forall i :: 0 <= i < |a| ==> s[i] == a[i];
    assert forall i :: 0 <= i < |b| ==> s[|a| + i] == b[i];
    assert forall i :: 0 <= i < |c| ==> s[|a| + |b| + i] == c[i];
    assert forall i :: 0 <= i < |a + b| ==> s[i] == (a + b)[i];
    assert forall i :: 0 <= i < |b + c| ==> s[|a| + i] == (b + c)[i];
  }

  /** Around one entry: what is before it is below, what is after it above. */
  lemma AroundEntry<V>(a: seq<Entry<V>>, e: Entry<V>, b: seq<Entry<V>>)
    requires Ascending(a + [e] + b)
    ensures Ascending(a) && Ascending(b) && Below(a, e.0) && Above(b, e.0) && !HasKey(a, e.0)
  {
    var s := a + [e] + b;
    assert s[|a|] == e;
    assert forall i :: 0 <= i < |a| ==> s[i] == a[i];
    assert forall i :: 0 <= i < |b| ==> s[|a| + 1 + i] == b[i];
  }

  lemma AscendingJoin<V>(a: seq<Entry<V>>, e: Entry<V>, b: seq<Entry<V>>)
    requires Ascending(a) && Ascending(b) && Below(a, e.0) && Above(b, e.0)
    ensures Ascending(a + [e] + b)
  {
  }

  /** A key between two parts of an ordered sequence can only be in the part between them. */
  lemma Squeezed<V>(a: seq<Entry<V>>, b: seq<Entry<V>>, c: seq<Entry<V>>, key: int)
    requires Ascending(a + b + c)
    requires |a| > 0 ==> a[|a| - 1].0 < key
    requires |c| > 0 ==> key < c[0].0
    ensures Below(a, key) && Above(c, key)
    ensures HasKey(a + b + c, key) <==> HasKey(b, key)
  {
    AscendingParts(a, b, c);
    HasKeyConcat(a + b, c, key);
    HasKeyConcat(a, b, key);
  }

  /** In an ordered node, child `i` is ordered and lies strictly between the separators around it. */
  lemma ChildOrder<V>(cs: seq<Node<V>>, es: seq<Entry<V>>, i: nat)
    requires |cs| == |es| + 1 && i < |cs| && Ascending(Flat(cs, es))
    ensures Ascending(Entries(cs[i]))
    ensures i > 0 ==> Above(Entries(cs[i]), es[i - 1].0)
    ensures i < |es| ==> Below(Entries(cs[i]), es[i].0)
    ensures 0 < i < |es| ==> es[i - 1].0 < es[i].0
  {
    var a, c := Context(cs, es, i);
    AscendingParts(a, Entries(cs[i]), c);
  }

  lemma ChildOf<V>(t: nat, h: nat, n: Node<V>, i: nat)
    requires h >= 2 && Balanced(t, h, n) && Ascending(Entries(n)) && i < |n.children|
    ensures Balanced(t, h - 1, n.children[i]) && Ascending(Entries(n.children[i]))
  {
    ChildOrder(n.children, Own(n), i);
  }

  lemma ReplaceBalanced<V>(t: nat, h: nat, n: Node<V>, i: nat, child: Node<V>)
    requires h >= 2 && Balanced(t, h, n) && i < |n.children|
    requires Balanced(t, h - 1, child) && |child.keys| >= t - 1
    ensures Balanced(t, h, n.(children := n.children[i := child]))
  {
  }

  lemma {:induction false} AdjacentSorted(keys: seq<int>)
    requires forall i :: 0 < i < |keys| ==> keys[i - 1] < keys[i]
    ensures SortedKeys(keys)
  {
    if |keys| > 0 {
      var rest := keys[..|keys| - 1];
      AdjacentSorted(rest);
      forall i, j | 0 <= i < j < |keys| ensures keys[i] < keys[j] {
        if j == |keys| - 1 {
          assert keys[j - 1] < keys[j];
          assert i < j - 1 ==> rest[i] < rest[j - 1];
        } else {
          assert rest[i] < rest[j];
        }
      }
    }
  }

  /** An ordered node's own keys are sorted. */
  lemma OwnKeysSorted<V>(t: nat, h: nat, n: Node<V>)
    requires Balanced(t, h, n) && Ascending(Entries(n))
    ensures SortedKeys(n.keys)
  {
    if h == 1 {
      forall i, j | 0 <= i < j < |n.keys| ensures n.keys[i] < n.keys[j] {
        assert Own(n)[i].0 < Own(n)[j].0;
      }
    } else {
      forall i | 0 < i < |n.keys| ensures n.keys[i - 1] < n.keys[i] {
        ChildOrder(n.children, Own(n), i);
      }
      AdjacentSorted(n.keys);
    }
  }

  /** `std::lower_bound` on a node's keys: the first index whose key is not less. */
  function LowerBound(keys: seq<int>, key: int): (i: nat)
    ensures i <= |keys|
    ensures forall j :: 0 <= j < i ==> keys[j] < key
    ensures i < |keys| ==> key <= keys[i]
  {
    if |keys| == 0 || key <= keys[0] then 0 else 1 + LowerBound(keys[1..], key)
  }

  // ---- The sequence operations a tree refines ----

  ghost function Inserted<V>(s: seq<Entry<V>>, key: int, value: V): seq<Entry<V>> {
    if |s| == 0 || key < s[0].0 then [(key, value)] + s else [s[0]] + Inserted(s[1..], key, value)
  }

  ghost function Without<V>(s: seq<Entry<V>>, key: int): seq<Entry<V>> {
    if |s| == 0 then [] else if s[0].0 == key then s[1..] else [s[0]] + Without(s[1..], key)
  }

  ghost predicate HasKey<V>(s: seq<Entry<V>>, key: int) {
    exists i :: 0 <= i < |s| && s[i].0 == key
  }

  ghost function AsMap<V>(s: seq<Entry<V>>): map<int, V> {
    if |s| == 0 then map[] else AsMap(s[1..])[s[0].0 := s[0].1]
  }

  lemma {:induction false} AsMapDomain<V>(s: seq<Entry<V>>, key: int)
    ensures key in AsMap(s) <==> HasKey(s, key)
  {
    if |s| > 0 {
      AsMapDomain(s[1..], key);
      if HasKey(s, key) {
        var i :| 0 <= i < |s| && s[i].0 == key;
        assert i > 0 ==> s[1..][i - 1].0 == key;
      }
      if HasKey(s[1..], key) {
        var i :| 0 <= i < |s[1..]| && s[1..][i].0 == key;
        assert s[i + 1].0 == key;
      }
    }
  }

  lemma {:induction false} AsMapAt<V>(s: seq<Entry<V>>, i: nat)
    requires Ascending(s) && i < |s|
    ensures s[i].0 in AsMap(s) && AsMap(s)[s[i].0] == s[i].1
  {
    if i > 0 {
      assert s[1..][i - 1] == s[i];
      AsMapAt(s[1..], i - 1);
    }
  }

  lemma HasKeyConcat<V>(a: seq<Entry<V>>, b: seq<Entry<V>>, key: int)
    ensures HasKey(a + b, key) <==> HasKey(a, key) || HasKey(b, key)
  {
    if HasKey(a, key) {
      var i :| 0 <= i < |a| && a[i].0 == key;
      assert (a + b)[i].0 == key;
    }
    if HasKey(b, key) {
      var i :| 0 <= i < |b| && b[i].0 == key;
      assert (a + b)[|a| + i].0 == key;
    }
  }

  lemma HasKeyOne<V>(e: Entry<V>, key: int)
    ensures HasKey([e], key) <==> e.0 == key
  {
    assert [e][0] == e;
  }

  lemma HasKeyNone<V>(s: seq<Entry<V>>, key: int)
    ensures HasKey(s, key) ==> |s| > 0
  {
  }

  lemma InsertedFirst<V>(e: Entry<V>, s: seq<Entry<V>>, key: int, value: V)
    ensures Inserted([e] + s, key, value)
         == if key < e.0 then [(key, value)] + ([e] + s) else [e] + Inserted(s, key, value)
  {
    assert ([e] + s)[1..] == s;
  }

  lemma InsertedBefore<V>(c: seq<Entry<V>>, key: int, value: V)
    requires |c| > 0 ==> key < c[0].0
    ensures Inserted(c, key, value) == [(key, value)] + c && Inserted<V>([], key, value) == [(key, value)]
  {
    assert [(key, value)] + [] == [(key, value)];
  }

  /** Around a context that cannot hold the key, insertion acts on the middle only. */
  lemma {:induction false} InsertedInside<V>(a: seq<Entry<V>>, b: seq<Entry<V>>, c: seq<Entry<V>>, key: int, value: V)
    requires Below(a, key) && (|c| > 0 ==> key < c[0].0)
    ensures Inserted(a + b + c, key, value) == a + Inserted(b, key, value) + c
    decreases |a| + |b|, 1
  {
    hide Inserted;
    if |a| > 0 {
      var e, rest := a[0], a[1..];
      assert a == [e] + rest;
      InsertedInside(rest, b, c, key, value);
      Prefixed(e, rest, b, c);
      Prefixed(e, rest, Inserted(b, key, value), c);
      InsertedFirst(e, rest + b + c, key, value);
    } else {
      assert a == [];
      Leading(b, c);
      Leading(Inserted(b, key, value), c);
      if |b| > 0 {
        InsertedInHead(b, c, key, value);
      } else {
        assert b == [] && b + c == c;
        InsertedBefore(c, key, value);
      }
    }
  }

  lemma InsertedInHead<V>(b: seq<Entry<V>>, c: seq<Entry<V>>, key: int, value: V)
    requires |b| > 0 && (|c| > 0 ==> key < c[0].0)
    ensures Inserted(b + c, key, value) == Inserted(b, key, value) + c
    decreases |b|, 0
  {
    hide Inserted;
    var e, rest := b[0], b[1..];
    assert b == [e] + rest;
    Headed(e, rest, c);
    InsertedFirst(e, rest, key, value);
    InsertedFirst(e, rest + c, key, value);
    if key < e.0 {
      Headed((key, value), b, c);
    } else {
      InsertedInside([], rest, c, key, value);
      Leading(rest, c);
      Leading(Inserted(rest, key, value), c);
      Headed(e, Inserted(rest, key, value), c);
    }
  }

  /** Where binary search lands is where insertion puts the entry. */
  lemma {:induction false} InsertedAt<V>(s: seq<Entry<V>>, i: nat, key: int, value: V)
    requires i <= |s| && Ascending(s)
    requires i > 0 ==> s[i - 1].0 < key
    requires i < |s| ==> key < s[i].0
    ensures Inserted(s, key, value) == Splice(s, i, (key, value))
  {
    if i > 0 {
      InsertedAt(s[1..], i - 1, key, value);
      assert s[0].0 < key;
      SpliceTail(s, i, (key, value));
    }
  }

  /** Erasing the entry of a key is deleting it from the sequence. */
  lemma {:induction false} WithoutAt<V>(s: seq<Entry<V>>, i: nat)
    requires Ascending(s) && i < |s|
    ensures Without(s, s[i].0) == Cut(s, i)
  {
    if i > 0 {
      CutTail(s, i);
      WithoutAt(s[1..], i - 1);
    }
  }

  lemma AbsentAt<V>(s: seq<Entry<V>>, i: nat, key: int)
    requires Ascending(s) && i <= |s|
    requires i > 0 ==> s[i - 1].0 < key
    requires i < |s| ==> key < s[i].0
    ensures !HasKey(s, key)
  {
    forall j | 0 <= j < |s| ensures s[j].0 != key {
      if j < i {
        assert j < i - 1 ==> s[j].0 < s[i - 1].0;
      } else {
        assert j > i ==> s[i].0 < s[j].0;
      }
    }
  }

  /** Around a context that cannot hold the key, removal acts on the middle only. */
  lemma {:induction false} WithoutInside<V>(a: seq<Entry<V>>, b: seq<Entry<V>>, c: seq<Entry<V>>, key: int)
    requires !HasKey(a, key) && !HasKey(c, key)
    ensures Without(a + b + c, key) == a + Without(b, key) + c
  {
    if |a| > 0 {
      assert (a + b + c)[1..] == a[1..] + b + c;
      assert a[0].0 != key;
      WithoutInside(a[1..], b, c, key);
    } else if |b| > 0 {
      assert (a + b + c)[1..] == a + b[1..] + c;
      WithoutInside(a, b[1..], c, key);
    } else {
      assert a + b + c == c;
      WithoutAbsent(c, key);
    }
  }

  lemma WithoutMiddle<V>(a: seq<Entry<V>>, e: Entry<V>, b: seq<Entry<V>>)
    requires Below(a, e.0) && Above(b, e.0)
    ensures Without(a + [e] + b, e.0) == a + b
  {
    WithoutInside(a, [e], b, e.0);
    assert a + [] + b == a + b;
  }

  lemma {:induction false} WithoutAbsent<V>(s: seq<Entry<V>>, key: int)
    requires !HasKey(s, key)
    ensures Without(s, key) == s
  {
    if |s| > 0 {
      assert s[0].0 != key;
      WithoutAbsent(s[1..], key);
    }
  }

  lemma {:induction false} InsertedMap<V>(s: seq<Entry<V>>, key: int, value: V)
    requires !HasKey(s, key)
    ensures AsMap(Inserted(s, key, value)) == AsMap(s)[key := value] && |Inserted(s, key, value)| == |s| + 1
  {
    if |s| == 0 || key < s[0].0 {
      assert ([(key, value)] + s)[1..] == s;
    } else {
      assert s[0].0 != key;
      InsertedMap(s[1..], key, value);
      assert ([s[0]] + Inserted(s[1..], key, value))[1..] == Inserted(s[1..], key, value);
    }
  }

  lemma {:induction false} InsertedAbove<V>(s: seq<Entry<V>>, key: int, value: V, k: int)
    requires k < key && Above(s, k)
    ensures Above(Inserted(s, key, value), k)
  {
    if |s| > 0 && key >= s[0].0 {
      InsertedAbove(s[1..], key, value, k);
    }
  }

  lemma {:induction false} InsertedAscending<V>(s: seq<Entry<V>>, key: int, value: V)
    requires Ascending(s) && !HasKey(s, key)
    ensures Ascending(Inserted(s, key, value))
  {
    if |s| > 0 && key >= s[0].0 {
      assert s[0].0 != key;
      InsertedAscending(s[1..], key, value);
      InsertedAbove(s[1..], key, value, s[0].0);
    }
  }

  lemma InsertedIsUpdate<V>(s: seq<Entry<V>>, key: int, value: V)
    requires Ascending(s) && !HasKey(s, key)
    ensures AsMap(Inserted(s, key, value)) == AsMap(s)[key := value]
    ensures Ascending(Inserted(s, key, value)) && |Inserted(s, key, value)| == |s| + 1
  {
    hide Inserted, AsMap, Ascending, HasKey;
    InsertedMap(s, key, value);
    InsertedAscending(s, key, value);
  }

  lemma {:induction false} WithoutAbove<V>(s: seq<Entry<V>>, key: int, k: int)
    requires Above(s, k)
    ensures Above(Without(s, key), k)
  {
    if |s| > 0 && s[0].0 != key {
      WithoutAbove(s[1..], key, k);
    }
  }

  lemma {:induction false} WithoutAscending<V>(s: seq<Entry<V>>, key: int)
    requires Ascending(s)
    ensures Ascending(Without(s, key))
  {
    if |s| > 0 && s[0].0 != key {
      WithoutAscending(s[1..], key);
      WithoutAbove(s[1..], key, s[0].0);
    }
  }

  lemma {:induction false} WithoutIsRemoval<V>(s: seq<Entry<V>>, key: int)
    requires Ascending(s)
    ensures AsMap(Without(s, key)) == AsMap(s) - {key}
    ensures |Without(s, key)| == if HasKey(s, key) then |s| - 1 else |s|
  {
    if |s| > 0 {
      HasKeyConcat([s[0]], s[1..], key);
      assert s == [s[0]] + s[1..];
      if s[0].0 == key {
        AsMapDomain(s[1..], key);
        assert !HasKey(s[1..], key);
        assert HasKey([s[0]], key);
      } else {
        WithoutIsRemoval(s[1..], key);
        assert Without(s, key)[1..] == Without(s[1..], key);
      }
    }
  }

  // ---- A node's own keys ----

  lemma BalancedKeys<V>(t: nat, h: nat, n: Node<V>)
    requires Balanced(t, h, n)
    ensures |n.values| == |n.keys| && (n.IsLeaf() || |n.children| == |n.keys| + 1)
  {
  }

  lemma OwnKey<V>(n: Node<V>, i: nat)
    requires i < |n.keys| == |n.values|
    ensures |Own(n)| == |n.keys| && Own(n)[i] == (n.keys[i], n.values[i])
  {
  }

  lemma OwnKeyAt<V>(t: nat, h: nat, n: Node<V>, i: nat)
    requires Balanced(t, h, n) && i < |n.keys|
    ensures Own(n)[i] in Entries(n)
  {
    if h > 1 {
      var a, c := Context(n.children, Own(n), i);
      assert c[0] in a + Entries(n.children[i]) + c;
    }
  }

  lemma OwnKeyPresent<V>(t: nat, h: nat, n: Node<V>, i: nat)
    requires Balanced(t, h, n) && i < |n.keys|
    ensures HasKey(Entries(n), n.keys[i])
  {
    OwnKeyAt(t, h, n, i);
  }
}
