/** Reading a tree: lookup, full traversal, pruned range scan, and in-place update of a stored value. */
module BTreeScan {
  import opened BTreeNodes
  import opened Sequences
  import opened Options

  /** The entries whose key lies in `lo..hi`, in order. */
  ghost function Within<V>(s: seq<Entry<V>>, lo: int, hi: int): seq<Entry<V>> {
    if |s| == 0 then []
    else (if lo <= s[0].0 <= hi then [s[0]] else []) + Within(s[1..], lo, hi)
  }

  lemma {:induction false} WithinConcat<V>(a: seq<Entry<V>>, b: seq<Entry<V>>, lo: int, hi: int)
    ensures Within(a + b, lo, hi) == Within(a, lo, hi) + Within(b, lo, hi)
  {
    if |a| == 0 {
      assert a + b == b;
    } else {
      assert (a + b)[1..] == a[1..] + b;
      WithinConcat(a[1..], b, lo, hi);
    }
  }

  lemma {:induction false} WithinNone<V>(s: seq<Entry<V>>, lo: int, hi: int)
    requires Below(s, lo) || Above(s, hi)
    ensures Within(s, lo, hi) == []
  {
    if |s| > 0 {
      WithinNone(s[1..], lo, hi);
    }
  }

  /** A scan keeps only what is in range and misses nothing in range. */
  lemma {:induction false} WithinExact<V>(s: seq<Entry<V>>, lo: int, hi: int)
    ensures forall i :: 0 <= i < |Within(s, lo, hi)| ==> Within(s, lo, hi)[i] in s && lo <= Within(s, lo, hi)[i].0 <= hi
    ensures forall i :: 0 <= i < |s| && lo <= s[i].0 <= hi ==> s[i] in Within(s, lo, hi)
  {
    if |s| > 0 {
      var r := Within(s[1..], lo, hi);
      WithinExact(s[1..], lo, hi);
      forall i | 1 <= i < |s| && lo <= s[i].0 <= hi ensures s[i] in r {
        assert s[i] == s[1..][i - 1];
      }
    }
  }

  lemma {:induction false} WithinAbove<V>(s: seq<Entry<V>>, lo: int, hi: int, key: int)
    requires Above(s, key)
    ensures Above(Within(s, lo, hi), key)
  {
    if |s| > 0 {
      WithinAbove(s[1..], lo, hi, key);
    }
  }

  lemma {:induction false} WithinAscending<V>(s: seq<Entry<V>>, lo: int, hi: int)
    requires Ascending(s)
    ensures Ascending(Within(s, lo, hi))
  {
    if |s| > 0 {
      WithinAscending(s[1..], lo, hi);
      WithinAbove(s[1..], lo, hi, s[0].0);
    }
  }

  /** In-order traversal: the visitor sees every entry once, in ascending key order. */
  method InOrder<V>(t: nat, ghost h: nat, node: Node<V>) returns (visited: seq<Entry<V>>)
    requires Balanced(t, h, node)
    ensures visited == Entries(node)
    decreases h
  {
    visited := [];
    for i := 0 to |node.keys|
      invariant visited == Passed(node, i)
    {
      PassedNext(t, h, node, i);
      if !node.IsLeaf() {
        var below := InOrder(t, h - 1, node.children[i]);
        visited := visited + below;
      }
      visited := visited + [(node.keys[i], node.values[i])];
    }
    if !node.IsLeaf() {
      Around(node.children, Own(node), |node.keys|);
      var below := InOrder(t, h - 1, node.children[|node.children| - 1]);
      visited := visited + below;
    }
  }

  /** What the scan has seen once it stands at child `i`. */
  ghost function Passed<V>(n: Node<V>, i: nat): seq<Entry<V>>
    requires i <= |n.keys| == |n.values| && (n.IsLeaf() || |n.children| == |n.keys| + 1)
  {
    if n.IsLeaf() then Own(n)[..i] else Pre(n.children[..i], Own(n)[..i])
  }

  ghost function ChildEntries<V>(n: Node<V>, i: nat): seq<Entry<V>>
    requires n.IsLeaf() || i < |n.children|
  {
    if n.IsLeaf() then [] else Entries(n.children[i])
  }

  lemma PassedNext<V>(t: nat, h: nat, n: Node<V>, i: nat)
    requires Balanced(t, h, n) && i < |n.keys|
    ensures Passed(n, i + 1) == Passed(n, i) + ChildEntries(n, i) + [Own(n)[i]]
  {
    if h == 1 {
      assert Own(n)[..i + 1] == Own(n)[..i] + [] + [Own(n)[i]];
    } else {
      var cs, es := n.children[..i + 1], Own(n)[..i + 1];
      PreLast(cs, es);
      assert cs[..i] == n.children[..i] && es[..i] == Own(n)[..i];
    }
  }

  lemma LeafContext<V>(n: Node<V>, i: nat) returns (c: seq<Entry<V>>)
    requires n.IsLeaf() && |n.values| == |n.keys| && i <= |n.keys|
    ensures Entries(n) == Passed(n, i) + ChildEntries(n, i) + c
    ensures i > 0 ==> |Passed(n, i)| > 0 && Passed(n, i)[|Passed(n, i)| - 1] == Own(n)[i - 1]
    ensures if i == |n.keys| then |c| == 0 else |c| > 0 && c[0] == Own(n)[i]
  {
    hide Zip;
    c := Own(n)[i..];
    assert Own(n) == Own(n)[..i] + [] + c;
  }

  lemma InnerContext<V>(n: Node<V>, i: nat) returns (c: seq<Entry<V>>)
    requires !n.IsLeaf() && |n.values| == |n.keys| && |n.children| == |n.keys| + 1 && i <= |n.keys|
    ensures Entries(n) == Passed(n, i) + ChildEntries(n, i) + c
    ensures i > 0 ==> |Passed(n, i)| > 0 && Passed(n, i)[|Passed(n, i)| - 1] == Own(n)[i - 1]
    ensures if i == |n.keys| then |c| == 0 else |c| > 0 && c[0] == Own(n)[i]
  {
    InnerReads(n);
    hide Zip, Flat, Pre, Entries;
    c := Rest(n.children[i + 1..], Own(n)[i..]);
    Around(n.children, Own(n), i);
    if i > 0 {
      PreLast(n.children[..i], Own(n)[..i]);
    }
  }

  lemma PassedContext<V>(t: nat, h: nat, n: Node<V>, i: nat) returns (c: seq<Entry<V>>)
    requires Balanced(t, h, n) && i <= |n.keys|
    ensures Entries(n) == Passed(n, i) + ChildEntries(n, i) + c
    ensures i > 0 ==> |Passed(n, i)| > 0 && Passed(n, i)[|Passed(n, i)| - 1] == Own(n)[i - 1]
    ensures if i == |n.keys| then |c| == 0 else |c| > 0 && c[0] == Own(n)[i]
  {
    BalancedKeys(t, h, n);
    hide Balanced, Zip, Flat, Entries, Passed, ChildEntries;
    if n.IsLeaf() {
      c := LeafContext(n, i);
    } else {
      c := InnerContext(n, i);
    }
  }

  lemma NothingPassed<V>(n: Node<V>)
    requires |n.keys| == |n.values| && (n.IsLeaf() || |n.children| == |n.keys| + 1)
    ensures Passed(n, 0) == []
  {
  }

  /** Everything before the scan's start lies below the range. */
  lemma NothingBefore<V>(t: nat, h: nat, n: Node<V>, i: nat, lo: int, hi: int)
    requires Balanced(t, h, n) && Ascending(Entries(n)) && i <= |n.keys|
    requires i > 0 ==> n.keys[i - 1] < lo
    ensures Within(Passed(n, i), lo, hi) == []
  {
    hide Zip, Flat, Entries, Passed, ChildEntries, Within;
    var c := PassedContext(t, h, n, i);
    AscendingParts(Passed(n, i), ChildEntries(n, i), c);
    if i > 0 {
      OwnKey(n, i - 1);
    } else {
      NothingPassed(n);
    }
    WithinNone(Passed(n, i), lo, hi);
  }

  /** Everything after a separator beyond the range lies above it. */
  lemma NothingAfter<V>(t: nat, h: nat, n: Node<V>, i: nat, lo: int, hi: int)
    requires Balanced(t, h, n) && Ascending(Entries(n)) && i <= |n.keys|
    requires i < |n.keys| ==> hi < n.keys[i]
    ensures Within(Entries(n), lo, hi) == Within(Passed(n, i), lo, hi) + Within(ChildEntries(n, i), lo, hi)
  {
    BalancedKeys(t, h, n);
    hide Zip, Flat, Entries, Passed, ChildEntries, Within, Balanced;
    var c := PassedContext(t, h, n, i);
    AscendingParts(Passed(n, i), ChildEntries(n, i), c);
    if i < |n.keys| {
      OwnKey(n, i);
    }
    WithinConcat(Passed(n, i) + ChildEntries(n, i), c, lo, hi);
    WithinConcat(Passed(n, i), ChildEntries(n, i), lo, hi);
    WithinNone(c, lo, hi);
  }

  lemma WithinOne<V>(e: Entry<V>, lo: int, hi: int)
    requires lo <= e.0 <= hi
    ensures Within([e], lo, hi) == [e]
  {
  }

  lemma VisitNext<V>(t: nat, h: nat, n: Node<V>, i: nat, lo: int, hi: int)
    requires Balanced(t, h, n) && Ascending(Entries(n)) && i < |n.keys| && lo <= n.keys[i] <= hi
    ensures Within(Passed(n, i + 1), lo, hi)
         == Within(Passed(n, i), lo, hi) + Within(ChildEntries(n, i), lo, hi) + [Own(n)[i]]
    ensures i + 1 < |n.keys| ==> lo <= n.keys[i + 1]
  {
    BalancedKeys(t, h, n);
    OwnKeysSorted(t, h, n);
    OwnKey(n, i);
    WithinOne(Own(n)[i], lo, hi);
    hide Zip, Flat, Entries, Passed, ChildEntries, Within, Balanced;
    PassedNext(t, h, n, i);
    WithinConcat(Passed(n, i) + ChildEntries(n, i), [Own(n)[i]], lo, hi);
    WithinConcat(Passed(n, i), ChildEntries(n, i), lo, hi);
  }

  /** The pruned scan visits exactly the entries in range, whatever the bounds. */
  method RangeVisit<V>(t: nat, ghost h: nat, node: Node<V>, lo: int, hi: int) returns (visited: seq<Entry<V>>)
    requires Balanced(t, h, node) && Ascending(Entries(node))
    ensures visited == Within(Entries(node), lo, hi)
    decreases h
  {
    hide Zip, Flat, Pre, Entries, Passed;
    visited := [];
    var i := LowerBound(node.keys, lo);
    NothingBefore(t, h, node, i, lo, hi);
    while true
      invariant 0 <= i <= |node.keys|
      invariant visited == Within(Passed(node, i), lo, hi)
      invariant i < |node.keys| ==> lo <= node.keys[i]
      decreases |node.keys| - i
    {
      if !node.IsLeaf() {
        ChildOf(t, h, node, i);
        var below := RangeVisit(t, h - 1, node.children[i], lo, hi);
        visited := visited + below;
      }
      if i == |node.keys| || hi < node.keys[i] {
        NothingAfter(t, h, node, i, lo, hi);
        return;
      }
      VisitNext(t, h, node, i, lo, hi);
      visited := visited + [(node.keys[i], node.values[i])];
      i := i + 1;
    }
  }

  // ---- Lookup and in-place assignment ----

  ghost function Stored<V>(s: seq<Entry<V>>, key: int, value: V): seq<Entry<V>> {
    if |s| == 0 then []
    else if s[0].0 == key then [(key, value)] + s[1..]
    else [s[0]] + Stored(s[1..], key, value)
  }

  lemma StoredFirst<V>(e: Entry<V>, s: seq<Entry<V>>, key: int, value: V)
    ensures Stored([e] + s, key, value) == if e.0 == key then [(key, value)] + s else [e] + Stored(s, key, value)
  {
    assert ([e] + s)[1..] == s;
  }

  lemma {:induction false} StoredInside<V>(a: seq<Entry<V>>, b: seq<Entry<V>>, c: seq<Entry<V>>, key: int, value: V)
    requires !HasKey(a, key) && HasKey(b, key)
    ensures Stored(a + b + c, key, value) == a + Stored(b, key, value) + c
    decreases |a| + |b|
  {
    hide Stored, HasKey;
    if |a| > 0 {
      var e, rest := a[0], a[1..];
      assert a == [e] + rest;
      HasKeyConcat([e], rest, key);
      HasKeyOne(e, key);
      StoredInside(rest, b, c, key, value);
      Prefixed(e, rest, b, c);
      Prefixed(e, rest, Stored(b, key, value), c);
      StoredFirst(e, rest + b + c, key, value);
    } else {
      assert a == [];
      HasKeyNone(b, key);
      var e, rest := b[0], b[1..];
      assert b == [e] + rest;
      HasKeyConcat([e], rest, key);
      HasKeyOne(e, key);
      StoredFirst(e, rest, key, value);
      StoredFirst(e, rest + c, key, value);
      Headed(e, rest, c);
      Headed((key, value), rest, c);
      if e.0 != key {
        StoredInside([], rest, c, key, value);
        Headed(e, Stored(rest, key, value), c);
        Leading(rest, c);
        Leading(Stored(rest, key, value), c);
      }
      Leading(b, c);
      Leading(Stored(b, key, value), c);
    }
  }

  lemma {:induction false} StoredKeys<V>(s: seq<Entry<V>>, key: int, value: V)
    ensures |Stored(s, key, value)| == |s|
    ensures forall i :: 0 <= i < |s| ==> Stored(s, key, value)[i].0 == s[i].0
  {
    if |s| > 0 {
      StoredKeys(s[1..], key, value);
    }
  }

  lemma {:induction false} StoredAt<V>(s: seq<Entry<V>>, i: nat, value: V)
    requires Ascending(s) && i < |s|
    ensures Stored(s, s[i].0, value) == s[i := (s[i].0, value)]
  {
    if i > 0 {
      UpdateTail(s, i, (s[i].0, value));
      StoredAt(s[1..], i - 1, value);
    }
  }

  lemma StoredAscending<V>(s: seq<Entry<V>>, key: int, value: V)
    requires Ascending(s)
    ensures Ascending(Stored(s, key, value))
  {
    StoredKeys(s, key, value);
    hide Stored;
  }

  /** Assigning through a found key changes that binding and nothing else. */
  lemma StoredIsUpdate<V>(s: seq<Entry<V>>, key: int, value: V)
    requires Ascending(s) && HasKey(s, key)
    ensures |Stored(s, key, value)| == |s| && Ascending(Stored(s, key, value))
    ensures AsMap(Stored(s, key, value)) == AsMap(s)[key := value]
  {
    StoredKeys(s, key, value);
    StoredAscending(s, key, value);
    StoredMap(s, key, value);
  }

  lemma {:induction false} StoredMap<V>(s: seq<Entry<V>>, key: int, value: V)
    requires HasKey(s, key)
    ensures AsMap(Stored(s, key, value)) == AsMap(s)[key := value]
  {
    var r := Stored(s, key, value);
    if s[0].0 == key {
      assert r[1..] == s[1..];
    } else {
      HasKeyConcat([s[0]], s[1..], key);
      assert s == [s[0]] + s[1..];
      StoredMap(s[1..], key, value);
      assert r[1..] == Stored(s[1..], key, value);
    }
  }

  /** A found key's entry, or a bracketing child that holds it if any node does. */
  lemma Located<V>(t: nat, h: nat, n: Node<V>, i: nat, key: int)
    requires Balanced(t, h, n) && Ascending(Entries(n)) && i <= |n.keys|
    requires i > 0 ==> n.keys[i - 1] < key
    requires i < |n.keys| ==> key <= n.keys[i]
    ensures i < |n.keys| && key == n.keys[i] ==> (key, n.values[i]) in Entries(n)
    ensures !(i < |n.keys| && key == n.keys[i]) ==>
      (HasKey(Entries(n), key) <==> HasKey(ChildEntries(n, i), key))
      && forall e :: e in ChildEntries(n, i) ==> e in Entries(n)
  {
    BalancedKeys(t, h, n);
    hide Zip, Flat, Entries, Passed, ChildEntries, Balanced, HasKey;
    var c := PassedContext(t, h, n, i);
    if i < |n.keys| {
      OwnKey(n, i);
    }
    if i > 0 {
      OwnKey(n, i - 1);
    }
    if i < |n.keys| && key == n.keys[i] {
      assert c[0] in Passed(n, i) + ChildEntries(n, i) + c;
    } else {
      Squeezed(Passed(n, i), ChildEntries(n, i), c, key);
    }
  }

  /** `search`: the value bound to a key, by walking down from the root. */
  method Find<V>(t: nat, ghost h: nat, root: Node<V>, key: int) returns (found: Option<V>)
    requires Balanced(t, h, root) && Ascending(Entries(root))
    ensures found.Some? <==> HasKey(Entries(root), key)
    ensures found.Some? ==> (key, found.value) in Entries(root)
  {
    var node := root;
    ghost var d := h;
    while true
      invariant Balanced(t, d, node) && Ascending(Entries(node))
      invariant HasKey(Entries(root), key) <==> HasKey(Entries(node), key)
      invariant forall e :: e in Entries(node) ==> e in Entries(root)
      decreases d
    {
      var i := LowerBound(node.keys, key);
      Located(t, d, node, i, key);
      if i < |node.keys| && node.keys[i] == key {
        return Some(node.values[i]);
      }
      if node.IsLeaf() {
        return None;
      }
      ChildOf(t, d, node, i);
      node := node.children[i];
      d := d - 1;
    }
  }

  /** Assignment through the pointer that `search` returns. */
  method Store<V>(t: nat, ghost h: nat, node: Node<V>, key: int, value: V) returns (node': Node<V>)
    requires Balanced(t, h, node) && Ascending(Entries(node)) && HasKey(Entries(node), key)
    ensures Balanced(t, h, node') && node'.keys == node.keys
    ensures Entries(node') == Stored(Entries(node), key, value)
    decreases h
  {
    var i := LowerBound(node.keys, key);
    Located(t, h, node, i, key);
    if i < |node.keys| && node.keys[i] == key {
      StoredHere(t, h, node, i, value);
      return node.(values := node.values[i := value]);
    }
    ChildOf(t, h, node, i);
    var child := Store(t, h - 1, node.children[i], key, value);
    ReplaceBalanced(t, h, node, i, child);
    StoredBelow(t, h, node, i, child, key, value);
    return node.(children := node.children[i := child]);
  }

  lemma StoredHere<V>(t: nat, h: nat, n: Node<V>, i: nat, value: V)
    requires Balanced(t, h, n) && Ascending(Entries(n)) && i < |n.keys|
    ensures Balanced(t, h, n.(values := n.values[i := value]))
    ensures Entries(n.(values := n.values[i := value])) == Stored(Entries(n), n.keys[i], value)
  {
    var n', e, e' := n.(values := n.values[i := value]), Own(n)[i], (n.keys[i], value);
    assert n.keys[i := n.keys[i]] == n.keys;
    ZipUpdate(n.keys, n.values, i, n.keys[i], value);
    if h == 1 {
      StoredAt(Own(n), i, value);
    } else {
      var cs := n.children;
      var a, c := PairContext(cs, Own(n), i);
      assert cs[i := cs[i]][i + 1 := cs[i + 1]] == cs;
      var l, r := Entries(cs[i]), Entries(cs[i + 1]);
      Regroup(a, l, e, r, c);
      Regroup(a, l, e', r, c);
      StoredMiddle(a + l, e, r + c, value);
      assert Flat(cs[i := cs[i]][i + 1 := cs[i + 1]], Own(n)[i := e']) == a + Pair(cs[i], e', cs[i + 1]) + c;
    }
  }

  lemma StoredMiddle<V>(a: seq<Entry<V>>, e: Entry<V>, b: seq<Entry<V>>, value: V)
    requires Ascending(a + [e] + b)
    ensures Stored(a + [e] + b, e.0, value) == a + [(e.0, value)] + b
  {
    AroundEntry(a, e, b);
    hide Ascending;
    assert [e][0].0 == e.0;
    assert Stored([e], e.0, value) == [(e.0, value)];
    hide Stored;
    StoredInside(a, [e], b, e.0, value);
  }

  lemma StoredBelow<V>(t: nat, h: nat, n: Node<V>, i: nat, child: Node<V>, key: int, value: V)
    requires h >= 2 && Balanced(t, h, n) && Ascending(Entries(n)) && i < |n.children|
    requires i > 0 ==> n.keys[i - 1] < key
    requires i < |n.keys| ==> key < n.keys[i]
    requires HasKey(Entries(n.children[i]), key)
    requires Entries(child) == Stored(Entries(n.children[i]), key, value)
    ensures Entries(n.(children := n.children[i := child])) == Stored(Entries(n), key, value)
  {
    var a, c := Context(n.children, Own(n), i);
    Squeezed(a, Entries(n.children[i]), c, key);
    StoredInside(a, Entries(n.children[i]), c, key, value);
    assert Own(n.(children := n.children[i := child])) == Own(n);
  }
}
