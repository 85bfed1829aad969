/** The cache itself: list nodes in recency order, and a hash map from keys to those nodes. */
module LRUCaches {
  import opened Options
  import opened HashMaps
  import opened Sequences
  import R = Recency

  /** A node of the recency list. Its reference is the iterator that the index stores. */
  class ListNode<K, V> {
    const key: K
    var value: V

    constructor (key: K, value: V)
      ensures this.key == key && this.value == value
    {
      this.key, this.value := key, value;
    }
  }

  /** The list without one of its nodes. */
  function Unlinked<T(==)>(s: seq<T>, x: T): seq<T> {
    if |s| == 0 then [] else if s[0] == x then s[1..] else [s[0]] + Unlinked(s[1..], x)
  }

  lemma {:induction false} UnlinkedAt<T>(s: seq<T>, i: nat)
    requires i < |s| && forall j :: 0 <= j < i ==> s[j] != s[i]
    ensures Unlinked(s, s[i]) == Cut(s, i)
  {
    if i > 0 {
      CutTail(s, i);
      UnlinkedAt(s[1..], i - 1);
    }
  }

  /** No key twice in the list, and the index maps each key of the list to the node that carries it. */
  ghost predicate Linked<K, V>(items: seq<ListNode<K, V>>, m: map<K, ListNode<K, V>>) {
    && (forall i, j :: 0 <= i < j < |items| ==> items[i].key != items[j].key)
    && (forall i :: 0 <= i < |items| ==> items[i].key in m && m[items[i].key] == items[i])
    && (forall k :: k in m ==> m[k] in items && m[k].key == k)
  }

  lemma LinkedPush<K, V>(items: seq<ListNode<K, V>>, m: map<K, ListNode<K, V>>, node: ListNode<K, V>)
    requires Linked(items, m) && node.key !in m
    ensures Linked([node] + items, m[node.key := node])
  {
  }

  lemma LinkedCut<K, V>(items: seq<ListNode<K, V>>, m: map<K, ListNode<K, V>>, i: nat)
    requires Linked(items, m) && i < |items|
    ensures Linked(Cut(items, i), m - {items[i].key})
  {
    forall k | k in m - {items[i].key} ensures m[k] in Cut(items, i) {
      var j :| 0 <= j < |items| && items[j] == m[k];
      CutKeeps(items, i, j);
    }
  }

  /** Moving a node to the front leaves every iterator naming its own node. */
  lemma LinkedMove<K, V>(items: seq<ListNode<K, V>>, m: map<K, ListNode<K, V>>, i: nat)
    requires Linked(items, m) && i < |items|
    ensures Linked([items[i]] + Cut(items, i), m)
  {
    LinkedCut(items, m, i);
    LinkedPush(Cut(items, i), m - {items[i].key}, items[i]);
    assert (m - {items[i].key})[items[i].key := items[i]] == m;
  }

  lemma LinkedUnlink<K, V>(items: seq<ListNode<K, V>>, m: map<K, ListNode<K, V>>, i: nat)
    requires Linked(items, m) && i < |items|
    ensures Unlinked(items, items[i]) == Cut(items, i)
  {
    UnlinkedAt(items, i);
  }

  /** The entries a list of nodes carries. */
  ghost predicate Carries<K, V>(nodes: seq<ListNode<K, V>>, s: seq<(K, V)>)
    reads nodes
  {
    |s| == |nodes| && forall i :: 0 <= i < |s| ==> s[i] == (nodes[i].key, nodes[i].value)
  }

  lemma CarriesCut<K, V>(items: seq<ListNode<K, V>>, s: seq<(K, V)>, i: nat)
    requires Carries(items, s) && i < |items|
    ensures |s| == |items| && s[i] == (items[i].key, items[i].value)
    ensures Carries(Cut(items, i), Cut(s, i))
  {
  }

  lemma CarriesPush<K, V>(items: seq<ListNode<K, V>>, s: seq<(K, V)>, node: ListNode<K, V>)
    requires Carries(items, s)
    ensures Carries([node] + items, [(node.key, node.value)] + s)
  {
  }

  lemma FindNode<K, V>(items: seq<ListNode<K, V>>, m: map<K, ListNode<K, V>>, s: seq<(K, V)>, key: K) returns (i: nat)
    requires Linked(items, m) && Carries(items, s) && key in m
    ensures i < |items| && items[i] == m[key] && m[key].key == key
    ensures Unlinked(items, m[key]) == Cut(items, i)
    ensures R.Lookup(s, key) == Some(m[key].value)
    ensures R.Drop(s, key) == Cut(s, i)
  {
    i :| 0 <= i < |items| && items[i] == m[key];
    UnlinkedAt(items, i);
    R.At(s, i);
  }

  lemma NoNode<K, V>(items: seq<ListNode<K, V>>, m: map<K, ListNode<K, V>>, s: seq<(K, V)>, key: K)
    requires Linked(items, m) && Carries(items, s) && key !in m
    ensures R.Lookup(s, key) == None && R.Drop(s, key) == s
  {
    R.Missing(s, key);
  }

  class LRUCache<K(==), V> {
    const capacity: nat
    const hash: K -> nat
    var items: seq<ListNode<K, V>>
    var index: HashMap<K, ListNode<K, V>>
    var hits: nat
    var misses: nat
    /** The recency sequence: hottest first. */
    ghost var Contents: seq<(K, V)>

    ghost function Repr(): set<object>
      reads this, index
    {
      {this, index, index.slots} + (set n | n in items)
    }

    ghost predicate Valid()
      reads this, index, index.slots, items
    {
      && capacity > 0 && |items| <= capacity
      && index.Valid()
      && Linked(items, index.Model) && Carries(items, Contents)
    }

    constructor (capacity: nat, hash: K -> nat)
      requires capacity > 0
      ensures Valid() && fresh(Repr()) && this.capacity == capacity && Contents == []
    {
      this.capacity, this.hash := capacity, hash;
      items, hits, misses, Contents := [], 0, 0, [];
      index := new HashMap(hash, MIN_CAPACITY);
    }

    /** A zero capacity is rejected. */
    static method Make(capacity: nat, hash: K -> nat) returns (cache: Option<LRUCache<K, V>>)
      ensures cache.Some? <==> capacity > 0
      ensures cache.Some? ==>
        && fresh(cache.value) && cache.value.Valid()
        && cache.value.capacity == capacity && cache.value.Contents == []
    {
      if capacity == 0 {
        return None;
      }
      var c := new LRUCache(capacity, hash);
      return Some(c);
    }

    lemma NoKeyTwice()
      requires Valid()
      ensures R.Distinct(Contents) && capacity > 0
    {
      hide HashMap.Valid;
    }

    /** Inserts or overwrites, marking the key most recently used; a full cache evicts its coldest entry. */
    method Put(key: K, value: V)
      requires Valid()
      modifies Repr()
      ensures Valid() && fresh(Repr() - old(Repr()))
      ensures Contents == R.Put(old(Contents), capacity, key, value)
    {
      hide HashMap.Valid, Linked, R.Lookup, R.Drop;
      var found := index.Find(key);
      if found.Some? {
        Refresh(key, value);
        return;
      }
      NoNode(items, index.Model, Contents, key);
      if |items| == capacity {
        EvictLast();
      }
      PushFront(key, value);
    }

    /** Assigns through the iterator and splices the node to the front. */
    method Refresh(key: K, value: V)
      requires Valid() && key in index.Model
      modifies this`items, this`Contents, items
      ensures Valid() && Repr() == old(Repr())
      ensures R.Lookup(old(Contents), key).Some? && Contents == [(key, value)] + R.Drop(old(Contents), key)
    {
      hide HashMap.Valid;
      ghost var i := FindNode(items, index.Model, Contents, key);
      var found := index.Find(key);
      found.value.value := value;
      Contents := Contents[i := (key, value)];
      Touch(key, i);
    }

    /** Splices a node to the front: no iterator is invalidated. */
    method Touch(key: K, ghost i: nat)
      requires Valid() && key in index.Model && i < |items| && items[i] == index.Model[key]
      modifies this`items, this`Contents
      ensures Valid() && Repr() == old(Repr())
      ensures items[0] == index.Model[key]
      ensures Contents == [old(Contents)[i]] + Cut(old(Contents), i)
    {
      hide HashMap.Valid, Linked, Carries, Unlinked, Cut;
      var found := index.Find(key);
      LinkedMove(items, index.Model, i);
      MoveKeeps(items, i);
      LinkedUnlink(items, index.Model, i);
      CarriesCut(items, Contents, i);
      CarriesPush(Cut(items, i), Cut(Contents, i), items[i]);
      items := [found.value] + Unlinked(items, found.value);
      Contents := [Contents[i]] + Cut(Contents, i);
    }

    /** Drops the cold end of a non-empty list. */
    method EvictLast()
      requires Valid() && |items| > 0
      modifies this`items, this`Contents, index, index.slots
      ensures Valid() && index.slots == old(index.slots) && Repr() <= old(Repr())
      ensures Contents == old(Contents)[..|old(Contents)| - 1] && |items| == |old(items)| - 1
      ensures forall k :: k in index.Model ==> k in old(index.Model)
    {
      hide HashMap.Valid, Linked, Carries, Cut;
      var last := |items| - 1;
      LinkedCut(items, index.Model, last);
      CarriesCut(items, Contents, last);
      CutLast(items);
      CutLast(Contents);
      var erased := index.Erase(items[last].key);
      items, Contents := items[..last], Contents[..last];
    }

    method PushFront(key: K, value: V)
      requires Valid() && key !in index.Model && |items| < capacity
      modifies this`items, this`Contents, index, index.slots
      ensures Valid() && fresh(Repr() - old(Repr()))
      ensures Contents == [(key, value)] + old(Contents)
    {
      hide HashMap.Valid, Linked, Carries;
      var node := new ListNode(key, value);
      LinkedPush(items, index.Model, node);
      CarriesPush(items, Contents, node);
      var added := index.InsertOrAssign(key, node);
      items, Contents := [node] + items, [(key, value)] + Contents;
    }

    /** A hit marks the key most recently used; either way a counter moves. */
    method Get(key: K) returns (value: Option<V>)
      requires Valid()
      modifies this
      ensures Valid() && Repr() == old(Repr())
      ensures value == R.Lookup(old(Contents), key)
      ensures Contents == R.Touch(old(Contents), key)
      ensures if value.Some? then hits == old(hits) + 1 && misses == old(misses)
              else hits == old(hits) && misses == old(misses) + 1
    {
      hide HashMap.Valid, Linked, R.Lookup, R.Drop, Cut;
      var found := index.Find(key);
      if found.None? {
        NoNode(items, index.Model, Contents, key);
        misses := misses + 1;
        return None;
      }
      ghost var i := FindNode(items, index.Model, Contents, key);
      hits := hits + 1;
      Touch(key, i);
      return Some(items[0].value);
    }

    /** Reads without promoting. */
    method Peek(key: K) returns (value: Option<V>)
      requires Valid()
      ensures value == R.Lookup(Contents, key)
    {
      hide HashMap.Valid;
      var found := index.Find(key);
      if found.None? {
        NoNode(items, index.Model, Contents, key);
        return None;
      }
      ghost var i := FindNode(items, index.Model, Contents, key);
      return Some(found.value.value);
    }

    /** Forgets a key. */
    method Erase(key: K) returns (erased: bool)
      requires Valid()
      modifies this, index, index.slots
      ensures Valid() && Repr() <= old(Repr())
      ensures erased <==> R.Lookup(old(Contents), key).Some?
      ensures Contents == R.Drop(old(Contents), key)
    {
      hide HashMap.Valid, Linked, Carries, Unlinked, Cut, R.Lookup, R.Drop;
      var found := index.Find(key);
      if found.None? {
        NoNode(items, index.Model, Contents, key);
        return false;
      }
      ghost var i := FindNode(items, index.Model, Contents, key);
      LinkedCut(items, index.Model, i);
      CarriesCut(items, Contents, i);
      CutIsPart(items, i);
      erased := index.Erase(key);
      items := Unlinked(items, found.value);
      Contents := R.Drop(Contents, key);
    }

    method Clear()
      requires Valid()
      modifies this
      ensures Valid() && fresh(Repr() - old(Repr())) && Contents == []
      ensures hits == old(hits) && misses == old(misses)
    {
      hide HashMap.Valid;
      items, Contents := [], [];
      index := new HashMap(hash, MIN_CAPACITY);
    }
  }
}
