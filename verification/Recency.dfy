/** The recency sequence an LRU cache stands for, and what holds of it over every run. */
module Recency {
  import opened Options
  import opened Sequences

  ghost predicate Distinct<K, V>(s: seq<(K, V)>) {
    forall i, j :: 0 <= i < j < |s| ==> s[i].0 != s[j].0
  }

  ghost predicate Holds<K, V>(s: seq<(K, V)>, key: K) {
    exists i :: 0 <= i < |s| && s[i].0 == key
  }

  function Lookup<K(==), V>(s: seq<(K, V)>, key: K): Option<V> {
    if |s| == 0 then None else if s[0].0 == key then Some(s[0].1) else Lookup(s[1..], key)
  }

  function Drop<K(==), V>(s: seq<(K, V)>, key: K): seq<(K, V)> {
    if |s| == 0 then [] else if s[0].0 == key then s[1..] else [s[0]] + Drop(s[1..], key)
  }

  /** Insert or overwrite at the hot end; a new key pushes the cold end out of a full cache. */
  function Put<K(==), V>(s: seq<(K, V)>, capacity: nat, key: K, value: V): seq<(K, V)>
    requires capacity > 0
  {
    if Lookup(s, key).Some? then [(key, value)] + Drop(s, key)
    else [(key, value)] + if |s| == capacity then s[..|s| - 1] else s
  }

  /** A hit moves to the hot end; a miss changes nothing. */
  function Touch<K(==), V>(s: seq<(K, V)>, key: K): seq<(K, V)> {
    match Lookup(s, key)
    case Some(v) => [(key, v)] + Drop(s, key)
    case None => s
  }

  lemma {:induction false} LookupAt<K, V>(s: seq<(K, V)>, i: nat)
    requires Distinct(s) && i < |s|
    ensures Lookup(s, s[i].0) == Some(s[i].1)
  {
    if i > 0 {
      assert s[1..][i - 1] == s[i];
      LookupAt(s[1..], i - 1);
    }
  }

  lemma {:induction false} DropAt<K, V>(s: seq<(K, V)>, i: nat)
    requires Distinct(s) && i < |s|
    ensures Drop(s, s[i].0) == Cut(s, i)
  {
    if i > 0 {
      CutTail(s, i);
      DropAt(s[1..], i - 1);
    }
  }

  lemma At<K, V>(s: seq<(K, V)>, i: nat)
    requires Distinct(s) && i < |s|
    ensures Lookup(s, s[i].0) == Some(s[i].1) && Drop(s, s[i].0) == Cut(s, i)
  {
    LookupAt(s, i);
    DropAt(s, i);
  }

  lemma {:induction false} Missing<K, V>(s: seq<(K, V)>, key: K)
    requires !Holds(s, key)
    ensures Lookup(s, key) == None && Drop(s, key) == s
  {
    if |s| > 0 {
      assert s[0].0 != key;
      assert !Holds(s[1..], key) by {
        assert forall i :: 0 <= i < |s[1..]| ==> s[1..][i] == s[i + 1];
      }
      Missing(s[1..], key);
    }
  }

  lemma Found<K, V>(s: seq<(K, V)>, key: K)
    requires Distinct(s)
    ensures Lookup(s, key).Some? <==> Holds(s, key)
  {
    if Holds(s, key) {
      var i :| 0 <= i < |s| && s[i].0 == key;
      At(s, i);
    } else {
      Missing(s, key);
    }
  }

  lemma {:induction false} LookupIn<K, V>(s: seq<(K, V)>, key: K)
    requires Lookup(s, key).Some?
    ensures (key, Lookup(s, key).value) in s
  {
    if s[0].0 != key {
      LookupIn(s[1..], key);
    }
  }

  lemma {:induction false} DropIn<K, V>(s: seq<(K, V)>, key: K)
    ensures forall i :: 0 <= i < |Drop(s, key)| ==> Drop(s, key)[i] in s
  {
    if |s| > 0 && s[0].0 != key {
      DropIn(s[1..], key);
    }
  }

  lemma DropGone<K, V>(s: seq<(K, V)>, key: K)
    requires Distinct(s)
    ensures !Holds(Drop(s, key), key)
  {
    if Holds(s, key) {
      var i :| 0 <= i < |s| && s[i].0 == key;
      At(s, i);
      CutHolds(s, i);
    } else {
      Missing(s, key);
    }
  }

  lemma DropDistinct<K, V>(s: seq<(K, V)>, key: K)
    requires Distinct(s)
    ensures Distinct(Drop(s, key))
  {
    if Holds(s, key) {
      var i :| 0 <= i < |s| && s[i].0 == key;
      At(s, i);
    } else {
      Missing(s, key);
    }
  }

  lemma PushDistinct<K, V>(s: seq<(K, V)>, key: K, value: V)
    requires Distinct(s) && !Holds(s, key)
    ensures Distinct([(key, value)] + s)
  {
  }

  lemma TouchDistinct<K, V>(s: seq<(K, V)>, key: K)
    requires Distinct(s)
    ensures Distinct(Touch(s, key))
  {
    if Lookup(s, key).Some? {
      DropDistinct(s, key);
      DropGone(s, key);
      PushDistinct(Drop(s, key), key, Lookup(s, key).value);
    }
  }

  lemma PutDistinct<K, V>(s: seq<(K, V)>, capacity: nat, key: K, value: V)
    requires Distinct(s) && capacity > 0
    ensures Distinct(Put(s, capacity, key, value))
  {
    if Lookup(s, key).Some? {
      DropDistinct(s, key);
      DropGone(s, key);
      PushDistinct(Drop(s, key), key, value);
    } else {
      Found(s, key);
      PushDistinct(if |s| == capacity && |s| > 0 then s[..|s| - 1] else s, key, value);
    }
  }

  // ---- Whole runs ----

  datatype Op<K, V> = PutOp(key: K, value: V) | GetOp(key: K) | PeekOp(key: K) | EraseOp(key: K) | ClearOp

  function Step<K(==), V>(s: seq<(K, V)>, capacity: nat, op: Op<K, V>): seq<(K, V)>
    requires capacity > 0
  {
    match op
    case PutOp(k, v) => Put(s, capacity, k, v)
    case GetOp(k) => Touch(s, k)
    case PeekOp(_) => s
    case EraseOp(k) => Drop(s, k)
    case ClearOp => []
  }

  function Run<K(==), V>(capacity: nat, ops: seq<Op<K, V>>): seq<(K, V)>
    requires capacity > 0
  {
    if |ops| == 0 then [] else Step(Run(capacity, ops[..|ops| - 1]), capacity, ops[|ops| - 1])
  }

  /** When a key was last put or asked for; -1 if never. */
  function LastUse<K(==), V>(ops: seq<Op<K, V>>, key: K): (n: int)
    ensures -1 <= n < |ops|
  {
    if |ops| == 0 then -1
    else
      var last := ops[|ops| - 1];
      if (last.PutOp? || last.GetOp?) && last.key == key then |ops| - 1 else LastUse(ops[..|ops| - 1], key)
  }

  /** The value a plain map would hold after the run. */
  function Latest<K(==), V>(ops: seq<Op<K, V>>, key: K): Option<V> {
    if |ops| == 0 then None
    else
      match ops[|ops| - 1]
      case PutOp(k, v) => if k == key then Some(v) else Latest(ops[..|ops| - 1], key)
      case EraseOp(k) => if k == key then None else Latest(ops[..|ops| - 1], key)
      case ClearOp => None
      case _ => Latest(ops[..|ops| - 1], key)
  }

  /** Hottest first: every entry was used more recently than those behind it. */
  ghost predicate ByRecency<K, V>(s: seq<(K, V)>, ops: seq<Op<K, V>>) {
    forall i, j :: 0 <= i < j < |s| ==> LastUse(ops, s[i].0) > LastUse(ops, s[j].0)
  }

  ghost predicate Fresh<K, V>(s: seq<(K, V)>, ops: seq<Op<K, V>>) {
    forall i :: 0 <= i < |s| ==> Latest(ops, s[i].0) == Some(s[i].1)
  }

  lemma RecencyIsDistinct<K, V>(s: seq<(K, V)>, ops: seq<Op<K, V>>)
    requires ByRecency(s, ops)
    ensures Distinct(s)
  {
  }

  lemma CutInOrder<K, V>(s: seq<(K, V)>, ops: seq<Op<K, V>>, i: nat)
    requires ByRecency(s, ops) && Fresh(s, ops) && i < |s|
    ensures ByRecency(Cut(s, i), ops) && Fresh(Cut(s, i), ops)
  {
    hide LastUse, Latest;
  }

  lemma CutHolds<K, V>(s: seq<(K, V)>, i: nat)
    requires Distinct(s) && i < |s|
    ensures !Holds(Cut(s, i), s[i].0)
  {
  }

  lemma DropKeeps<K, V>(s: seq<(K, V)>, ops: seq<Op<K, V>>, key: K)
    requires ByRecency(s, ops) && Fresh(s, ops)
    ensures ByRecency(Drop(s, key), ops) && Fresh(Drop(s, key), ops)
    ensures !Holds(Drop(s, key), key) && |Drop(s, key)| == if Holds(s, key) then |s| - 1 else |s|
  {
    RecencyIsDistinct(s, ops);
    if Holds(s, key) {
      var i :| 0 <= i < |s| && s[i].0 == key;
      At(s, i);
      CutInOrder(s, ops, i);
      CutHolds(s, i);
    } else {
      Missing(s, key);
    }
  }

  /** Entries whose key the last operation does not name keep their place and value. */
  lemma Carry<K, V>(s: seq<(K, V)>, ops: seq<Op<K, V>>)
    requires |ops| > 0 && ByRecency(s, ops[..|ops| - 1]) && Fresh(s, ops[..|ops| - 1])
    requires var last := ops[|ops| - 1]; !last.ClearOp? && (last.PeekOp? || !Holds(s, last.key))
    ensures ByRecency(s, ops) && Fresh(s, ops)
  {
    var before, last := ops[..|ops| - 1], ops[|ops| - 1];
    forall i | 0 <= i < |s|
      ensures LastUse(ops, s[i].0) == LastUse(before, s[i].0) && Latest(ops, s[i].0) == Latest(before, s[i].0)
    {
      assert last.PeekOp? || s[i].0 != last.key;
    }
  }

  /** The key just used may stand in front of everything else. */
  lemma Front<K, V>(s: seq<(K, V)>, ops: seq<Op<K, V>>, key: K, value: V)
    requires ByRecency(s, ops) && Fresh(s, ops) && !Holds(s, key)
    requires |ops| > 0 && LastUse(ops, key) == |ops| - 1 && Latest(ops, key) == Some(value)
    ensures ByRecency([(key, value)] + s, ops) && Fresh([(key, value)] + s, ops)
  {
    hide LastUse, Latest;
    var r := [(key, value)] + s;
    forall i | 0 <= i < |s| ensures LastUse(ops, s[i].0) < |ops| - 1 {
      assert s[i].0 != key;
      UsedEarlier(ops, key, s[i].0);
    }
    assert forall a :: 0 < a < |r| ==> r[a] == s[a - 1];
  }

  lemma UsedEarlier<K, V>(ops: seq<Op<K, V>>, key: K, other: K)
    requires |ops| > 0 && LastUse(ops, key) == |ops| - 1 && other != key
    ensures LastUse(ops, other) < |ops| - 1
  {
  }

  /** After every run: within capacity, hottest first, and never a value other than the latest one put. */
  lemma {:induction false} RunKeepsRecency<K, V>(capacity: nat, ops: seq<Op<K, V>>)
    requires capacity > 0
    ensures |Run(capacity, ops)| <= capacity
    ensures ByRecency(Run(capacity, ops), ops) && Fresh(Run(capacity, ops), ops)
  {
    if |ops| > 0 {
      var before, last := ops[..|ops| - 1], ops[|ops| - 1];
      RunKeepsRecency(capacity, before);
      StepKeepsRecency(Run(capacity, before), capacity, ops);
    }
  }

  lemma StepKeepsRecency<K, V>(s: seq<(K, V)>, capacity: nat, ops: seq<Op<K, V>>)
    requires capacity > 0 && |s| <= capacity && |ops| > 0
    requires ByRecency(s, ops[..|ops| - 1]) && Fresh(s, ops[..|ops| - 1])
    ensures var s' := Step(s, capacity, ops[|ops| - 1]); |s'| <= capacity && ByRecency(s', ops) && Fresh(s', ops)
  {
    var before, last := ops[..|ops| - 1], ops[|ops| - 1];
    RecencyIsDistinct(s, before);
    if last.PutOp? || last.GetOp? || last.EraseOp? {
      Found(s, last.key);
      DropKeeps(s, before, last.key);
      Carry(Drop(s, last.key), ops);
    }
    match last
    case PutOp(k, v) =>
      if Lookup(s, k).Some? {
        Front(Drop(s, k), ops, k, v);
      } else {
        Missing(s, k);
        Front(if |s| == capacity then s[..|s| - 1] else s, ops, k, v);
      }
    case GetOp(k) =>
      if Lookup(s, k).Some? {
        var i :| 0 <= i < |s| && s[i].0 == k;
        At(s, i);
        Front(Drop(s, k), ops, k, s[i].1);
      } else {
        Missing(s, k);
      }
    case PeekOp(_) => Carry(s, ops);
    case EraseOp(_) =>
    case ClearOp =>
  }

  /** What a put pushes out of a full cache was used longer ago than everything that stays. */
  lemma EvictsLeastRecent<K, V>(capacity: nat, ops: seq<Op<K, V>>, key: K, value: V)
    requires capacity > 0
    requires var s := Run(capacity, ops); |s| == capacity && !Holds(s, key)
    ensures var s := Run(capacity, ops);
      var victim := s[|s| - 1].0;
      && !Holds(Put(s, capacity, key, value), victim)
      && Put(s, capacity, key, value)[1..] == s[..|s| - 1]
      && forall i :: 0 <= i < |s| - 1 ==> LastUse(ops, victim) < LastUse(ops, s[i].0)
  {
    var s := Run(capacity, ops);
    RunKeepsRecency(capacity, ops);
    RecencyIsDistinct(s, ops);
    Missing(s, key);
    assert s[|s| - 1].0 != key;
    assert Put(s, capacity, key, value) == [(key, value)] + s[..|s| - 1];
  }

  // ---- What stays: a key is kept until enough other keys have been used ----

  /** The other keys that were put or asked for. */
  ghost function Others<K, V>(ops: seq<Op<K, V>>, key: K): set<K> {
    if |ops| == 0 then {} else Others(ops[..|ops| - 1], key) + UsedOther(ops[|ops| - 1], key)
  }

  ghost function UsedOther<K, V>(op: Op<K, V>, key: K): set<K> {
    if (op.PutOp? || op.GetOp?) && op.key != key then {op.key} else {}
  }

  /** Nothing asked the cache to forget the key. */
  ghost predicate NotForgotten<K, V>(ops: seq<Op<K, V>>, key: K) {
    forall i :: 0 <= i < |ops| ==> !Forgets(ops[i], key)
  }

  ghost predicate Forgets<K, V>(op: Op<K, V>, key: K) {
    op.ClearOp? || (op.EraseOp? && op.key == key)
  }

  /** The key is held, and only keys of a given set stand before it. */
  ghost predicate HeldBehind<K, V>(s: seq<(K, V)>, key: K, ahead: set<K>) {
    exists i :: 0 <= i < |s| && s[i].0 == key && BeforeIn(s, i, ahead)
  }

  ghost predicate BeforeIn<K, V>(s: seq<(K, V)>, i: nat, ahead: set<K>)
    requires i <= |s|
  {
    forall j :: 0 <= j < i ==> s[j].0 in ahead
  }

  /** Distinct keys that all lie in a set are no more than the set has. */
  lemma {:induction false} KeysFit<K, V>(s: seq<(K, V)>, i: nat, ahead: set<K>)
    requires Distinct(s) && i <= |s| && BeforeIn(s, i, ahead)
    ensures i <= |ahead|
    decreases i
  {
    if i > 0 {
      var k := s[i - 1].0;
      KeysFit(s, i - 1, ahead - {k});
      assert |ahead - {k}| == |ahead| - 1;
    }
  }

  lemma CutHeldBehind<K, V>(s: seq<(K, V)>, j: nat, i: nat, ahead: set<K>)
    requires j < |s| && i < |s| && i != j && BeforeIn(s, i, ahead)
    ensures HeldBehind(Cut(s, j), s[i].0, ahead)
  {
    hide Cut;
    var at := if j < i then i - 1 else i;
    assert Cut(s, j)[at] == s[i];
    assert BeforeIn(Cut(s, j), at, ahead);
  }

  lemma DropHeldBehind<K, V>(s: seq<(K, V)>, other: K, key: K, ahead: set<K>)
    requires Distinct(s) && HeldBehind(s, key, ahead) && other != key
    ensures HeldBehind(Drop(s, other), key, ahead)
  {
    if Holds(s, other) {
      var i :| 0 <= i < |s| && s[i].0 == key && BeforeIn(s, i, ahead);
      var j :| 0 <= j < |s| && s[j].0 == other;
      hide BeforeIn, HeldBehind, Drop, Lookup, Cut, Distinct;
      At(s, j);
      CutHeldBehind(s, j, i, ahead);
    } else {
      hide BeforeIn, HeldBehind, Drop, Lookup;
      Missing(s, other);
    }
  }

  lemma PushHeldBehind<K, V>(s: seq<(K, V)>, e: (K, V), key: K, ahead: set<K>)
    requires HeldBehind(s, key, ahead)
    ensures HeldBehind([e] + s, key, ahead + {e.0})
  {
    var i :| 0 <= i < |s| && s[i].0 == key && BeforeIn(s, i, ahead);
    assert ([e] + s)[i + 1].0 == key;
    assert BeforeIn([e] + s, i + 1, ahead + {e.0});
  }

  /** A full cache has room for the key as long as fewer other keys than its capacity were used. */
  lemma EvictHeldBehind<K, V>(s: seq<(K, V)>, e: (K, V), key: K, ahead: set<K>)
    requires Distinct(s) && !Holds(s, e.0) && HeldBehind(s, key, ahead) && |ahead + {e.0}| < |s|
    ensures HeldBehind(s[..|s| - 1], key, ahead)
  {
    var i :| 0 <= i < |s| && s[i].0 == key && BeforeIn(s, i, ahead);
    PushDistinct(s, e.0, e.1);
    var r := [e] + s;
    assert [(e.0, e.1)] + s == r;
    assert BeforeIn(r, i + 1, ahead + {e.0});
    KeysFit(r, i + 1, ahead + {e.0});
    assert s[..|s| - 1][i].0 == key;
    assert BeforeIn(s[..|s| - 1], i, ahead);
  }

  lemma PutHeldBehind<K, V>(s: seq<(K, V)>, capacity: nat, k: K, v: V, key: K, ahead: set<K>)
    requires capacity > 0 && Distinct(s) && HeldBehind(s, key, ahead) && k != key
    requires |ahead + {k}| < capacity
    ensures HeldBehind(Put(s, capacity, k, v), key, ahead + {k})
  {
    hide HeldBehind, BeforeIn, Lookup, Drop;
    Found(s, k);
    if Lookup(s, k).Some? {
      DropHeldBehind(s, k, key, ahead);
      PushHeldBehind(Drop(s, k), (k, v), key, ahead);
    } else if |s| == capacity {
      EvictHeldBehind(s, (k, v), key, ahead);
      PushHeldBehind(s[..|s| - 1], (k, v), key, ahead);
    } else {
      PushHeldBehind(s, (k, v), key, ahead);
    }
  }

  lemma TouchHeldBehind<K, V>(s: seq<(K, V)>, k: K, key: K, ahead: set<K>)
    requires Distinct(s) && HeldBehind(s, key, ahead) && k != key
    ensures HeldBehind(Touch(s, k), key, ahead + {k})
  {
    if Lookup(s, k).Some? {
      DropHeldBehind(s, k, key, ahead);
      PushHeldBehind(Drop(s, k), (k, Lookup(s, k).value), key, ahead);
    } else {
      MoreBehind(s, key, ahead, {k});
    }
  }

  lemma MoreBehind<K, V>(s: seq<(K, V)>, key: K, ahead: set<K>, more: set<K>)
    requires HeldBehind(s, key, ahead)
    ensures HeldBehind(s, key, ahead + more)
  {
    var i :| 0 <= i < |s| && s[i].0 == key && BeforeIn(s, i, ahead);
    assert BeforeIn(s, i, ahead + more);
  }

  lemma FrontHeldBehind<K, V>(s: seq<(K, V)>, key: K, ahead: set<K>)
    requires |s| > 0 && s[0].0 == key
    ensures HeldBehind(s, key, ahead)
  {
    assert BeforeIn(s, 0, ahead);
  }

  lemma StepHeldBehind<K, V>(s: seq<(K, V)>, capacity: nat, op: Op<K, V>, key: K, ahead: set<K>)
    requires capacity > 0 && Distinct(s) && HeldBehind(s, key, ahead) && !Forgets(op, key)
    requires |ahead + UsedOther(op, key)| < capacity
    ensures HeldBehind(Step(s, capacity, op), key, ahead + UsedOther(op, key))
  {
    hide HeldBehind, BeforeIn, Lookup, Drop;
    assert ahead + {} == ahead;
    match op
    case PutOp(k, v) =>
      if k == key {
        FrontHeldBehind(Put(s, capacity, k, v), key, ahead);
      } else {
        hide Put;
        PutHeldBehind(s, capacity, k, v, key, ahead);
      }
    case GetOp(k) =>
      if k == key {
        HeldIsFound(s, key, ahead);
        FrontHeldBehind(Touch(s, k), key, ahead);
      } else {
        hide Touch;
        TouchHeldBehind(s, k, key, ahead);
      }
    case PeekOp(_) =>
    case EraseOp(k) => DropHeldBehind(s, k, key, ahead);
    case ClearOp =>
  }

  lemma HeldIsFound<K, V>(s: seq<(K, V)>, key: K, ahead: set<K>)
    requires Distinct(s) && HeldBehind(s, key, ahead)
    ensures Holds(s, key) && Lookup(s, key).Some?
  {
    assert Holds(s, key);
    Found(s, key);
  }

  /** The operation at `m` used the key: it put it, or asked for it and hit. */
  ghost predicate UsedAt<K, V>(capacity: nat, ops: seq<Op<K, V>>, m: nat, key: K)
    requires capacity > 0
  {
    && m < |ops|
    && (|| (ops[m].PutOp? && ops[m].key == key)
        || (ops[m].GetOp? && ops[m].key == key && Holds(Run(capacity, ops[..m]), key)))
  }

  lemma HeldAtUse<K, V>(capacity: nat, ops: seq<Op<K, V>>, m: nat, key: K)
    requires capacity > 0 && UsedAt(capacity, ops, m, key)
    ensures HeldBehind(Run(capacity, ops[..m + 1]), key, {})
  {
    hide Run, HeldBehind, Lookup, Drop;
    RunLast(capacity, ops, m + 1);
    var s := Run(capacity, ops[..m]);
    RunKeepsRecency(capacity, ops[..m]);
    RecencyIsDistinct(s, ops[..m]);
    Found(s, key);
    FrontHeldBehind(Step(s, capacity, ops[m]), key, {});
  }

  lemma {:induction false} HeldUpTo<K, V>(capacity: nat, ops: seq<Op<K, V>>, m: nat, n: nat, key: K)
    requires capacity > 0 && UsedAt(capacity, ops, m, key) && m < n <= |ops|
    requires NotForgotten(ops[m + 1..n], key) && |Others(ops[m + 1..n], key)| < capacity
    ensures HeldBehind(Run(capacity, ops[..n]), key, Others(ops[m + 1..n], key))
    decreases n
  {
    hide Run, Step, HeldBehind, UsedAt;
    if n == m + 1 {
      HeldAtUse(capacity, ops, m, key);
    } else {
      var since, since', op := ops[m + 1..n - 1], ops[m + 1..n], ops[n - 1];
      assert since' == since + [op] && since'[..|since'| - 1] == since;
      OneMore(Others(since, key), UsedOther(op, key));
      assert !Forgets(op, key) by {
        assert since'[|since|] == op;
      }
      assert NotForgotten(since, key) by {
        assert forall i :: 0 <= i < |since| ==> since[i] == since'[i];
      }
      HeldUpTo(capacity, ops, m, n - 1, key);
      RunKeepsRecency(capacity, ops[..n - 1]);
      RecencyIsDistinct(Run(capacity, ops[..n - 1]), ops[..n - 1]);
      StepHeldBehind(Run(capacity, ops[..n - 1]), capacity, op, key, Others(since, key));
      RunLast(capacity, ops, n);
    }
  }

  lemma RunLast<K, V>(capacity: nat, ops: seq<Op<K, V>>, n: nat)
    requires capacity > 0 && 0 < n <= |ops|
    ensures Run(capacity, ops[..n]) == Step(Run(capacity, ops[..n - 1]), capacity, ops[n - 1])
  {
    hide Step;
    assert ops[..n][..n - 1] == ops[..n - 1];
  }

  lemma OneMore<K>(a: set<K>, b: set<K>)
    requires |b| <= 1
    ensures |a| <= |a + b|
  {
    if b != {} {
      var x :| x in b;
      assert |b - {x}| == 0;
      assert b == {x};
      assert x in a ==> a + b == a;
    } else {
      assert a + b == a;
    }
  }

  /** In every run: once used, a key is found with its latest value until it is erased or cleared, or at least as many
      other keys as the capacity have been put or asked for since. */
  lemma KeptUntilCrowdedOut<K, V>(capacity: nat, ops: seq<Op<K, V>>, m: nat, key: K)
    requires capacity > 0 && UsedAt(capacity, ops, m, key)
    requires NotForgotten(ops[m + 1..], key) && |Others(ops[m + 1..], key)| < capacity
    ensures Latest(ops, key).Some? && Lookup(Run(capacity, ops), key) == Latest(ops, key)
  {
    assert ops[..|ops|] == ops && ops[m + 1..|ops|] == ops[m + 1..];
    hide Run, Others, UsedAt, NotForgotten;
    HeldUpTo(capacity, ops, m, |ops|, key);
    RunKeepsRecency(capacity, ops);
    HeldHasLatest(Run(capacity, ops), ops, key, Others(ops[m + 1..], key));
  }

  lemma HeldHasLatest<K, V>(s: seq<(K, V)>, ops: seq<Op<K, V>>, key: K, ahead: set<K>)
    requires ByRecency(s, ops) && Fresh(s, ops) && HeldBehind(s, key, ahead)
    ensures Latest(ops, key).Some? && Lookup(s, key) == Latest(ops, key)
  {
    hide LastUse, Latest;
    RecencyIsDistinct(s, ops);
    var i :| 0 <= i < |s| && s[i].0 == key;
    LookupAt(s, i);
  }
}
