/** When a read cache agrees with the map it caches, and what keeps it so. */
module Coherence {
  import R = Recency

  /** Every cached row is the stored row of that id. */
  ghost predicate Coherent<V>(cached: seq<(int, V)>, m: map<int, V>) {
    forall i :: 0 <= i < |cached| ==> cached[i].0 in m && m[cached[i].0] == cached[i].1
  }

  lemma CoherentPart<V>(part: seq<(int, V)>, cached: seq<(int, V)>, m: map<int, V>)
    requires Coherent(cached, m) && forall i :: 0 <= i < |part| ==> part[i] in cached
    ensures Coherent(part, m)
  {
  }

  /** A hit is the row a tree search would find. */
  lemma HitIsStored<V>(cached: seq<(int, V)>, m: map<int, V>, id: int)
    requires Coherent(cached, m) && R.Lookup(cached, id).Some?
    ensures id in m && m[id] == R.Lookup(cached, id).value
  {
    R.LookupIn(cached, id);
  }

  lemma CoherentTouch<V>(cached: seq<(int, V)>, m: map<int, V>, id: int)
    requires Coherent(cached, m)
    ensures Coherent(R.Touch(cached, id), m)
  {
    if R.Lookup(cached, id).Some? {
      HitIsStored(cached, m, id);
      R.DropIn(cached, id);
      CoherentPart(R.Drop(cached, id), cached, m);
    }
  }

  lemma CoherentPut<V>(cached: seq<(int, V)>, m: map<int, V>, capacity: nat, id: int)
    requires Coherent(cached, m) && capacity > 0 && id in m
    ensures Coherent(R.Put(cached, capacity, id, m[id]), m)
  {
    R.DropIn(cached, id);
    CoherentPart(R.Drop(cached, id), cached, m);
  }

  /** Forgetting an id makes room for any change to its row. */
  lemma CoherentForget<V>(cached: seq<(int, V)>, m: map<int, V>, m': map<int, V>, id: int)
    requires R.Distinct(cached) && Coherent(cached, m)
    requires forall k :: k in m && k != id ==> k in m' && m'[k] == m[k]
    ensures Coherent(R.Drop(cached, id), m')
  {
    R.DropIn(cached, id);
    R.DropGone(cached, id);
    CoherentPart(R.Drop(cached, id), cached, m);
    forall i | 0 <= i < |R.Drop(cached, id)| ensures R.Drop(cached, id)[i].0 != id {
    }
  }

  /** Cached rows agree with the tree, except for ids still to be forgotten. */
  ghost predicate CoherentBut<V>(cached: seq<(int, V)>, m: map<int, V>, stale: seq<int>) {
    forall i :: 0 <= i < |cached| ==> cached[i].0 in stale || (cached[i].0 in m && m[cached[i].0] == cached[i].1)
  }

  lemma ForgetStale<V>(cached: seq<(int, V)>, m: map<int, V>, stale: seq<int>)
    requires R.Distinct(cached) && |stale| > 0 && CoherentBut(cached, m, stale)
    ensures CoherentBut(R.Drop(cached, stale[0]), m, stale[1..])
  {
    var r := R.Drop(cached, stale[0]);
    R.DropIn(cached, stale[0]);
    R.DropGone(cached, stale[0]);
    forall i | 0 <= i < |r| ensures r[i].0 in stale[1..] || (r[i].0 in m && m[r[i].0] == r[i].1) {
      var j :| 0 <= j < |cached| && cached[j] == r[i];
      assert r[i].0 != stale[0];
      assert stale == [stale[0]] + stale[1..];
    }
  }

  // ---- What each operation leaves in the cache ----

  /** After a lookup: a hit is promoted, a miss that the map answers is cached, any other miss changes nothing. */
  ghost function AfterLookup<V>(cached: seq<(int, V)>, capacity: nat, m: map<int, V>, id: int): seq<(int, V)>
    requires capacity > 0
  {
    if R.Lookup(cached, id).Some? then R.Touch(cached, id)
    else if id in m then R.Put(cached, capacity, id, m[id])
    else cached
  }

  lemma LookupCases<V>(cached: seq<(int, V)>, capacity: nat, m: map<int, V>, id: int)
    requires capacity > 0
    ensures R.Lookup(cached, id).Some? ==> AfterLookup(cached, capacity, m, id) == R.Touch(cached, id)
    ensures R.Lookup(cached, id).None? ==> R.Touch(cached, id) == cached
    ensures R.Lookup(cached, id).None? ==>
      AfterLookup(cached, capacity, m, id) == if id in m then R.Put(cached, capacity, id, m[id]) else cached
  {
  }

  /** The cached rows whose id is not among those gone, in order. */
  ghost function Remaining<V>(cached: seq<(int, V)>, gone: set<int>): seq<(int, V)> {
    if |cached| == 0 then []
    else (if cached[0].0 in gone then [] else [cached[0]]) + Remaining(cached[1..], gone)
  }

  ghost function SetOf(ids: seq<int>): set<int> {
    set id | id in ids
  }

  lemma SetOfNext(ids: seq<int>, j: nat)
    requires j < |ids|
    ensures SetOf(ids[..j + 1]) == SetOf(ids[..j]) + {ids[j]}
  {
    assert ids[..j + 1] == ids[..j] + [ids[j]];
  }

  lemma {:induction false} NoneGone<V>(cached: seq<(int, V)>)
    ensures Remaining(cached, {}) == cached
  {
    if |cached| > 0 {
      NoneGone(cached[1..]);
    }
  }

  lemma {:induction false} AbsentGone<V>(cached: seq<(int, V)>, gone: set<int>, id: int)
    requires forall i :: 0 <= i < |cached| ==> cached[i].0 != id
    ensures Remaining(cached, gone + {id}) == Remaining(cached, gone)
  {
    if |cached| > 0 {
      AbsentGone(cached[1..], gone, id);
    }
  }

  /** Erasing ids one by one leaves the rows of all other ids. */
  lemma {:induction false} OneMoreGone<V>(cached: seq<(int, V)>, gone: set<int>, id: int)
    requires R.Distinct(cached)
    ensures R.Drop(Remaining(cached, gone), id) == Remaining(cached, gone + {id})
  {
    if |cached| > 0 {
      var rest := Remaining(cached[1..], gone);
      assert [] + rest == rest && ([cached[0]] + rest)[1..] == rest;
      if cached[0].0 == id && id !in gone {
        AbsentGone(cached[1..], gone, id);
      } else {
        OneMoreGone(cached[1..], gone, id);
      }
      var rest' := Remaining(cached[1..], gone + {id});
      assert [] + rest' == rest';
    }
  }
}
