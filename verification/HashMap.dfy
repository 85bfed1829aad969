/** Open addressing with linear probing, tombstones and rehashing, refining a finite map for every hash function. */
module HashMaps {
  import opened Options

  datatype Slot<K, V> = Empty | Deleted | Occupied(key: K, value: V)

  // ---- `& mask` on a power-of-two capacity ----

  function And(x: nat, y: nat): (r: nat)
    ensures r <= y
  {
    if x == 0 || y == 0 then 0 else (x % 2) * (y % 2) + 2 * And(x / 2, y / 2)
  }

  ghost function Pow2(e: nat): (n: nat)
    ensures n >= 1
  {
    if e == 0 then 1 else 2 * Pow2(e - 1)
  }

  function Remainder(x: nat, d: nat): (r: nat)
    requires d > 0
    ensures r < d
  {
    x % d
  }

  /** Masking with capacity - 1 is the remainder modulo the capacity. */
  lemma {:induction false} MaskIsModulo(x: nat, e: nat)
    ensures And(x, Pow2(e) - 1) == Remainder(x, Pow2(e))
  {
    hide And, Remainder;
    if e == 0 {
      MaskNothing(x);
    } else {
      var half := Pow2(e - 1);
      MaskIsModulo(x / 2, e - 1);
      OddMask(x, half);
      HalveModulo(x, half);
    }
  }

  lemma MaskNothing(x: nat)
    ensures And(x, 0) == 0 == Remainder(x, 1)
  {
  }

  lemma OddMask(x: nat, half: nat)
    requires half >= 1
    ensures And(x, 2 * half - 1) == x % 2 + 2 * And(x / 2, half - 1)
  {
    var y := 2 * half - 1;
    assert y % 2 == 1 && y / 2 == half - 1;
  }

  lemma HalveModulo(x: nat, half: nat)
    requires half > 0
    ensures Remainder(x, 2 * half) == 2 * Remainder(x / 2, half) + x % 2
  {
    var q, r := x / 2 / half, x / 2 % half;
    Scale(half, q);
    ModuloUnique(x, 2 * half, q, 2 * r + x % 2);
  }

  lemma Scale(half: nat, q: nat)
    ensures 2 * half * q == 2 * (half * q)
  {
  }

  lemma ModuloUnique(x: nat, d: nat, q: nat, r: nat)
    requires x == d * q + r && r < d
    ensures Remainder(x, d) == r
  {
    Gap(d, x / d, q);
    Gap(d, q, x / d);
  }

  lemma Gap(d: nat, a: nat, b: nat)
    ensures a > b ==> d * a >= d * b + d
  {
    if a > b {
      assert d * a == d * b + d * (a - b);
      assert d * (a - b) == d + d * (a - b - 1);
    }
  }

  lemma MaskStep(i: nat, e: nat)
    requires i <= Pow2(e)
    ensures And(i, Pow2(e) - 1) == if i == Pow2(e) then 0 else i
  {
    hide And, Remainder;
    MaskIsModulo(i, e);
    if i == Pow2(e) {
      ModuloUnique(i, i, 1, 0);
    } else {
      ModuloUnique(i, Pow2(e), 0, i);
    }
  }

  /** The slot reached after `d` probes from `home`. */
  function Probe(home: nat, d: nat, capacity: nat): nat
    requires home < capacity && d <= capacity
  {
    if home + d < capacity then home + d else home + d - capacity
  }

  /** Distance from `home` to slot `j`. */
  function Distance(home: nat, j: nat, capacity: nat): nat
    requires home < capacity && j < capacity
  {
    if home <= j then j - home else j + capacity - home
  }

  /** The slot `d` probes away holds `key`, and no probe on the way meets an empty slot. */
  ghost predicate Reaches<K, V>(s: seq<Slot<K, V>>, home: nat, d: nat, key: K)
    requires home < |s| && d < |s|
  {
    && s[Probe(home, d, |s|)].Occupied?
    && s[Probe(home, d, |s|)].key == key
    && NoEmpty(s, home, d)
  }

  ghost predicate NoEmpty<K, V>(s: seq<Slot<K, V>>, home: nat, d: nat)
    requires home < |s| && d <= |s|
  {
    forall e :: 0 <= e < d ==> !s[Probe(home, e, |s|)].Empty?
  }

  ghost predicate NoneFree<K, V>(s: seq<Slot<K, V>>, home: nat, d: nat)
    requires home < |s| && d <= |s|
    ensures NoneFree(s, home, d) ==> NoEmpty(s, home, d)
  {
    forall e :: 0 <= e < d ==> s[Probe(home, e, |s|)].Occupied?
  }

  ghost function Home<K>(hash: K -> nat, key: K, capacity: nat): (home: nat)
    requires capacity > 0
    ensures home < capacity
  {
    Remainder(hash(key), capacity)
  }

  ghost predicate Reachable<K, V>(s: seq<Slot<K, V>>, hash: K -> nat, key: K)
    requires |s| > 0
  {
    exists d :: 0 <= d < |s| && Reaches(s, Home(hash, key, |s|), d, key)
  }

  /** Every occupied slot holds a binding of `m`, and no two hold the same key. */
  ghost predicate Sound<K, V>(s: seq<Slot<K, V>>, m: map<K, V>) {
    && (forall j :: 0 <= j < |s| && s[j].Occupied? ==> s[j].key in m && m[s[j].key] == s[j].value)
    && (forall i, j :: 0 <= i < j < |s| && s[i].Occupied? && s[j].Occupied? ==> s[i].key != s[j].key)
  }

  /** The table `s` stores exactly the bindings of `m`, each on its key's probe chain and no key twice. */
  ghost predicate Stores<K, V>(s: seq<Slot<K, V>>, hash: K -> nat, m: map<K, V>) {
    |s| > 0 && Sound(s, m) && forall k :: k in m ==> Reachable(s, hash, k)
  }

  /** A probe that met neither the key nor an empty slot so far. */
  ghost predicate Passed<K, V>(s: seq<Slot<K, V>>, home: nat, p: nat, key: K)
    requires home < |s| && p <= |s|
  {
    forall e :: 0 <= e < p ==>
      var slot := s[Probe(home, e, |s|)]; !slot.Empty? && !(slot.Occupied? && slot.key == key)
  }

  lemma StoredValue<K, V>(s: seq<Slot<K, V>>, hash: K -> nat, m: map<K, V>, i: nat)
    requires Stores(s, hash, m) && i < |s| && s[i].Occupied?
    ensures s[i].key in m && m[s[i].key] == s[i].value
  {
  }

  /** A chain that ends in an empty slot, or wraps all the way round, shows the key absent. */
  lemma Absent<K, V>(s: seq<Slot<K, V>>, hash: K -> nat, m: map<K, V>, key: K, p: nat)
    requires Stores(s, hash, m) && p <= |s| && Passed(s, Home(hash, key, |s|), p, key)
    requires p == |s| || s[Probe(Home(hash, key, |s|), p, |s|)].Empty?
    ensures key !in m
  {
    hide Home, Sound;
  }

  /** A chain survives any change that empties no slot and leaves the key where it was. */
  lemma StillReachable<K, V>(s: seq<Slot<K, V>>, hash: K -> nat, key: K, i: nat, slot: Slot<K, V>)
    requires i < |s| && Reachable(s, hash, key) && !slot.Empty?
    requires s[i].Occupied? && s[i].key == key ==> slot.Occupied? && slot.key == key
    ensures Reachable(s[i := slot], hash, key)
  {
    hide Home;
    var home := Home(hash, key, |s|);
    var d :| 0 <= d < |s| && Reaches(s, home, d, key);
    assert Reaches(s[i := slot], home, d, key);
  }

  /** Filling a free slot on the new key's own chain stores one more binding. */
  lemma Filled<K, V>(s: seq<Slot<K, V>>, hash: K -> nat, m: map<K, V>, key: K, value: V, d: nat)
    requires Stores(s, hash, m) && key !in m && d < |s|
    requires !s[Probe(Home(hash, key, |s|), d, |s|)].Occupied?
    requires NoEmpty(s, Home(hash, key, |s|), d)
    ensures Stores(s[Probe(Home(hash, key, |s|), d, |s|) := Occupied(key, value)], hash, m[key := value])
  {
    hide Home;
    var i := Probe(Home(hash, key, |s|), d, |s|);
    assert Reaches(s[i := Occupied(key, value)], Home(hash, key, |s|), d, key);
    assert Reachable(s[i := Occupied(key, value)], hash, key);
    hide Reachable;
    forall k | k in m ensures Reachable(s[i := Occupied(key, value)], hash, k) {
      StillReachable(s, hash, k, i, Occupied(key, value));
    }
  }

  /** Overwriting the value of a stored key. */
  lemma Assigned<K, V>(s: seq<Slot<K, V>>, hash: K -> nat, m: map<K, V>, i: nat, value: V)
    requires Stores(s, hash, m) && i < |s| && s[i].Occupied?
    ensures Stores(s[i := Occupied(s[i].key, value)], hash, m[s[i].key := value])
  {
    hide Reachable;
    forall k | k in m ensures Reachable(s[i := Occupied(s[i].key, value)], hash, k) {
      StillReachable(s, hash, k, i, Occupied(s[i].key, value));
    }
  }

  /** A tombstone keeps every other chain alive. */
  lemma Buried<K, V>(s: seq<Slot<K, V>>, hash: K -> nat, m: map<K, V>, i: nat)
    requires Stores(s, hash, m) && i < |s| && s[i].Occupied?
    ensures Stores(s[i := Deleted], hash, m - {s[i].key})
  {
    hide Reachable;
    forall k | k in m && k != s[i].key ensures Reachable(s[i := Deleted], hash, k) {
      StillReachable(s, hash, k, i, Deleted);
    }
  }

  /** `part` holds exactly the bindings of `m` found in the first `i` slots. */
  ghost predicate Copied<K, V>(s: seq<Slot<K, V>>, i: nat, m: map<K, V>, part: map<K, V>)
    requires i <= |s|
  {
    && (forall k :: k in part ==> k in m && part[k] == m[k])
    && (forall j :: 0 <= j < i && s[j].Occupied? ==> s[j].key in part)
    && (forall k :: k in part ==> exists j :: 0 <= j < i && s[j].Occupied? && s[j].key == k)
  }

  lemma CopyFresh<K, V>(s: seq<Slot<K, V>>, hash: K -> nat, m: map<K, V>, i: nat, part: map<K, V>)
    requires Stores(s, hash, m) && i < |s| && s[i].Occupied? && Copied(s, i, m, part)
    ensures s[i].key !in part && |part| < |m|
  {
    Smaller(part, m, s[i].key);
  }

  lemma CopyNext<K, V>(s: seq<Slot<K, V>>, m: map<K, V>, i: nat, part: map<K, V>)
    requires i < |s| && s[i].Occupied? && s[i].key in m && m[s[i].key] == s[i].value && Copied(s, i, m, part)
    ensures Copied(s, i + 1, m, part[s[i].key := s[i].value])
  {
  }

  lemma CopySkip<K, V>(s: seq<Slot<K, V>>, m: map<K, V>, i: nat, part: map<K, V>)
    requires i < |s| && !s[i].Occupied? && Copied(s, i, m, part)
    ensures Copied(s, i + 1, m, part)
  {
  }

  lemma CopiedAll<K, V>(s: seq<Slot<K, V>>, hash: K -> nat, m: map<K, V>, part: map<K, V>)
    requires Stores(s, hash, m) && Copied(s, |s|, m, part)
    ensures part == m
  {
    hide Home;
    forall k | k in m ensures k in part {
      assert Reachable(s, hash, k);
      var d :| 0 <= d < |s| && Reaches(s, Home(hash, k, |s|), d, k);
      assert s[Probe(Home(hash, k, |s|), d, |s|)].key in part;
    }
  }

  // ---- Counting slots ----

  /** 1 for a slot that counts: any slot in use, or only live ones. */
  function Weight<K, V>(slot: Slot<K, V>, live: bool): nat {
    match slot
    case Empty => 0
    case Deleted => if live then 0 else 1
    case Occupied(_, _) => 1
  }

  ghost function Count<K, V>(s: seq<Slot<K, V>>, live: bool): nat {
    if |s| == 0 then 0 else Count(s[..|s| - 1], live) + Weight(s[|s| - 1], live)
  }

  lemma {:induction false} CountUpdate<K, V>(s: seq<Slot<K, V>>, live: bool, i: nat, slot: Slot<K, V>)
    requires i < |s|
    ensures Count(s[i := slot], live) == Count(s, live) - Weight(s[i], live) + Weight(slot, live)
  {
    var last := |s| - 1;
    if i == last {
      assert s[i := slot][..last] == s[..last];
    } else {
      CountUpdate(s[..last], live, i, slot);
      assert s[i := slot][..last] == s[..last][i := slot];
    }
  }

  lemma {:induction false} LiveAtMostUsed<K, V>(s: seq<Slot<K, V>>)
    ensures Count(s, true) <= Count(s, false)
  {
    if |s| > 0 {
      LiveAtMostUsed(s[..|s| - 1]);
    }
  }

  lemma {:induction false} AllEmpty<K, V>(s: seq<Slot<K, V>>, live: bool)
    requires forall j :: 0 <= j < |s| ==> s[j].Empty?
    ensures Count(s, live) == 0
  {
    if |s| > 0 {
      AllEmpty(s[..|s| - 1], live);
    }
  }

  /** Below full load some slot is empty. */
  lemma {:induction false} SomeEmpty<K, V>(s: seq<Slot<K, V>>) returns (j: nat)
    requires Count(s, false) < |s|
    ensures j < |s| && s[j].Empty?
  {
    var last := |s| - 1;
    if s[last].Empty? {
      j := last;
    } else {
      j := SomeEmpty(s[..last]);
    }
  }

  // ---- The map ----

  const MIN_CAPACITY: nat := 16

  class HashMap<K(==), V> {
    var slots: array<Slot<K, V>>
    var size: nat
    var used: nat
    const hash: K -> nat
    ghost var exponent: nat
    ghost var Model: map<K, V>

    ghost predicate Valid()
      reads this, slots
    {
      && slots.Length == Pow2(exponent) && slots.Length >= MIN_CAPACITY
      && Stores(slots[..], hash, Model)
      && size == |Model| == Count(slots[..], true)
      && used == Count(slots[..], false)
      && 10 * used <= 7 * slots.Length
    }

    constructor (hash: K -> nat, initialCapacity: nat)
      ensures Valid() && fresh(slots) && Model == map[] && this.hash == hash
      ensures slots.Length >= initialCapacity && (slots.Length == 16 || slots.Length < 2 * initialCapacity)
    {
      var capacity := MIN_CAPACITY;
      ghost var e := 4;
      while capacity < initialCapacity
        invariant capacity == Pow2(e) && capacity >= MIN_CAPACITY
        invariant capacity == MIN_CAPACITY || capacity < 2 * initialCapacity
        decreases initialCapacity - capacity
      {
        capacity := capacity * 2;
        e := e + 1;
      }
      slots := new Slot<K, V>[capacity](_ => Empty);
      size, used, exponent := 0, 0, e;
      this.hash := hash;
      Model := map[];
      new;
      AllEmpty(slots[..], true);
      AllEmpty(slots[..], false);
    }

    /** `hash & mask`. */
    method HomeIndex(key: K) returns (i: nat)
      requires Valid()
      ensures i == Home(hash, key, slots.Length)
    {
      MaskIsModulo(hash(key), exponent);
      i := And(hash(key), slots.Length - 1);
    }

    /** `(index + 1) & mask`: one step along the table, wrapping at the end. */
    method NextIndex(index: nat) returns (i: nat)
      requires Valid() && index < slots.Length
      ensures i == if index + 1 == slots.Length then 0 else index + 1
    {
      MaskStep(index + 1, exponent);
      i := And(index + 1, slots.Length - 1);
    }

    /** Finds the slot of a key exactly when the key is stored. */
    method FindSlot(key: K) returns (found: Option<nat>)
      requires Valid()
      ensures found.Some? <==> key in Model
      ensures found.Some? ==> found.value < slots.Length && slots[found.value] == Occupied(key, Model[key])
    {
      hide Stores, Count, Pow2, Home;
      var index := HomeIndex(key);
      ghost var home := index;
      var probes := 0;
      while probes < slots.Length
        invariant 0 <= probes <= slots.Length && index == Probe(home, probes, slots.Length)
        invariant Passed(slots[..], home, probes, key)
      {
        var slot := slots[index];
        if slot.Empty? {
          Absent(slots[..], hash, Model, key, probes);
          return None;
        }
        if slot.Occupied? && slot.key == key {
          StoredValue(slots[..], hash, Model, index);
          return Some(index);
        }
        index := NextIndex(index);
        probes := probes + 1;
      }
      Absent(slots[..], hash, Model, key, probes);
      return None;
    }

    /** Overwrites the value in an occupied slot. */
    method Overwrite(index: nat, value: V)
      requires Valid() && index < slots.Length && slots[index].Occupied?
      modifies this`Model, slots
      ensures Valid() && Model == old(Model)[old(slots[index].key) := value]
    {
      hide Stores, Count, Pow2;
      ghost var s := slots[..];
      var slot := Occupied(slots[index].key, value);
      StoredValue(s, hash, Model, index);
      Assigned(s, hash, Model, index, value);
      Recount(s, index, slot);
      slots[index] := slot;
      Model := Model[slot.key := value];
      assert slots[..] == s[index := slot];
    }

    /** Fills a free slot, `d` probes along the chain of an absent key. */
    method Fill(target: nat, key: K, value: V, ghost d: nat)
      requires Valid() && key !in Model && 10 * (used + 1) <= 7 * slots.Length
      requires d < slots.Length && target == Probe(Home(hash, key, slots.Length), d, slots.Length)
      requires !slots[target].Occupied?
      requires NoEmpty(slots[..], Home(hash, key, slots.Length), d)
      modifies this`size, this`used, this`Model, slots
      ensures Valid() && Model == old(Model)[key := value] && used <= old(used) + 1
    {
      hide Stores, Count, Pow2, Home;
      ghost var s := slots[..];
      Filled(s, hash, Model, key, value, d);
      Recount(s, target, Occupied(key, value));
      if slots[target].Empty? {
        used := used + 1;
      }
      slots[target] := Occupied(key, value);
      size := size + 1;
      Model := Model[key := value];
      assert slots[..] == s[target := Occupied(key, value)];
    }

    /** The probe loop of `place`: stops at the key's slot, or at an empty slot, and then prefers the chain's
        earliest tombstone. The load bound is what ends the loop. */
    method Locate(key: K) returns (present: bool, target: nat, ghost d: nat)
      requires Valid()
      ensures present <==> key in Model
      ensures d < slots.Length && target == Probe(Home(hash, key, slots.Length), d, slots.Length)
      ensures if present then slots[target].Occupied? && slots[target].key == key else !slots[target].Occupied?
      ensures !present ==> NoneFree(slots[..], Home(hash, key, slots.Length), d)
    {
      hide Stores, Count, Pow2, Home;
      var index := HomeIndex(key);
      ghost var home, p, firstAt := index, 0, 0;
      var firstDeleted: Option<nat> := None;
      ghost var s := slots[..];
      ghost var free := SomeEmpty(s);
      ghost var limit := Distance(home, free, slots.Length);
      while true
        invariant 0 <= p <= limit && index == Probe(home, p, slots.Length)
        invariant Passed(s, home, p, key)
        invariant firstDeleted.Some? ==>
          firstAt < p && firstDeleted.value == Probe(home, firstAt, slots.Length) && slots[firstDeleted.value].Deleted?
        invariant NoneFree(s, home, if firstDeleted.Some? then firstAt else p)
        decreases limit - p
      {
        var slot := slots[index];
        if slot.Occupied? && slot.key == key {
          StoredValue(s, hash, Model, index);
          return true, index, p;
        }
        if slot.Deleted? && firstDeleted.None? {
          firstDeleted, firstAt := Some(index), p;
        }
        if slot.Empty? {
          Absent(s, hash, Model, key, p);
          if firstDeleted.Some? {
            return false, firstDeleted.value, firstAt;
          }
          return false, index, p;
        }
        index := NextIndex(index);
        p := p + 1;
      }
    }

    /** Writes a binding into the probe chain of its key. */
    method Place(key: K, value: V, assignIfPresent: bool) returns (added: bool)
      requires Valid() && 10 * (used + 1) <= 7 * slots.Length
      modifies this`size, this`used, this`Model, slots
      ensures Valid()
      ensures added <==> key !in old(Model)
      ensures Model == if added || assignIfPresent then old(Model)[key := value] else old(Model)
      ensures used <= old(used) + 1
    {
      var present, target;
      ghost var d;
      present, target, d := Locate(key);
      if !present {
        Fill(target, key, value, d);
      } else if assignIfPresent {
        Overwrite(target, value);
      }
      return !present;
    }

    /** Grows the table, or rebuilds it at the same size to clear tombstones, when one more slot would pass 70%. */
    method ReserveForOneMore()
      requires Valid()
      modifies this, slots
      ensures Valid() && Model == old(Model) && (slots == old(slots) || fresh(slots))
      ensures 10 * (used + 1) <= 7 * slots.Length
      ensures var room := 10 * (old(used) + 1) <= 7 * old(slots.Length);
        var live := 10 * (old(size) + 1) > 4 * old(slots.Length);
        && (slots == old(slots) <==> room) && (!room ==> used == size)
        && slots.Length == if room || !live then old(slots.Length) else 2 * old(slots.Length)
    {
      hide Stores, Count;
      if (used + 1) * 10 <= slots.Length * 7 {
        return;
      }
      LiveAtMostUsed(slots[..]);
      var mostlyLive := (size + 1) * 10 > slots.Length * 4;
      if mostlyLive {
        Rehash(slots.Length * 2, exponent + 1);
      } else {
        Rehash(slots.Length, exponent);
      }
    }

    /** Re-places every live binding in a fresh table. */
    method Rehash(newCapacity: nat, ghost newExponent: nat)
      requires Valid() && newCapacity == Pow2(newExponent) && newCapacity >= MIN_CAPACITY
      requires 10 * (size + 1) <= 7 * newCapacity
      modifies this
      ensures Valid() && fresh(slots) && slots.Length == newCapacity && Model == old(Model)
      ensures used == size
    {
      hide Count, Pow2, Home;
      var previous := slots;
      ghost var m := Model;
      slots := new Slot<K, V>[newCapacity](_ => Empty);
      size, used, exponent := 0, 0, newExponent;
      Model := map[];
      AllEmpty(slots[..], true);
      AllEmpty(slots[..], false);
      Refill(previous, m);
      LiveAtMostUsed(slots[..]);
    }

    /** The copying loop of `rehash`. */
    method Refill(previous: array<Slot<K, V>>, ghost m: map<K, V>)
      requires Valid() && Model == map[] && used == 0 && previous != slots
      requires Stores(previous[..], hash, m) && 10 * (|m| + 1) <= 7 * slots.Length
      modifies this`size, this`used, this`Model, slots
      ensures Valid() && Model == m && used <= size
    {
      ghost var s := previous[..];
      for i := 0 to previous.Length
        invariant Valid() && previous[..] == s
        invariant used <= size && Copied(s, i, m, Model)
      {
        if previous[i].Occupied? {
          CopyFresh(s, hash, m, i, Model);
          CopyNext(s, m, i, Model);
          var added := Place(previous[i].key, previous[i].value, false);
        } else {
          CopySkip(s, m, i, Model);
        }
      }
      CopiedAll(s, hash, m, Model);
    }

    /** Inserts only if the key is absent. */
    method Insert(key: K, value: V) returns (added: bool)
      requires Valid()
      modifies this, slots
      ensures Valid() && (slots == old(slots) || fresh(slots))
      ensures added <==> key !in old(Model)
      ensures Model == if added then old(Model)[key := value] else old(Model)
    {
      ReserveForOneMore();
      added := Place(key, value, false);
    }

    /** Inserts or overwrites. */
    method InsertOrAssign(key: K, value: V) returns (added: bool)
      requires Valid()
      modifies this, slots
      ensures Valid() && (slots == old(slots) || fresh(slots))
      ensures added <==> key !in old(Model)
      ensures Model == old(Model)[key := value]
    {
      ReserveForOneMore();
      added := Place(key, value, true);
    }

    method Find(key: K) returns (value: Option<V>)
      requires Valid()
      ensures value == if key in Model then Some(Model[key]) else None
    {
      var index := FindSlot(key);
      return if index.None? then None else Some(slots[index.value].value);
    }

    /** Removes a key, leaving a tombstone. */
    method Erase(key: K) returns (erased: bool)
      requires Valid()
      modifies this, slots
      ensures Valid() && slots == old(slots)
      ensures erased <==> key in old(Model)
      ensures Model == old(Model) - {key}
    {
      hide Stores, Count, Pow2;
      var index := FindSlot(key);
      if index.None? {
        return false;
      }
      ghost var s := slots[..];
      Buried(s, hash, Model, index.value);
      Recount(s, index.value, Deleted);
      slots[index.value] := Deleted;
      Model := Model - {key};
      size := size - 1;
      assert slots[..] == s[index.value := Deleted];
      return true;
    }
  }

  lemma Recount<K, V>(s: seq<Slot<K, V>>, i: nat, slot: Slot<K, V>)
    requires i < |s|
    ensures forall live :: Count(s[i := slot], live) == Count(s, live) - Weight(s[i], live) + Weight(slot, live)
  {
    CountUpdate(s, true, i, slot);
    CountUpdate(s, false, i, slot);
  }

  /** A part of a map that misses one of its keys is smaller. */
  lemma Smaller<K, V>(a: map<K, V>, b: map<K, V>, key: K)
    requires a.Keys <= b.Keys && key in b && key !in a
    ensures |a| < |b|
  {
    SubsetSize(a.Keys + {key}, b.Keys);
  }

  lemma {:induction false} SubsetSize<K>(a: set<K>, b: set<K>)
    requires a <= b
    ensures |a| <= |b|
  {
    if a != {} {
      var x :| x in a;
      SubsetSize(a - {x}, b - {x});
    }
  }
}
