/** Concurrent use of one table: readers that fill the cache, writers that change the tree, interleaved in any way.

The table lock is the readers-writer lock of `RWLocks`, step by step. A critical section of the cache mutex is one step,
and so is each access of the tree, which a thread makes only while the lock admits it.
*/
module CacheProtocol {
  import opened Options
  import opened Coherence
  import opened RWLocks
  import R = Recency

  /** What a thread is doing: a lookup, or a write and how far it has come.
      A scan picks its rows under the lock, so the rows it picks are a choice of that step. */
  datatype Task<V> =
    | Idle
    | Get(id: int)
    | Search(id: int)
    | Fill(id: int, row: V)
    | Found(id: int, result: Option<V>)
    | Insert(id: int, row: V)
    | Delete(id: int)
    | DeleteScan
    | UpdateScan
    | Removing(ids: seq<int>)
    | Erasing(id: int, ids: seq<int>)
    | Storing(changes: seq<(int, V)>, stored: seq<int>)
    | Forgetting(ids: seq<int>)
    | Finished
  {
    predicate IsLookup() { Get? || Search? || Fill? || Found? }
    predicate IsWrite() { !Idle? && !IsLookup() }
    predicate IsNewWrite() { Insert? || Delete? || DeleteScan? || UpdateScan? }
  }

  datatype Shared<V> = Shared(lock: Lock, tree: map<int, V>, cache: seq<(int, V)>, tasks: map<Tid, Task<V>>)
  {
    function TaskOf(t: Tid): Task<V> { if t in tasks then tasks[t] else Idle }
    function Next(t: Tid, task: Task<V>): Shared<V> { this.(tasks := tasks[t := task]) }
  }

  datatype Action<V> =
    | BeginFind(t: Tid, id: int)
    | BeginWrite(t: Tid, work: Task<V>)
    | LockMove(step: RWLocks.Step)
    | Lookup(t: Tid)
    | EndFind(t: Tid, woken: Option<Tid>)
    | Work(t: Tid, ids: seq<int>, changes: seq<(int, V)>)
    | EndWrite(t: Tid, woken: Option<Tid>)

  ghost predicate Init<V>(s: Shared<V>) {
    s == Shared(INITIAL, map[], [], map[])
  }

  function TreeRow<V>(tree: map<int, V>, id: int): Option<V> {
    if id in tree then Some(tree[id]) else None
  }

  ghost predicate Enabled<V>(s: Shared<V>, a: Action<V>) {
    match a
    case BeginFind(t, _) => s.TaskOf(t).Idle? && RWLocks.Enabled(s.lock, ReadLock(t))
    case BeginWrite(t, work) => s.TaskOf(t).Idle? && work.IsNewWrite() && RWLocks.Enabled(s.lock, WriteLock(t))
    case LockMove(step) => (step.ReadRetry? || step.WriteRetry? || step.Spurious?) && RWLocks.Enabled(s.lock, step)
    case Lookup(t) => s.lock.At(t) == Reading && s.TaskOf(t).IsLookup() && !s.TaskOf(t).Found?
    case EndFind(t, woken) => s.TaskOf(t).Found? && RWLocks.Enabled(s.lock, ReadUnlock(t, woken))
    case Work(t, _, changes) =>
      && s.lock.At(t) == Writing && s.TaskOf(t).IsWrite() && !s.TaskOf(t).Finished?
      && (forall i :: 0 <= i < |changes| ==> changes[i].0 in s.tree)
    case EndWrite(t, woken) => s.TaskOf(t).Finished? && RWLocks.Enabled(s.lock, WriteUnlock(t, woken))
  }

  /** One step of `findById` under the read lock. */
  function LookupStep<V>(s: Shared<V>, t: Tid, capacity: nat): Shared<V>
    requires capacity > 0
  {
    match s.TaskOf(t)
    case Get(id) =>
      var hit := R.Lookup(s.cache, id);
      s.(cache := R.Touch(s.cache, id)).Next(t, if hit.Some? then Found(id, hit) else Search(id))
    case Search(id) =>
      (match TreeRow(s.tree, id)
       case Some(row) => s.Next(t, Fill(id, row))
       case None => s.Next(t, Found(id, None)))
    case Fill(id, row) => s.(cache := R.Put(s.cache, capacity, id, row)).Next(t, Found(id, Some(row)))
    case _ => s
  }

  /** One step of a writer under the write lock. */
  function WorkStep<V>(s: Shared<V>, t: Tid, ids: seq<int>, changes: seq<(int, V)>): Shared<V> {
    match s.TaskOf(t)
    case Insert(id, row) => (if id in s.tree then s else s.(tree := s.tree[id := row])).Next(t, Finished)
    case Delete(id) => s.(tree := s.tree - {id}).Next(t, if id in s.tree then Forgetting([id]) else Finished)
    case DeleteScan => s.Next(t, Removing(ids))
    case UpdateScan => s.Next(t, Storing(changes, []))
    case Removing(todo) =>
      if |todo| == 0 then s.Next(t, Finished) else s.(tree := s.tree - {todo[0]}).Next(t, Erasing(todo[0], todo[1..]))
    case Erasing(id, todo) => s.(cache := R.Drop(s.cache, id)).Next(t, Removing(todo))
    case Storing(todo, stored) =>
      if |todo| == 0 then s.Next(t, Forgetting(stored))
      else s.(tree := s.tree[todo[0].0 := todo[0].1]).Next(t, Storing(todo[1..], stored + [todo[0].0]))
    case Forgetting(todo) =>
      if |todo| == 0 then s.Next(t, Finished) else s.(cache := R.Drop(s.cache, todo[0])).Next(t, Forgetting(todo[1..]))
    case _ => s
  }

  function Do<V>(s: Shared<V>, a: Action<V>, capacity: nat): Shared<V>
    requires capacity > 0
  {
    match a
    case BeginFind(t, id) => s.(lock := RWLocks.Do(s.lock, ReadLock(t))).Next(t, Get(id))
    case BeginWrite(t, work) => s.(lock := RWLocks.Do(s.lock, WriteLock(t))).Next(t, work)
    case LockMove(step) => s.(lock := RWLocks.Do(s.lock, step))
    case Lookup(t) => LookupStep(s, t, capacity)
    case EndFind(t, woken) => s.(lock := RWLocks.Do(s.lock, ReadUnlock(t, woken))).Next(t, Idle)
    case Work(t, ids, changes) => WorkStep(s, t, ids, changes)
    case EndWrite(t, woken) => s.(lock := RWLocks.Do(s.lock, WriteUnlock(t, woken))).Next(t, Idle)
  }

  // ---- The invariant ----

  /** The lock admits exactly the threads whose task has begun its protected part. */
  ghost predicate TaskFits<V>(s: Shared<V>, t: Tid) {
    match s.lock.At(t)
    case Outside => s.TaskOf(t).Idle?
    case Reading => s.TaskOf(t).IsLookup()
    case ReaderAsleep => s.TaskOf(t).Get?
    case ReaderAwake => s.TaskOf(t).Get?
    case Writing => s.TaskOf(t).IsWrite()
    case WriterAsleep => s.TaskOf(t).IsNewWrite()
    case WriterAwake => s.TaskOf(t).IsNewWrite()
  }

  /** What a lookup has read so far is what the tree says now. */
  ghost predicate LookupTrue<V>(s: Shared<V>, t: Tid) {
    match s.TaskOf(t)
    case Fill(id, row) => TreeRow(s.tree, id) == Some(row)
    case Found(id, result) => result == TreeRow(s.tree, id)
    case _ => true
  }

  /** Ids a writer has changed in the tree and not yet erased from the cache. */
  function Stale<V>(task: Task<V>): seq<int> {
    match task
    case Erasing(id, _) => [id]
    case Storing(_, stored) => stored
    case Forgetting(ids) => ids
    case _ => []
  }

  ghost predicate CacheTrue<V>(s: Shared<V>) {
    && R.Distinct(s.cache)
    && (forall t :: s.lock.At(t) == Writing ==> CoherentBut(s.cache, s.tree, Stale(s.TaskOf(t))))
    && ((forall t :: s.lock.At(t) != Writing) ==> Coherent(s.cache, s.tree))
  }

  ghost predicate Inv<V>(s: Shared<V>) {
    && RWLocks.Inv(s.lock)
    && (forall t :: TaskFits(s, t))
    && (forall t :: LookupTrue(s, t))
    && CacheTrue(s)
  }

  // ---- Lock steps: tree and cache stay, a writer comes or goes ----

  /** The lock step an action makes, if it makes one. */
  ghost predicate Locks<V>(a: Action<V>, step: RWLocks.Step) {
    match a
    case BeginFind(t, _) => step == ReadLock(t)
    case BeginWrite(t, _) => step == WriteLock(t)
    case LockMove(m) => step == m
    case EndFind(t, woken) => step == ReadUnlock(t, woken)
    case EndWrite(t, woken) => step == WriteUnlock(t, woken)
    case _ => false
  }

  /** A thread's own lock step takes it and its task along together. */
  lemma LockKeepsOwn<V>(s: Shared<V>, a: Action<V>, step: RWLocks.Step, capacity: nat)
    requires capacity > 0 && TaskFits(s, step.t) && LookupTrue(s, step.t) && Enabled(s, a) && Locks(a, step)
    ensures TaskFits(Do(s, a, capacity), step.t) && LookupTrue(Do(s, a, capacity), step.t)
  {
    OwnPlace(s.lock, step);
    hide RWLocks.Do;
  }

  /** A lock step leaves the tree, the cache and all other tasks alone. */
  lemma LockEffect<V>(s: Shared<V>, a: Action<V>, step: RWLocks.Step, capacity: nat, u: Tid)
    requires capacity > 0 && Enabled(s, a) && Locks(a, step) && u != step.t
    ensures var s' := Do(s, a, capacity);
      s'.lock == RWLocks.Do(s.lock, step) && s'.tree == s.tree && s'.TaskOf(u) == s.TaskOf(u)
  {
    hide RWLocks.Do, RWLocks.Enabled;
  }

  lemma LockKeepsOther<V>(s: Shared<V>, a: Action<V>, step: RWLocks.Step, capacity: nat, u: Tid)
    requires capacity > 0 && TaskFits(s, u) && LookupTrue(s, u) && Enabled(s, a) && Locks(a, step) && u != step.t
    ensures TaskFits(Do(s, a, capacity), u) && LookupTrue(Do(s, a, capacity), u)
  {
    LockEffect(s, a, step, capacity, u);
    assert RWLocks.Enabled(s.lock, step);
    hide Do, Enabled, RWLocks.Do, RWLocks.Enabled;
    OthersKeep(s.lock, step, u);
  }

  lemma LockKeepsTasks<V>(s: Shared<V>, a: Action<V>, step: RWLocks.Step, capacity: nat, u: Tid)
    requires capacity > 0 && Inv(s) && Enabled(s, a) && Locks(a, step)
    ensures TaskFits(Do(s, a, capacity), u) && LookupTrue(Do(s, a, capacity), u)
  {
    hide RWLocks.Inv, CacheTrue, TaskFits, LookupTrue, Do, Enabled, Locks;
    if u == step.t {
      LockKeepsOwn(s, a, step, capacity);
    } else {
      LockKeepsOther(s, a, step, capacity, u);
    }
  }

  /** A lock that admits a writer had none. */
  lemma NoWriterBefore<V>(s: Shared<V>, t: Tid)
    requires Inv(s) && s.lock.MayWrite()
    ensures s.lock.At(t) != Writing
  {
    if s.lock.At(t) == Writing {
      Member(s.lock, t);
    }
  }

  lemma LockKeepsCache<V>(s: Shared<V>, a: Action<V>, step: RWLocks.Step, capacity: nat)
    requires capacity > 0 && Inv(s) && Enabled(s, a) && Locks(a, step)
    ensures CacheTrue(Do(s, a, capacity))
  {
    hide RWLocks.Inv, R.Distinct, Coherent;
    var s' := Do(s, a, capacity);
    assert s'.cache == s.cache && s'.tree == s.tree;
    forall t | s'.lock.At(t) == Writing ensures CoherentBut(s'.cache, s'.tree, Stale(s'.TaskOf(t))) {
      if s.lock.At(t) == Writing {
        KeptWriting(s, a, step, capacity, t);
      } else {
        NewWriter(s, a, step, capacity, t);
      }
    }
    if forall t :: s'.lock.At(t) != Writing {
      NoWriterAfter(s, a, step, capacity);
    }
  }

  lemma KeptWriting<V>(s: Shared<V>, a: Action<V>, step: RWLocks.Step, capacity: nat, t: Tid)
    requires capacity > 0 && Inv(s) && Enabled(s, a) && Locks(a, step)
    requires s.lock.At(t) == Writing && Do(s, a, capacity).lock.At(t) == Writing
    ensures CoherentBut(s.cache, s.tree, Stale(Do(s, a, capacity).TaskOf(t)))
  {
    hide RWLocks.Inv, CoherentBut;
  }

  lemma NewWriter<V>(s: Shared<V>, a: Action<V>, step: RWLocks.Step, capacity: nat, t: Tid)
    requires capacity > 0 && Inv(s) && Enabled(s, a) && Locks(a, step)
    requires s.lock.At(t) != Writing && Do(s, a, capacity).lock.At(t) == Writing
    ensures Coherent(s.cache, s.tree) && CoherentBut(s.cache, s.tree, Stale(Do(s, a, capacity).TaskOf(t)))
  {
    hide RWLocks.Inv;
    if t != step.t {
      OthersKeep(s.lock, step, t);
    }
    assert s.lock.MayWrite();
    forall u ensures s.lock.At(u) != Writing {
      NoWriterBefore(s, u);
    }
  }

  lemma NoWriterAfter<V>(s: Shared<V>, a: Action<V>, step: RWLocks.Step, capacity: nat)
    requires capacity > 0 && Inv(s) && Enabled(s, a) && Locks(a, step)
    requires forall t :: Do(s, a, capacity).lock.At(t) != Writing
    ensures Coherent(s.cache, s.tree)
  {
    hide RWLocks.Inv;
    if w :| s.lock.At(w) == Writing {
      assert Do(s, a, capacity).lock.At(w) != Writing;
      assert w == step.t by {
        if w != step.t {
          OthersKeep(s.lock, step, w);
        }
      }
      assert TaskFits(s, w);
      assert s.TaskOf(w).Finished?;
      assert Stale(s.TaskOf(w)) == [];
    }
  }

  // ---- Lookups: only the cache changes, and no writer is inside ----

  lemma ReaderMeansNoWriter<V>(s: Shared<V>, t: Tid)
    requires Inv(s) && s.lock.At(t) == Reading
    ensures (forall u :: s.lock.At(u) != Writing) && Coherent(s.cache, s.tree)
  {
    hide TaskFits, LookupTrue, Coherent, RWLocks.Inv;
    forall u ensures s.lock.At(u) != Writing {
      if s.lock.At(u) == Writing {
        WriterAlone(s.lock, u, t);
      }
    }
  }

  lemma LookupKeeps<V>(s: Shared<V>, t: Tid, capacity: nat)
    requires capacity > 0 && Inv(s) && Enabled(s, Lookup(t))
    ensures Inv(Do(s, Lookup(t), capacity))
  {
    hide RWLocks.Inv, R.Lookup, R.Touch, R.Put, R.Distinct, Coherent, CoherentBut;
    var s' := Do(s, Lookup(t), capacity);
    ReaderMeansNoWriter(s, t);
    LookupKeepsCache(s, t, capacity);
    forall u ensures TaskFits(s', u) && LookupTrue(s', u) {
      assert TaskFits(s, u) && LookupTrue(s, u);
    }
  }

  /** A hit returns the tree's row, a miss reads it, and filling the cache with it keeps the cache true. */
  lemma LookupKeepsCache<V>(s: Shared<V>, t: Tid, capacity: nat)
    requires capacity > 0 && Inv(s) && Enabled(s, Lookup(t)) && Coherent(s.cache, s.tree)
    ensures var s' := Do(s, Lookup(t), capacity);
      s'.lock == s.lock && s'.tree == s.tree && R.Distinct(s'.cache) && Coherent(s'.cache, s'.tree) && LookupTrue(s', t)
  {
    hide RWLocks.Inv, R.Lookup, R.Touch, R.Put, R.Distinct, Coherent, CoherentBut;
    assert LookupTrue(s, t);
    match s.TaskOf(t)
    case Get(id) =>
      R.TouchDistinct(s.cache, id);
      CoherentTouch(s.cache, s.tree, id);
      if R.Lookup(s.cache, id).Some? {
        HitIsStored(s.cache, s.tree, id);
      }
    case Fill(id, row) =>
      R.PutDistinct(s.cache, capacity, id, row);
      CoherentPut(s.cache, s.tree, capacity, id);
    case _ =>
  }

  // ---- Writers: alone inside, they may leave stale entries only under ids they will forget ----

  lemma WorkKeepsTasks<V>(s: Shared<V>, a: Action<V>, capacity: nat, u: Tid)
    requires capacity > 0 && RWLocks.Inv(s.lock) && TaskFits(s, u) && LookupTrue(s, u) && a.Work? && Enabled(s, a)
    ensures TaskFits(Do(s, a, capacity), u) && LookupTrue(Do(s, a, capacity), u)
  {
    hide RWLocks.Inv, R.Drop;
    if u != a.t {
      WriterAlone(s.lock, a.t, u);
      WorkTouchesOne(s, a, capacity, u);
      hide Do;
    }
  }

  lemma WorkTouchesOne<V>(s: Shared<V>, a: Action<V>, capacity: nat, u: Tid)
    requires capacity > 0 && a.Work? && u != a.t
    ensures Do(s, a, capacity).lock == s.lock && Do(s, a, capacity).TaskOf(u) == s.TaskOf(u)
  {
    hide R.Drop;
  }

  lemma WorkKeeps<V>(s: Shared<V>, a: Action<V>, capacity: nat)
    requires capacity > 0 && Inv(s) && a.Work? && Enabled(s, a)
    ensures Inv(Do(s, a, capacity))
  {
    hide RWLocks.Inv, R.Drop, R.Distinct, Coherent, CoherentBut;
    var s', t := Do(s, a, capacity), a.t;
    WorkKeepsCache(s, a, capacity);
    hide Do, TaskFits, LookupTrue;
    forall u ensures TaskFits(s', u) && LookupTrue(s', u) {
      WorkKeepsTasks(s, a, capacity, u);
    }
    forall u | s'.lock.At(u) == Writing ensures u == t {
      if u != t {
        WriterAlone(s.lock, t, u);
      }
    }
  }

  lemma WorkKeepsCache<V>(s: Shared<V>, a: Action<V>, capacity: nat)
    requires capacity > 0 && Inv(s) && a.Work? && Enabled(s, a)
    ensures var s' := Do(s, a, capacity);
      s'.lock == s.lock && R.Distinct(s'.cache) && CoherentBut(s'.cache, s'.tree, Stale(s'.TaskOf(a.t)))
  {
    hide RWLocks.Inv, R.Drop, R.Distinct, Coherent;
    var stale := Stale(s.TaskOf(a.t));
    assert CoherentBut(s.cache, s.tree, stale);
    match s.TaskOf(a.t)
    case Erasing(id, _) => R.DropDistinct(s.cache, id); ForgetStale(s.cache, s.tree, stale);
    case Forgetting(ids) =>
      if |ids| > 0 {
        R.DropDistinct(s.cache, ids[0]);
        ForgetStale(s.cache, s.tree, stale);
      }
    case _ =>
  }

  lemma ActionKeeps<V>(s: Shared<V>, a: Action<V>, capacity: nat)
    requires capacity > 0 && Inv(s) && Enabled(s, a)
    ensures Inv(Do(s, a, capacity))
  {
    hide Inv, Enabled, Do;
    match a
    case Lookup(t) => LookupKeeps(s, t, capacity);
    case Work(_, _, _) => WorkKeeps(s, a, capacity);
    case BeginFind(t, _) => LockActionKeeps(s, a, ReadLock(t), capacity);
    case BeginWrite(t, _) => LockActionKeeps(s, a, WriteLock(t), capacity);
    case LockMove(step) => LockActionKeeps(s, a, step, capacity);
    case EndFind(t, woken) => LockActionKeeps(s, a, ReadUnlock(t, woken), capacity);
    case EndWrite(t, woken) => LockActionKeeps(s, a, WriteUnlock(t, woken), capacity);
  }

  lemma LockActionKeeps<V>(s: Shared<V>, a: Action<V>, step: RWLocks.Step, capacity: nat)
    requires capacity > 0 && Inv(s) && Enabled(s, a) && Locks(a, step)
    ensures Inv(Do(s, a, capacity))
  {
    hide RWLocks.Inv, RWLocks.Do, RWLocks.Enabled, TaskFits, LookupTrue, CacheTrue;
    RWLocks.StepKeeps(s.lock, step);
    LockKeepsCache(s, a, step, capacity);
    forall u ensures TaskFits(Do(s, a, capacity), u) && LookupTrue(Do(s, a, capacity), u) {
      LockKeepsTasks(s, a, step, capacity, u);
    }
  }

  // ---- Whole runs ----

  ghost predicate IsRun<V>(states: seq<Shared<V>>, actions: seq<Action<V>>, capacity: nat)
    requires capacity > 0
  {
    && |states| == |actions| + 1 && Init(states[0])
    && forall i :: 0 <= i < |actions| ==>
         Enabled(states[i], actions[i]) && states[i + 1] == Do(states[i], actions[i], capacity)
  }

  lemma InitInv<V>(s: Shared<V>)
    requires Init(s)
    ensures Inv(s)
  {
  }

  lemma {:induction false} RunInv<V>(states: seq<Shared<V>>, actions: seq<Action<V>>, capacity: nat, n: nat)
    requires capacity > 0 && IsRun(states, actions, capacity) && n <= |actions|
    ensures Inv(states[n])
  {
    hide Do, Enabled, Init, Inv;
    if n == 0 {
      InitInv(states[0]);
    } else {
      RunInv(states, actions, capacity, n - 1);
      assert states[n - 1 + 1] == Do(states[n - 1], actions[n - 1], capacity);
      ActionKeeps(states[n - 1], actions[n - 1], capacity);
    }
  }

  /** In every interleaving, whenever no writer is inside, each cached row is the tree's row of that id. */
  lemma CacheAgrees<V>(states: seq<Shared<V>>, actions: seq<Action<V>>, capacity: nat, n: nat)
    requires capacity > 0 && IsRun(states, actions, capacity) && n <= |actions|
    requires forall t :: states[n].lock.At(t) != Writing
    ensures Coherent(states[n].cache, states[n].tree)
  {
    hide Do, Enabled, Init, IsRun;
    RunInv(states, actions, capacity, n);
  }

  // ---- A task does what its thread asked for ----

  predicate Begins<V>(a: Action<V>, t: Tid) {
    (a.BeginFind? || a.BeginWrite?) && a.t == t
  }

  /** Action `b` is the last one before `n` with which the thread began something. */
  ghost predicate BeganAt<V>(actions: seq<Action<V>>, n: nat, t: Tid, b: nat) {
    b < n <= |actions| && Begins(actions[b], t) && forall j :: b < j < n ==> !Begins(actions[j], t)
  }

  lemma LookupKeepsId<V>(s: Shared<V>, a: Action<V>, capacity: nat, t: Tid)
    requires capacity > 0 && Enabled(s, a) && !Begins(a, t) && Do(s, a, capacity).TaskOf(t).IsLookup()
    ensures s.TaskOf(t).IsLookup() && Do(s, a, capacity).TaskOf(t).id == s.TaskOf(t).id
  {
    hide RWLocks.Do, RWLocks.Enabled, R.Lookup, R.Touch, R.Put, R.Drop;
  }

  lemma {:induction false} FindCameFrom<V>(states: seq<Shared<V>>, actions: seq<Action<V>>, capacity: nat,
                                           n: nat, t: Tid)
      returns (b: nat)
    requires capacity > 0 && IsRun(states, actions, capacity) && n <= |actions| && states[n].TaskOf(t).IsLookup()
    ensures BeganAt(actions, n, t, b) && actions[b].BeginFind? && states[n].TaskOf(t).id == actions[b].id
    decreases n
  {
    NothingYet(states[0], t);
    hide Do, Enabled, Init;
    assert n > 0 && Enabled(states[n - 1], actions[n - 1]);
    assert states[n - 1 + 1] == Do(states[n - 1], actions[n - 1], capacity);
    if Begins(actions[n - 1], t) {
      b := n - 1;
      BeginsAsAsked(states[b], actions[b], capacity);
    } else {
      LookupKeepsId(states[n - 1], actions[n - 1], capacity, t);
      b := FindCameFrom(states, actions, capacity, n - 1, t);
    }
  }

  lemma NothingYet<V>(s: Shared<V>, t: Tid)
    requires Init(s)
    ensures s.TaskOf(t).Idle?
  {
  }

  lemma BeginsAsAsked<V>(s: Shared<V>, a: Action<V>, capacity: nat)
    requires capacity > 0 && Enabled(s, a) && (a.BeginFind? || a.BeginWrite?)
    ensures a.BeginFind? ==> Do(s, a, capacity).TaskOf(a.t) == Get(a.id)
    ensures a.BeginWrite? ==> Do(s, a, capacity).TaskOf(a.t) == a.work && a.work.IsNewWrite()
  {
    hide RWLocks.Do, RWLocks.Enabled;
  }

  lemma NewWriteStays<V>(s: Shared<V>, a: Action<V>, capacity: nat, t: Tid)
    requires capacity > 0 && Enabled(s, a) && !Begins(a, t) && Do(s, a, capacity).TaskOf(t).IsNewWrite()
    ensures s.TaskOf(t) == Do(s, a, capacity).TaskOf(t)
  {
    hide RWLocks.Do, RWLocks.Enabled, LookupStep, WorkStep;
    match a {
      case Work(u, ids, changes) => WorkIsNotNew(s, u, ids, changes, t);
      case Lookup(u) => LookupIsNotNew(s, u, capacity, t);
      case _ =>
    }
  }

  lemma WorkIsNotNew<V>(s: Shared<V>, u: Tid, ids: seq<int>, changes: seq<(int, V)>, t: Tid)
    requires s.TaskOf(u).IsWrite() && WorkStep(s, u, ids, changes).TaskOf(t).IsNewWrite()
    ensures WorkStep(s, u, ids, changes).TaskOf(t) == s.TaskOf(t)
  {
    hide R.Drop;
  }

  lemma LookupIsNotNew<V>(s: Shared<V>, u: Tid, capacity: nat, t: Tid)
    requires capacity > 0 && s.TaskOf(u).IsLookup() && LookupStep(s, u, capacity).TaskOf(t).IsNewWrite()
    ensures LookupStep(s, u, capacity).TaskOf(t) == s.TaskOf(t)
  {
    hide R.Lookup, R.Touch, R.Put;
  }

  /** In every interleaving the write a thread is about to make is the one it last asked for. */
  lemma {:induction false} WriteCameFrom<V>(states: seq<Shared<V>>, actions: seq<Action<V>>, capacity: nat,
                                            n: nat, t: Tid)
      returns (b: nat)
    requires capacity > 0 && IsRun(states, actions, capacity) && n <= |actions| && states[n].TaskOf(t).IsNewWrite()
    ensures BeganAt(actions, n, t, b) && actions[b].BeginWrite? && states[n].TaskOf(t) == actions[b].work
    decreases n
  {
    NothingYet(states[0], t);
    hide Do, Enabled, Init;
    assert n > 0 && Enabled(states[n - 1], actions[n - 1]);
    assert states[n - 1 + 1] == Do(states[n - 1], actions[n - 1], capacity);
    if Begins(actions[n - 1], t) {
      b := n - 1;
      BeginsAsAsked(states[b], actions[b], capacity);
    } else {
      NewWriteStays(states[n - 1], actions[n - 1], capacity, t);
      b := WriteCameFrom(states, actions, capacity, n - 1, t);
    }
  }

  /** In every interleaving, what `findById` returns is what a bare search of the tree for the id it was asked for would
      return at that moment. */
  lemma FindReturnsTreeRow<V>(states: seq<Shared<V>>, actions: seq<Action<V>>, capacity: nat, n: nat, t: Tid)
      returns (b: nat)
    requires capacity > 0 && IsRun(states, actions, capacity) && n < |actions|
    requires actions[n].EndFind? && actions[n].t == t
    ensures BeganAt(actions, n, t, b) && actions[b].BeginFind?
    ensures states[n].TaskOf(t) == Found(actions[b].id, TreeRow(states[n].tree, actions[b].id))
  {
    hide Do, Init;
    RunInv(states, actions, capacity, n);
    assert Enabled(states[n], actions[n]);
    assert LookupTrue(states[n], t);
    b := FindCameFrom(states, actions, capacity, n, t);
  }

  /** Lookup steps still to come. */
  function LookupLeft<V>(task: Task<V>): nat {
    match task
    case Get(_) => 3
    case Search(_) => 2
    case Fill(_, _) => 1
    case _ => 0
  }

  /** Each step brings a lookup nearer its end, and a row it found is then in the cache. */
  lemma LookupProgress<V>(s: Shared<V>, t: Tid, capacity: nat)
    requires capacity > 0 && Enabled(s, Lookup(t))
    ensures var task := Do(s, Lookup(t), capacity).TaskOf(t);
      && LookupLeft(task) < LookupLeft(s.TaskOf(t))
      && (task.Found? && task.result.Some? ==>
            R.Lookup(Do(s, Lookup(t), capacity).cache, task.id) == task.result)
  {
    hide R.Drop;
  }

  // ---- A write is one change of the tree ----

  /** The tree once the task is done, if nobody else changes it. */
  ghost function Goal<V>(task: Task<V>, tree: map<int, V>): map<int, V> {
    match task
    case Insert(id, row) => if id in tree then tree else tree[id := row]
    case Delete(id) => tree - {id}
    case Removing(ids) => tree - SetOf(ids)
    case Erasing(_, ids) => tree - SetOf(ids)
    case Storing(changes, _) => WithChanges(tree, changes)
    case _ => tree
  }

  ghost function WithChanges<V>(tree: map<int, V>, changes: seq<(int, V)>): map<int, V>
    decreases |changes|
  {
    if |changes| == 0 then tree else WithChanges(tree[changes[0].0 := changes[0].1], changes[1..])
  }

  /** Work steps still to come once a scan has picked its rows. */
  function WorkLeft<V>(task: Task<V>): nat {
    match task
    case Insert(_, _) => 1
    case Delete(_) => 3
    case Removing(ids) => 2 * |ids| + 1
    case Erasing(_, ids) => 2 * |ids| + 2
    case Storing(changes, stored) => 2 * |changes| + |stored| + 2
    case Forgetting(ids) => |ids| + 1
    case _ => 0
  }

  predicate IsScan<V>(task: Task<V>) { task.DeleteScan? || task.UpdateScan? }

  lemma SetOfHead(ids: seq<int>)
    ensures |ids| == 0 ==> SetOf(ids) == {}
    ensures |ids| > 0 ==> SetOf(ids) == {ids[0]} + SetOf(ids[1..])
  {
    if |ids| > 0 {
      assert ids == [ids[0]] + ids[1..];
    }
  }

  lemma RemoveOneMore<V>(tree: map<int, V>, id: int, ids: set<int>)
    ensures (tree - {id}) - ids == tree - ({id} + ids) && tree - {} == tree
  {
  }

  /** A work step brings the write nearer its end without changing what the end will be; a scan picks that end. */
  lemma WorkKeepsGoal<V>(s: Shared<V>, a: Action<V>, capacity: nat)
    requires capacity > 0 && a.Work? && Enabled(s, a)
    ensures var s' := Do(s, a, capacity);
      var task, task' := s.TaskOf(a.t), s'.TaskOf(a.t);
      && !IsScan(task')
      && (!IsScan(task) ==> WorkLeft(task') < WorkLeft(task) && Goal(task', s'.tree) == Goal(task, s.tree))
      && (task.DeleteScan? ==> Goal(task', s'.tree) == s.tree - SetOf(a.ids))
      && (task.UpdateScan? ==> Goal(task', s'.tree) == WithChanges(s.tree, a.changes))
  {
    assert Do(s, a, capacity) == WorkStep(s, a.t, a.ids, a.changes);
    assert s.TaskOf(a.t).IsWrite();
    hide Do, Enabled, R.Drop, SetOf;
    match s.TaskOf(a.t) {
      case Removing(ids) => RemovingGoal(s, a.t, a.ids, a.changes);
      case _ =>
    }
  }

  lemma RemovingGoal<V>(s: Shared<V>, t: Tid, ids: seq<int>, changes: seq<(int, V)>)
    requires s.TaskOf(t).Removing?
    ensures var s' := WorkStep(s, t, ids, changes);
      Goal(s'.TaskOf(t), s'.tree) == Goal(s.TaskOf(t), s.tree) && (s'.TaskOf(t).Erasing? || s'.TaskOf(t).Finished?)
    ensures WorkLeft(WorkStep(s, t, ids, changes).TaskOf(t)) < WorkLeft(s.TaskOf(t))
  {
    var todo := s.TaskOf(t).ids;
    SetOfHead(todo);
    hide SetOf, R.Drop;
    if |todo| > 0 {
      RemoveOneMore(s.tree, todo[0], SetOf(todo[1..]));
    } else {
      RemoveOneMore(s.tree, 0, {});
    }
  }

  lemma OthersKeepTree<V>(s: Shared<V>, a: Action<V>, capacity: nat, t: Tid)
    requires capacity > 0 && Inv(s) && Enabled(s, a) && s.lock.At(t) == Writing && !(a.Work? && a.t == t)
    requires Do(s, a, capacity).lock.At(t) == Writing
    ensures Do(s, a, capacity).tree == s.tree && Do(s, a, capacity).TaskOf(t) == s.TaskOf(t)
  {
    hide RWLocks.Inv, CacheTrue, TaskFits, LookupTrue;
    match a {
      case Work(u, _, _) => WriterAlone(s.lock, t, u);
      case Lookup(u) => LookupTouchesOne(s, u, t, capacity);
      case BeginFind(u, _) => LockKeepsTree(s, a, ReadLock(u), capacity, t);
      case BeginWrite(u, _) => LockKeepsTree(s, a, WriteLock(u), capacity, t);
      case LockMove(step) => LockKeepsTree(s, a, step, capacity, t);
      case EndFind(u, woken) => LockKeepsTree(s, a, ReadUnlock(u, woken), capacity, t);
      case EndWrite(u, woken) => LockKeepsTree(s, a, WriteUnlock(u, woken), capacity, t);
    }
  }

  lemma LookupTouchesOne<V>(s: Shared<V>, u: Tid, t: Tid, capacity: nat)
    requires capacity > 0 && Enabled(s, Lookup(u)) && s.lock.At(t) == Writing
    ensures Do(s, Lookup(u), capacity).tree == s.tree && Do(s, Lookup(u), capacity).TaskOf(t) == s.TaskOf(t)
  {
    hide R.Lookup, R.Touch, R.Put;
  }

  lemma LockKeepsTree<V>(s: Shared<V>, a: Action<V>, step: RWLocks.Step, capacity: nat, t: Tid)
    requires capacity > 0 && Enabled(s, a) && Locks(a, step) && s.lock.At(t) == Writing
    requires Do(s, a, capacity).lock.At(t) == Writing
    ensures Do(s, a, capacity).tree == s.tree && Do(s, a, capacity).TaskOf(t) == s.TaskOf(t)
  {
    if step.t != t {
      LockEffect(s, a, step, capacity, t);
      hide Do;
    } else {
      OwnPlace(s.lock, step);
      hide RWLocks.Do;
    }
  }

  lemma GoalStep<V>(s: Shared<V>, a: Action<V>, capacity: nat, t: Tid)
    requires capacity > 0 && Inv(s) && Enabled(s, a) && s.lock.At(t) == Writing && !IsScan(s.TaskOf(t))
    requires Do(s, a, capacity).lock.At(t) == Writing
    ensures !IsScan(Do(s, a, capacity).TaskOf(t))
    ensures Goal(Do(s, a, capacity).TaskOf(t), Do(s, a, capacity).tree) == Goal(s.TaskOf(t), s.tree)
  {
    hide Do, Enabled, Inv, Goal, WorkLeft;
    if a.Work? && a.t == t {
      WorkKeepsGoal(s, a, capacity);
    } else {
      OthersKeepTree(s, a, capacity, t);
    }
  }

  lemma {:induction false} GoalStays<V>(states: seq<Shared<V>>, actions: seq<Action<V>>, capacity: nat,
                                       m: nat, n: nat, t: Tid)
    requires capacity > 0 && IsRun(states, actions, capacity) && m <= n <= |actions|
    requires !IsScan(states[m].TaskOf(t)) && forall i :: m <= i <= n ==> states[i].lock.At(t) == Writing
    ensures !IsScan(states[n].TaskOf(t))
    ensures Goal(states[n].TaskOf(t), states[n].tree) == Goal(states[m].TaskOf(t), states[m].tree)
    decreases n
  {
    hide Do, Enabled, Init, Inv, Goal, IsScan;
    if m < n {
      GoalStays(states, actions, capacity, m, n - 1, t);
      RunInv(states, actions, capacity, n - 1);
      var s, a := states[n - 1], actions[n - 1];
      assert Enabled(s, a) && states[n - 1 + 1] == Do(s, a, capacity);
      assert s.lock.At(t) == Writing && states[n].lock.At(t) == Writing;
      hide IsRun;
      GoalStep(s, a, capacity, t);
    }
  }

  /** A scan waits, with the tree as it is, for the step that picks its rows. */
  lemma {:induction false} ScanStays<V>(states: seq<Shared<V>>, actions: seq<Action<V>>, capacity: nat,
                                       m: nat, n: nat, t: Tid)
      returns (k: nat)
    requires capacity > 0 && IsRun(states, actions, capacity) && m <= n <= |actions|
    requires IsScan(states[m].TaskOf(t)) && !IsScan(states[n].TaskOf(t))
    requires forall i :: m <= i <= n ==> states[i].lock.At(t) == Writing
    ensures m <= k < n && actions[k].Work? && actions[k].t == t
    ensures states[k].tree == states[m].tree && states[k].TaskOf(t) == states[m].TaskOf(t)
    ensures Goal(states[n].TaskOf(t), states[n].tree) == Goal(states[k + 1].TaskOf(t), states[k + 1].tree)
    decreases n - m
  {
    hide Do, Enabled, Init, Inv, Goal, IsScan;
    assert m < n;
    var s, a := states[m], actions[m];
    RunInv(states, actions, capacity, m);
    assert Enabled(s, a) && states[m + 1] == Do(s, a, capacity);
    assert s.lock.At(t) == Writing && states[m + 1].lock.At(t) == Writing;
    if a.Work? && a.t == t {
      k := m;
      WorkKeepsGoal(s, a, capacity);
      GoalStays(states, actions, capacity, m + 1, n, t);
    } else {
      OthersKeepTree(s, a, capacity, t);
      k := ScanStays(states, actions, capacity, m + 1, n, t);
    }
  }

  /** In every interleaving a write leaves the lock with exactly the change its thread asked for, made to the tree it
      found when it got the lock: nothing of it is missing and no other thread's change comes in between. */
  lemma WriteIsAtomic<V>(states: seq<Shared<V>>, actions: seq<Action<V>>, capacity: nat, m: nat, n: nat, t: Tid)
      returns (b: nat, k: nat)
    requires capacity > 0 && IsRun(states, actions, capacity) && m <= n < |actions|
    requires states[m].TaskOf(t).IsNewWrite() && forall i :: m <= i <= n ==> states[i].lock.At(t) == Writing
    requires actions[n].EndWrite? && actions[n].t == t
    ensures BeganAt(actions, m, t, b) && actions[b].BeginWrite?
    ensures match actions[b].work
      case Insert(id, row) =>
        states[n].tree == if id in states[m].tree then states[m].tree else states[m].tree[id := row]
      case Delete(id) => states[n].tree == states[m].tree - {id}
      case DeleteScan =>
        m <= k < n && actions[k].Work? && actions[k].t == t && states[n].tree == states[m].tree - SetOf(actions[k].ids)
      case UpdateScan =>
        && m <= k < n && actions[k].Work? && actions[k].t == t
        && states[n].tree == WithChanges(states[m].tree, actions[k].changes)
      case _ => false
  {
    assert Enabled(states[n], actions[n]) && states[n].TaskOf(t).Finished?;
    hide Do, Init, Enabled, SetOf, WithChanges;
    b := WriteCameFrom(states, actions, capacity, m, t);
    if IsScan(states[m].TaskOf(t)) {
      k := ScanStays(states, actions, capacity, m, n, t);
      assert Enabled(states[k], actions[k]) && states[k + 1] == Do(states[k], actions[k], capacity);
      WorkKeepsGoal(states[k], actions[k], capacity);
    } else {
      k := m;
      GoalStays(states, actions, capacity, m, n, t);
    }
  }
}
