/** The writer-preferring readers-writer lock, with condition-variable sleep and wakeup as part of the state.

Each critical section of the mutex is one step. A thread that waits is asleep on its condition variable until a
notification or a spurious wakeup makes it awake; an awake waiter re-tests its condition in a later step.
*/
module RWLocks {
  import opened Options

  type Tid = nat

  datatype Place = Outside | Reading | Writing | ReaderAsleep | ReaderAwake | WriterAsleep | WriterAwake

  /** The three counters of the lock, and where each thread stands; a thread not mentioned is outside. */
  datatype Lock = Lock(activeReaders: int, waitingWriters: int, writerActive: bool, threads: map<Tid, Place>)
  {
    function At(t: Tid): Place { if t in threads then threads[t] else Outside }
    function Move(t: Tid, p: Place): Lock { this.(threads := threads[t := p]) }
    predicate MayRead() { !writerActive && waitingWriters == 0 }
    predicate MayWrite() { !writerActive && activeReaders == 0 }
  }

  /** Unlock steps carry the thread that `notify_one` happens to pick. */
  datatype Step =
    | ReadLock(t: Tid)
    | ReadRetry(t: Tid)
    | ReadUnlock(t: Tid, woken: Option<Tid>)
    | WriteLock(t: Tid)
    | WriteRetry(t: Tid)
    | WriteUnlock(t: Tid, woken: Option<Tid>)
    | Spurious(t: Tid)

  const INITIAL: Lock := Lock(0, 0, false, map[])

  /** `notify_one` wakes one of the sleeping writers, any one, if there is one. */
  ghost predicate NotifiesWriter(l: Lock, woken: Option<Tid>) {
    match woken
    case Some(t) => l.At(t) == WriterAsleep
    case None => forall t :: l.At(t) != WriterAsleep
  }

  ghost predicate Enabled(l: Lock, step: Step) {
    match step
    case ReadLock(t) => l.At(t) == Outside
    case ReadRetry(t) => l.At(t) == ReaderAwake
    case ReadUnlock(t, woken) =>
      l.At(t) == Reading && (if l.activeReaders == 1 then NotifiesWriter(l, woken) else woken == None)
    case WriteLock(t) => l.At(t) == Outside
    case WriteRetry(t) => l.At(t) == WriterAwake
    case WriteUnlock(t, woken) =>
      l.At(t) == Writing && (if l.waitingWriters > 0 then NotifiesWriter(l, woken) else woken == None)
    case Spurious(t) => l.At(t) == ReaderAsleep || l.At(t) == WriterAsleep
  }

  function Wake(l: Lock, woken: Option<Tid>): Lock {
    if woken.Some? then l.Move(woken.value, WriterAwake) else l
  }

  function WakeAllReaders(l: Lock): Lock {
    l.(threads := map t | t in l.threads :: if l.threads[t] == ReaderAsleep then ReaderAwake else l.threads[t])
  }

  function Do(l: Lock, step: Step): Lock {
    match step
    case ReadLock(t) =>
      if l.MayRead() then l.(activeReaders := l.activeReaders + 1).Move(t, Reading) else l.Move(t, ReaderAsleep)
    case ReadRetry(t) =>
      if l.MayRead() then l.(activeReaders := l.activeReaders + 1).Move(t, Reading) else l.Move(t, ReaderAsleep)
    case ReadUnlock(t, woken) =>
      Wake(l.(activeReaders := l.activeReaders - 1).Move(t, Outside), woken)
    case WriteLock(t) =>
      if l.MayWrite() then l.(writerActive := true).Move(t, Writing)
      else l.(waitingWriters := l.waitingWriters + 1).Move(t, WriterAsleep)
    case WriteRetry(t) =>
      if l.MayWrite() then l.(waitingWriters := l.waitingWriters - 1, writerActive := true).Move(t, Writing)
      else l.Move(t, WriterAsleep)
    case WriteUnlock(t, woken) =>
      var free := l.(writerActive := false).Move(t, Outside);
      if l.waitingWriters > 0 then Wake(free, woken) else WakeAllReaders(free)
    case Spurious(t) =>
      l.Move(t, if l.At(t) == ReaderAsleep then ReaderAwake else WriterAwake)
  }

  // ---- Counting threads ----

  datatype Kind = Reads | Writes | WaitsToWrite | Other

  function KindOf(p: Place): Kind {
    match p
    case Reading => Reads
    case Writing => Writes
    case WriterAsleep => WaitsToWrite
    case WriterAwake => WaitsToWrite
    case _ => Other
  }

  ghost function Threads(l: Lock, k: Kind): set<Tid> {
    set t | t in l.threads && KindOf(l.threads[t]) == k
  }

  lemma MovedSet(l: Lock, t: Tid, p: Place, k: Kind)
    requires k != Other
    ensures t in Threads(l, k) <==> KindOf(l.At(t)) == k
    ensures Threads(l.Move(t, p), k) == if KindOf(p) == k then Threads(l, k) + {t} else Threads(l, k) - {t}
  {
    hide KindOf;
    assert forall u :: u in l.Move(t, p).threads <==> u == t || u in l.threads;
    assert KindOf(Outside) != k by {
      assert KindOf(Outside) == Other by { OutsideIsOther(); }
    }
  }

  lemma OutsideIsOther()
    ensures KindOf(Outside) == Other
  {
  }

  lemma Moved(l: Lock, t: Tid, p: Place, k: Kind)
    requires k != Other
    ensures |Threads(l.Move(t, p), k)|
         == |Threads(l, k)| - (if KindOf(l.At(t)) == k then 1 else 0) + (if KindOf(p) == k then 1 else 0)
  {
    hide Threads, KindOf;
    MovedSet(l, t, p, k);
    OneInOrOut(Threads(l, k), t);
  }

  lemma OneInOrOut(s: set<Tid>, t: Tid)
    ensures |s + {t}| == if t in s then |s| else |s| + 1
    ensures |s - {t}| == if t in s then |s| - 1 else |s|
  {
    if t in s {
      assert s + {t} == s;
    } else {
      assert s - {t} == s;
    }
  }

  lemma ReadersMoved(l: Lock, k: Kind)
    requires k != Other
    ensures Threads(WakeAllReaders(l), k) == Threads(l, k)
  {
  }

  // ---- The invariant ----

  /** The counters say how many threads are where. */
  ghost predicate Counted(l: Lock) {
    && l.activeReaders == |Threads(l, Reads)|
    && l.waitingWriters == |Threads(l, WaitsToWrite)|
    && |Threads(l, Writes)| == if l.writerActive then 1 else 0
  }

  /** A writer excludes readers. */
  ghost predicate Exclusive(l: Lock) {
    l.writerActive ==> l.activeReaders == 0
  }

  /** If a writer could enter, some waiting writer is awake to notice; if a reader could, no reader sleeps. */
  ghost predicate NoLostWakeup(l: Lock) {
    && (l.MayWrite() && l.waitingWriters > 0 ==> exists t :: l.At(t) == WriterAwake)
    && (l.MayRead() ==> forall t :: l.At(t) != ReaderAsleep)
  }

  ghost predicate Inv(l: Lock) {
    Counted(l) && Exclusive(l) && NoLostWakeup(l)
  }

  lemma CountedKeeps(l: Lock, step: Step, k: Kind)
    requires Enabled(l, step) && k != Other
    ensures var n, t := |Threads(l, k)|, step.t;
      |Threads(Do(l, step), k)|
      == n - (if KindOf(l.At(t)) == k then 1 else 0) + (if KindOf(Do(l, step).At(t)) == k then 1 else 0)
  {
    hide Threads;
    var t := step.t;
    match step {
      case ReadUnlock(_, woken) =>
        Moved(l, t, Outside, k);
        WakeCounted(l.(activeReaders := l.activeReaders - 1).Move(t, Outside), woken, k);
        SameThreads(l, l.(activeReaders := l.activeReaders - 1), t, k);
      case WriteUnlock(_, woken) =>
        Moved(l, t, Outside, k);
        var free := l.(writerActive := false).Move(t, Outside);
        SameThreads(l, l.(writerActive := false), t, k);
        if l.waitingWriters > 0 {
          WakeCounted(free, woken, k);
        } else {
          ReadersMoved(free, k);
        }
      case _ =>
        Moved(l, t, Do(l, step).At(t), k);
        SameThreads(l, Do(l, step).(threads := l.threads), t, k);
        assert Do(l, step) == Do(l, step).(threads := l.threads).Move(t, Do(l, step).At(t));
    }
  }

  lemma SameThreads(a: Lock, b: Lock, t: Tid, k: Kind)
    requires a.threads == b.threads
    ensures forall p :: Threads(a.Move(t, p), k) == Threads(b.Move(t, p), k)
  {
  }

  lemma WakeCounted(l: Lock, woken: Option<Tid>, k: Kind)
    requires k != Other && (woken.Some? ==> l.At(woken.value) == WriterAsleep)
    ensures |Threads(Wake(l, woken), k)| == |Threads(l, k)|
  {
    if woken.Some? {
      Moved(l, woken.value, WriterAwake, k);
    }
  }

  lemma CountersKeep(l: Lock, step: Step)
    requires Counted(l) && Exclusive(l) && Enabled(l, step)
    ensures Counted(Do(l, step)) && Exclusive(Do(l, step))
  {
    CountedKeeps(l, step, Reads);
    CountedKeeps(l, step, Writes);
    CountedKeeps(l, step, WaitsToWrite);
    if step.ReadUnlock? || step.WriteUnlock? {
      Member(l, step.t);
    }
    if step.WriteRetry? {
      Member(l, step.t);
    }
    hide Threads;
  }

  /** A thread counted somewhere makes that count positive. */
  lemma Member(l: Lock, t: Tid)
    requires KindOf(l.At(t)) != Other
    ensures |Threads(l, KindOf(l.At(t)))| > 0
  {
    assert t in Threads(l, KindOf(l.At(t)));
  }

  /** A positive count of waiting writers names one. */
  lemma SomeWaiter(l: Lock) returns (t: Tid)
    requires Counted(l) && l.waitingWriters > 0
    ensures l.At(t) == WriterAsleep || l.At(t) == WriterAwake
  {
    t :| t in Threads(l, WaitsToWrite);
  }

  lemma WakeupKeeps(l: Lock, step: Step)
    requires Inv(l) && Enabled(l, step) && Counted(Do(l, step))
    ensures NoLostWakeup(Do(l, step))
  {
    hide Threads;
    var l' := Do(l, step);
    if l'.MayWrite() && l'.waitingWriters > 0 {
      var w := SomeWaiter(l');
      if l'.At(w) != WriterAwake {
        AwakeWriter(l, step, w);
      }
    }
    if l'.MayRead() {
      ReadersAwake(l, step);
    }
  }

  /** When a step leaves the lock open to readers, none of them sleeps. */
  lemma ReadersAwake(l: Lock, step: Step)
    requires Inv(l) && Enabled(l, step) && Do(l, step).MayRead() && Counted(Do(l, step))
    ensures forall t :: Do(l, step).At(t) != ReaderAsleep
  {
    hide Threads;
    var l' := Do(l, step);
    if step.WriteRetry? || step.WriteLock? {
      Member(l', step.t);
    }
    forall t ensures l'.At(t) != ReaderAsleep {
      assert l.MayRead() ==> l.At(t) != ReaderAsleep;
    }
  }

  /** When a step leaves the lock open to writers while one sleeps, another is awake. */
  lemma AwakeWriter(l: Lock, step: Step, w: Tid)
    requires Inv(l) && Enabled(l, step) && Do(l, step).MayWrite() && Do(l, step).waitingWriters > 0
    requires Do(l, step).At(w) == WriterAsleep
    ensures exists t :: Do(l, step).At(t) == WriterAwake
  {
    hide Counted;
    var l' := Do(l, step);
    if l.MayWrite() && l.waitingWriters > 0 {
      var a :| l.At(a) == WriterAwake;
      assert a == step.t || l'.At(a) == WriterAwake;
    } else if step.ReadUnlock? || step.WriteUnlock? {
      assert l.At(w) == WriterAsleep;
      assert step.woken.Some? ==> l'.At(step.woken.value) == WriterAwake;
    }
  }

  lemma StepKeeps(l: Lock, step: Step)
    requires Inv(l) && Enabled(l, step)
    ensures Inv(Do(l, step))
  {
    hide Do, Enabled, Counted, Exclusive, NoLostWakeup;
    CountersKeep(l, step);
    WakeupKeeps(l, step);
  }

  lemma WriterAlone(l: Lock, w: Tid, other: Tid)
    requires Inv(l) && l.At(w) == Writing && other != w
    ensures l.At(other) != Writing && l.At(other) != Reading
  {
    Member(l, w);
    if l.At(other) == Reading {
      Member(l, other);
    }
    OneInOrOut(Threads(l, Writes) - {w}, other);
    assert Threads(l, Writes) == {w} + (Threads(l, Writes) - {w});
  }

  /** A step moves only its own thread; others at most wake up. */
  lemma OthersKeep(l: Lock, step: Step, u: Tid)
    requires Enabled(l, step) && u != step.t
    ensures Do(l, step).At(u) == l.At(u)
         || (l.At(u) == WriterAsleep && Do(l, step).At(u) == WriterAwake)
         || (l.At(u) == ReaderAsleep && Do(l, step).At(u) == ReaderAwake)
  {
  }

  /** Where a step takes its own thread. */
  function NextPlace(l: Lock, step: Step): Place {
    match step
    case ReadLock(_) => if l.MayRead() then Reading else ReaderAsleep
    case ReadRetry(_) => if l.MayRead() then Reading else ReaderAsleep
    case ReadUnlock(_, _) => Outside
    case WriteLock(_) => if l.MayWrite() then Writing else WriterAsleep
    case WriteRetry(_) => if l.MayWrite() then Writing else WriterAsleep
    case WriteUnlock(_, _) => Outside
    case Spurious(t) => if l.At(t) == ReaderAsleep then ReaderAwake else WriterAwake
  }

  lemma OwnPlace(l: Lock, step: Step)
    requires Enabled(l, step)
    ensures Do(l, step).At(step.t) == NextPlace(l, step)
  {
  }

  // ---- Whole runs ----

  ghost predicate IsRun(states: seq<Lock>, steps: seq<Step>) {
    && |states| == |steps| + 1 && states[0] == INITIAL
    && forall i :: 0 <= i < |steps| ==> Enabled(states[i], steps[i]) && states[i + 1] == Do(states[i], steps[i])
  }

  lemma {:induction false} RunInv(states: seq<Lock>, steps: seq<Step>, n: nat)
    requires IsRun(states, steps) && n <= |steps|
    ensures Inv(states[n])
  {
    hide Do, Enabled;
    if n > 0 {
      RunInv(states, steps, n - 1);
      assert states[n - 1 + 1] == Do(states[n - 1], steps[n - 1]);
      StepKeeps(states[n - 1], steps[n - 1]);
    }
  }

  /** In every run, with any number of threads, a writer is alone. */
  lemma MutualExclusion(states: seq<Lock>, steps: seq<Step>, n: nat, w: Tid, other: Tid)
    requires IsRun(states, steps) && n <= |steps| && states[n].At(w) == Writing && other != w
    ensures states[n].At(other) != Writing && states[n].At(other) != Reading
  {
    RunInv(states, steps, n);
    WriterAlone(states[n], w, other);
  }

  /** No reader enters while a writer waits or writes. */
  lemma WriterPreference(states: seq<Lock>, steps: seq<Step>, n: nat, t: Tid, w: Tid)
    requires IsRun(states, steps) && n < |steps|
    requires states[n].At(t) != Reading && states[n + 1].At(t) == Reading
    ensures KindOf(states[n].At(w)) != WaitsToWrite && states[n].At(w) != Writing
  {
    RunInv(states, steps, n);
    assert states[n + 1] == Do(states[n], steps[n]);
    hide IsRun, Threads;
    if KindOf(states[n].At(w)) != Other {
      Member(states[n], w);
    }
  }

  lemma NoneOf(l: Lock, k: Kind)
    requires k != Other
    ensures |Threads(l, k)| == 0 <==> forall u :: KindOf(l.At(u)) != k
  {
    OutsideIsOther();
    hide KindOf;
    if u :| KindOf(l.At(u)) == k {
      assert u in l.threads;
      Member(l, u);
    } else {
      assert forall u :: u in l.threads ==> l.threads[u] == l.At(u);
      assert Threads(l, k) == {};
    }
  }

  /** In every run a reader that asks gets in exactly when no thread writes or waits to write, and a writer exactly when
      no thread reads or writes, even past writers that wait; otherwise they sleep. */
  lemma EntersExactly(states: seq<Lock>, steps: seq<Step>, n: nat)
    requires IsRun(states, steps) && n < |steps|
    ensures var l, t, after := states[n], steps[n].t, states[n + 1].At(steps[n].t);
      && (steps[n].ReadLock? || steps[n].ReadRetry? ==>
            && (after == Reading <==> forall u :: KindOf(l.At(u)) != Writes && KindOf(l.At(u)) != WaitsToWrite)
            && (after == Reading || after == ReaderAsleep))
      && (steps[n].WriteLock? || steps[n].WriteRetry? ==>
            && (after == Writing <==> forall u :: KindOf(l.At(u)) != Reads && KindOf(l.At(u)) != Writes)
            && (after == Writing || after == WriterAsleep))
  {
    RunInv(states, steps, n);
    var l := states[n];
    assert Enabled(l, steps[n]) && states[n + 1] == Do(l, steps[n]);
    OwnPlace(l, steps[n]);
    NoneOf(l, Reads);
    NoneOf(l, Writes);
    NoneOf(l, WaitsToWrite);
    hide IsRun, Do, Enabled, Threads, KindOf, NoLostWakeup;
  }

  /** Whenever the lock is free and a thread waits, one gets in by its next step, and none sleeps through it: an awake
      writer if any writer waits, and otherwise every thread that waits. */
  lemma FreeLockIsTaken(states: seq<Lock>, steps: seq<Step>, n: nat, waiter: Tid)
    requires IsRun(states, steps) && n <= |steps|
    requires forall t :: states[n].At(t) != Reading && states[n].At(t) != Writing
    requires states[n].At(waiter) != Outside
    ensures (exists w :: KindOf(states[n].At(w)) == WaitsToWrite) ==>
      exists t :: states[n].At(t) == WriterAwake && CanEnter(states[n], t)
    ensures (forall w :: KindOf(states[n].At(w)) != WaitsToWrite) ==> CanEnter(states[n], waiter)
  {
    var l := states[n];
    if w :| KindOf(l.At(w)) == WaitsToWrite {
      RunInv(states, steps, n);
      AwakeWriterEnters(l, w);
    } else {
      ReadersEnter(states, steps, n, waiter);
    }
  }

  lemma AwakeWriterEnters(l: Lock, w: Tid)
    requires Inv(l) && KindOf(l.At(w)) == WaitsToWrite
    requires forall t :: l.At(t) != Reading && l.At(t) != Writing
    ensures exists t :: l.At(t) == WriterAwake && CanEnter(l, t)
  {
    Member(l, w);
    assert forall t :: t in l.threads ==> l.threads[t] == l.At(t);
    assert Threads(l, Reads) == {} && Threads(l, Writes) == {};
    hide Threads;
    var t :| l.At(t) == WriterAwake;
    assert CanEnter(l, t);
  }

  /** Whenever no writer waits or writes, every reader that waits is awake and gets in by its next step, however many
      readers are inside. */
  lemma ReadersEnter(states: seq<Lock>, steps: seq<Step>, n: nat, reader: Tid)
    requires IsRun(states, steps) && n <= |steps|
    requires forall t :: KindOf(states[n].At(t)) != WaitsToWrite && states[n].At(t) != Writing
    requires states[n].At(reader) != Outside && states[n].At(reader) != Reading
    ensures states[n].At(reader) == ReaderAwake && CanEnter(states[n], reader)
  {
    RunInv(states, steps, n);
    hide IsRun;
    var l := states[n];
    assert forall t :: t in l.threads ==> l.threads[t] == l.At(t);
    assert Threads(l, WaitsToWrite) == {} && Threads(l, Writes) == {};
  }

  /** The thread's own retry admits it. */
  ghost predicate CanEnter(l: Lock, t: Tid) {
    || (Enabled(l, ReadRetry(t)) && Do(l, ReadRetry(t)).At(t) == Reading)
    || (Enabled(l, WriteRetry(t)) && Do(l, WriteRetry(t)).At(t) == Writing)
  }
}
