/** The thread pool: one task queue, any number of workers and submitters, and a graceful shutdown.

A critical section of the mutex is one step. `submit` notifies after it releases the mutex, and so does the destructor,
so a notification can be owed while other threads run.
*/
module ThreadPools {
  import opened Options

  type Wid = nat

  /** A worker about to test the wait condition, asleep on it, running a task, or returned from its loop. */
  datatype Worker<T> = Testing | Asleep | Running(task: T) | Exited

  /** The destructor: not started, flag set but notify owed, or waiting in join. */
  datatype Phase = Alive | Stopping | Joining

  /** `owed` counts submitters between their push and their notify; `accepted` and `taken` record the tasks' history. */
  datatype Pool<T> = Pool(
    tasks: seq<T>, workers: map<Wid, Worker<T>>, owed: nat, phase: Phase,
    accepted: seq<T>, taken: seq<T>)

  datatype Step<T> =
    | Submit(task: T)
    | Notify(woken: Option<Wid>)
    | Test(w: Wid)
    | Finish(w: Wid)
    | Spurious(w: Wid)
    | Stop
    | NotifyAll

  ghost predicate Init<T>(p: Pool<T>) {
    && p.tasks == [] && p.owed == 0 && p.phase == Alive && p.accepted == [] && p.taken == []
    && p.workers != map[] && forall w :: w in p.workers ==> p.workers[w].Testing?
  }

  ghost predicate Enabled<T>(p: Pool<T>, step: Step<T>) {
    match step
    case Submit(_) => true
    case Notify(Some(w)) => p.owed > 0 && w in p.workers && p.workers[w].Asleep?
    case Notify(None) => p.owed > 0 && forall w :: w in p.workers ==> !p.workers[w].Asleep?
    case Test(w) => w in p.workers && p.workers[w].Testing?
    case Finish(w) => w in p.workers && p.workers[w].Running?
    case Spurious(w) => w in p.workers && p.workers[w].Asleep?
    case Stop => p.phase == Alive
    case NotifyAll => p.phase == Stopping
  }

  function WakeAll<T>(workers: map<Wid, Worker<T>>): map<Wid, Worker<T>> {
    map w | w in workers :: if workers[w].Asleep? then Testing else workers[w]
  }

  /** A submit after shutdown began throws and changes nothing. */
  ghost function Do<T>(p: Pool<T>, step: Step<T>): Pool<T>
    requires Enabled(p, step)
  {
    match step
    case Submit(task) =>
      if p.phase != Alive then p
      else p.(tasks := p.tasks + [task], owed := p.owed + 1, accepted := p.accepted + [task])
    case Notify(woken) =>
      p.(owed := p.owed - 1, workers := if woken.Some? then p.workers[woken.value := Testing] else p.workers)
    case Test(w) =>
      if p.phase == Alive && |p.tasks| == 0 then p.(workers := p.workers[w := Asleep])
      else if |p.tasks| == 0 then p.(workers := p.workers[w := Exited])
      else p.(tasks := p.tasks[1..], taken := p.taken + [p.tasks[0]], workers := p.workers[w := Running(p.tasks[0])])
    case Finish(w) => p.(workers := p.workers[w := Testing])
    case Spurious(w) => p.(workers := p.workers[w := Testing])
    case Stop => p.(phase := Stopping)
    case NotifyAll => p.(phase := Joining, workers := WakeAll(p.workers))
  }

  // ---- The invariant ----

  ghost function Testers<T>(p: Pool<T>): set<Wid> {
    set w | w in p.workers && p.workers[w].Testing?
  }

  ghost predicate Sleeper<T>(p: Pool<T>) {
    exists w :: w in p.workers && p.workers[w].Asleep?
  }

  /** What was taken and what waits is what was accepted, in order. */
  ghost predicate InOrder<T>(p: Pool<T>) {
    p.taken + p.tasks == p.accepted
  }

  /** No worker sleeps unless a wakeup is on its way, or a worker about to look, for every waiting task. */
  ghost predicate NoLostWakeup<T>(p: Pool<T>) {
    Sleeper(p) ==> |p.tasks| <= p.owed + |Testers(p)|
  }

  /** Workers leave only an empty, closed pool; once the destructor joins nobody sleeps. */
  ghost predicate Shutdown<T>(p: Pool<T>) {
    && (forall w :: w in p.workers && p.workers[w].Exited? ==> p.phase != Alive && p.tasks == [])
    && (p.phase == Joining ==> !Sleeper(p))
    && p.workers != map[]
  }

  ghost predicate Inv<T>(p: Pool<T>) {
    InOrder(p) && NoLostWakeup(p) && Shutdown(p)
  }

  /** One worker joining or leaving the testers changes their number by one. */
  lemma TestersMove<T>(p: Pool<T>, q: Pool<T>, w: Wid, to: Worker<T>)
    requires w in p.workers && q.workers == p.workers[w := to]
    ensures |Testers(q)| == |Testers(p)| - (if p.workers[w].Testing? then 1 else 0) + (if to.Testing? then 1 else 0)
  {
    var s := Testers(p);
    assert w in s <==> p.workers[w].Testing?;
    assert Testers(q) == if to.Testing? then s + {w} else s - {w};
    hide Testers;
    if w in s {
      assert s + {w} == s && |s - {w}| == |s| - 1;
    } else {
      assert s - {w} == s;
    }
  }

  lemma InOrderKeeps<T>(p: Pool<T>, step: Step<T>)
    requires Inv(p) && Enabled(p, step)
    ensures InOrder(Do(p, step))
  {
    if step.Test? && |p.tasks| > 0 {
      assert p.tasks == [p.tasks[0]] + p.tasks[1..];
    }
  }

  lemma ShutdownKeeps<T>(p: Pool<T>, step: Step<T>)
    requires Inv(p) && Enabled(p, step)
    ensures Shutdown(Do(p, step))
  {
    var q := Do(p, step);
    var w :| w in p.workers;
    assert w in q.workers;
    forall v | v in q.workers && q.workers[v].Exited? ensures q.phase != Alive && q.tasks == [] {
      assert p.workers[v].Exited? || (step.Test? && step.w == v);
    }
  }

  lemma WakeupKeeps<T>(p: Pool<T>, step: Step<T>)
    requires Inv(p) && Enabled(p, step)
    ensures NoLostWakeup(Do(p, step))
  {
    var q := Do(p, step);
    match step {
      case Submit(_) =>
        assert Testers(q) == Testers(p);
      case Notify(Some(w)) =>
        TestersMove(p, q, w, Testing);
      case Notify(None) =>
      case Test(w) =>
        TestersMove(p, q, w, q.workers[w]);
        if |p.tasks| > 0 && Sleeper(q) {
          var v :| v in q.workers && q.workers[v].Asleep?;
          assert p.workers[v].Asleep?;
        }
      case Finish(w) =>
        TestersMove(p, q, w, Testing);
        OthersAsleep(p, q, w);
      case Spurious(w) =>
        TestersMove(p, q, w, Testing);
      case Stop =>
        assert Testers(q) == Testers(p);
      case NotifyAll =>
    }
  }

  lemma OthersAsleep<T>(p: Pool<T>, q: Pool<T>, w: Wid)
    requires w in p.workers && q.workers == p.workers[w := Testing]
    ensures Sleeper(q) ==> Sleeper(p)
  {
    if Sleeper(q) {
      var v :| v in q.workers && q.workers[v].Asleep?;
      assert p.workers[v].Asleep?;
    }
  }

  lemma StepKeeps<T>(p: Pool<T>, step: Step<T>)
    requires Inv(p) && Enabled(p, step)
    ensures Inv(Do(p, step))
  {
    hide Do, Enabled, InOrder, NoLostWakeup, Shutdown;
    InOrderKeeps(p, step);
    WakeupKeeps(p, step);
    ShutdownKeeps(p, step);
  }

  // ---- Whole runs ----

  ghost predicate IsRun<T>(states: seq<Pool<T>>, steps: seq<Step<T>>) {
    && |states| == |steps| + 1 && Init(states[0])
    && forall i :: 0 <= i < |steps| ==> Enabled(states[i], steps[i]) && states[i + 1] == Do(states[i], steps[i])
  }

  lemma {:induction false} RunInv<T>(states: seq<Pool<T>>, steps: seq<Step<T>>, n: nat)
    requires IsRun(states, steps) && n <= |steps|
    ensures Inv(states[n])
  {
    if n == 0 {
      assert !Sleeper(states[0]);
    } else {
      hide Do, Enabled, Init, Inv;
      RunInv(states, steps, n - 1);
      assert states[n - 1 + 1] == Do(states[n - 1], steps[n - 1]);
      StepKeeps(states[n - 1], steps[n - 1]);
    }
  }

  // ---- Which tasks are accepted, and who runs them ----

  ghost predicate NotStopped<T>(steps: seq<Step<T>>, n: nat)
    requires n <= |steps|
  {
    forall i :: 0 <= i < n ==> !steps[i].Stop?
  }

  /** The tasks submitted in the first `n` steps before the destructor began, in order. */
  ghost function Submitted<T>(steps: seq<Step<T>>, n: nat): seq<T>
    requires n <= |steps|
  {
    if n == 0 then []
    else Submitted(steps, n - 1)
         + if steps[n - 1].Submit? && NotStopped(steps, n - 1) then [steps[n - 1].task] else []
  }

  lemma AcceptStep<T>(p: Pool<T>, step: Step<T>)
    requires Enabled(p, step)
    ensures Do(p, step).accepted == p.accepted + if step.Submit? && p.phase.Alive? then [step.task] else []
    ensures Do(p, step).phase.Alive? <==> p.phase.Alive? && !step.Stop?
  {
  }

  /** In every run the pool accepts exactly what was submitted before the destructor began, in that order. */
  lemma {:induction false} AcceptedAreSubmitted<T>(states: seq<Pool<T>>, steps: seq<Step<T>>, n: nat)
    requires IsRun(states, steps) && n <= |steps|
    ensures states[n].phase.Alive? <==> NotStopped(steps, n)
    ensures states[n].accepted == Submitted(steps, n)
  {
    if n > 0 {
      hide Do, Enabled, Init;
      AcceptedAreSubmitted(states, steps, n - 1);
      assert states[n - 1 + 1] == Do(states[n - 1], steps[n - 1]);
      AcceptStep(states[n - 1], steps[n - 1]);
    }
  }

  /** In every run a worker that looks runs the oldest task submitted and not yet taken; with none it sleeps until the
      destructor begins, and returns after. Nothing else changes who runs what. */
  lemma WorkerTakesOldest<T>(states: seq<Pool<T>>, steps: seq<Step<T>>, n: nat, w: Wid)
    requires IsRun(states, steps) && n < |steps| && steps[n] == Test(w)
    ensures |states[n].taken| <= |Submitted(steps, n)|
    ensures |states[n].taken| < |Submitted(steps, n)| ==>
              && states[n + 1].taken == states[n].taken + [Submitted(steps, n)[|states[n].taken|]]
              && states[n + 1].workers == states[n].workers[w := Running(Submitted(steps, n)[|states[n].taken|])]
    ensures |states[n].taken| == |Submitted(steps, n)| ==>
              && states[n + 1].taken == states[n].taken
              && states[n + 1].workers == states[n].workers[w := if NotStopped(steps, n) then Asleep else Exited]
  {
    AcceptedAreSubmitted(states, steps, n);
    RunInv(states, steps, n);
    var p := states[n];
    assert Enabled(p, Test(w)) && states[n + 1] == Do(p, Test(w));
    hide IsRun, Submitted, NotStopped, NoLostWakeup, Shutdown, Init;
    assert p.taken + p.tasks == Submitted(steps, n);
    if |p.tasks| > 0 {
      assert p.tasks[0] == Submitted(steps, n)[|p.taken|];
    }
  }

  /** In every run tasks are taken exactly once, in the order they were accepted, and the rest are queued in order. */
  lemma TakenInOrder<T>(states: seq<Pool<T>>, steps: seq<Step<T>>, n: nat)
    requires IsRun(states, steps) && n <= |steps|
    ensures states[n].taken + states[n].tasks == states[n].accepted
  {
    RunInv(states, steps, n);
  }

  /** While a task waits, some worker is awake or some submitter still owes a notify. */
  lemma NeverStranded<T>(states: seq<Pool<T>>, steps: seq<Step<T>>, n: nat)
    requires IsRun(states, steps) && n <= |steps| && states[n].tasks != []
    ensures states[n].owed > 0
         || exists w :: w in states[n].workers && (states[n].workers[w].Testing? || states[n].workers[w].Running?)
  {
    RunInv(states, steps, n);
    var p := states[n];
    if Sleeper(p) {
      if p.owed == 0 {
        var w :| w in Testers(p);
      }
    } else {
      var w :| w in p.workers;
      assert !p.workers[w].Asleep? && !p.workers[w].Exited?;
    }
  }

  /** When every worker has returned, no accepted task is left behind. */
  lemma NothingLeft<T>(states: seq<Pool<T>>, steps: seq<Step<T>>, n: nat)
    requires IsRun(states, steps) && n <= |steps|
    requires forall w :: w in states[n].workers ==> states[n].workers[w].Exited?
    ensures states[n].tasks == [] && states[n].taken == states[n].accepted
  {
    RunInv(states, steps, n);
    var p := states[n];
    var w :| w in p.workers;
    assert p.workers[w].Exited?;
  }

  // ---- Join returns ----

  ghost function Runners<T>(p: Pool<T>): set<Wid> {
    set w | w in p.workers && p.workers[w].Running?
  }

  lemma RunnersMove<T>(p: Pool<T>, q: Pool<T>, w: Wid, to: Worker<T>)
    requires w in p.workers && q.workers == p.workers[w := to]
    ensures |Runners(q)| == |Runners(p)| - (if p.workers[w].Running? then 1 else 0) + (if to.Running? then 1 else 0)
  {
    var s := Runners(p);
    assert w in s <==> p.workers[w].Running?;
    assert Runners(q) == if to.Running? then s + {w} else s - {w};
    hide Runners;
    if w in s {
      assert s + {w} == s && |s - {w}| == |s| - 1;
    } else {
      assert s - {w} == s;
    }
  }

  /** The worker steps still to come once the destructor joins: taking and finishing each queued task, finishing each
      running one, and one last test for each worker that has not returned. */
  ghost function Work<T>(p: Pool<T>): nat {
    2 * |p.tasks| + 2 * |Runners(p)| + |Testers(p)|
  }

  predicate IsWorkerStep<T>(step: Step<T>) { step.Test? || step.Finish? }

  ghost function WorkerSteps<T>(steps: seq<Step<T>>): nat {
    if |steps| == 0 then 0
    else WorkerSteps(steps[..|steps| - 1]) + if IsWorkerStep(steps[|steps| - 1]) then 1 else 0
  }

  /** Once the destructor joins, every worker step uses up one unit of work and no other step changes it. */
  lemma JoinStep<T>(p: Pool<T>, step: Step<T>)
    requires Inv(p) && Enabled(p, step) && p.phase == Joining
    ensures Do(p, step).phase == Joining
    ensures Work(Do(p, step)) + (if IsWorkerStep(step) then 1 else 0) == Work(p)
  {
    hide InOrder, NoLostWakeup;
    var q := Do(p, step);
    if IsWorkerStep(step) {
      TestersMove(p, q, step.w, q.workers[step.w]);
      RunnersMove(p, q, step.w, q.workers[step.w]);
    } else {
      assert q.workers == p.workers && q.tasks == p.tasks;
      assert Testers(q) == Testers(p) && Runners(q) == Runners(p);
    }
  }

  ghost predicate AllExited<T>(p: Pool<T>) {
    forall w :: w in p.workers ==> p.workers[w].Exited?
  }

  /** With work left some worker can step; no work is left exactly when every worker has returned. */
  lemma WorkLeft<T>(p: Pool<T>)
    requires Inv(p) && p.phase == Joining
    ensures Work(p) == 0 <==> AllExited(p)
    ensures AllExited(p) ==> p.taken == p.accepted
    ensures !AllExited(p) ==> exists w :: Enabled(p, Test(w)) || Enabled(p, Finish(w))
  {
    if AllExited(p) {
      assert Testers(p) == {} && Runners(p) == {};
      var w :| w in p.workers;
      assert p.workers[w].Exited?;
    } else {
      var w :| w in p.workers && !p.workers[w].Exited?;
      assert Enabled(p, Test(w)) || Enabled(p, Finish(w));
      assert w in Testers(p) || w in Runners(p);
    }
  }

  /** From any moment at which the destructor joins, the workers' steps and the work left make up the work there was. */
  lemma {:induction false} JoinBound<T>(states: seq<Pool<T>>, steps: seq<Step<T>>, m: nat, n: nat)
    requires IsRun(states, steps) && m <= n <= |steps| && states[m].phase == Joining
    ensures states[n].phase == Joining && WorkerSteps(steps[m..n]) + Work(states[n]) == Work(states[m])
  {
    hide Do, Enabled, Init, Inv, Work, IsWorkerStep;
    if n > m {
      JoinBound(states, steps, m, n - 1);
      RunInv(states, steps, n - 1);
      assert states[n - 1 + 1] == Do(states[n - 1], steps[n - 1]);
      JoinStep(states[n - 1], steps[n - 1]);
      assert steps[m..n][..n - m - 1] == steps[m..n - 1];
    }
  }

  /** Join waits for a fixed number of worker steps: in every run, the workers never take more steps than the work there
      was when the destructor joined, they have taken that many exactly when every worker has returned, every accepted
      task has then run, and until then some worker can step. */
  lemma JoinReturns<T>(states: seq<Pool<T>>, steps: seq<Step<T>>, m: nat, n: nat)
    requires IsRun(states, steps) && m <= n <= |steps| && states[m].phase == Joining
    ensures WorkerSteps(steps[m..n]) <= Work(states[m])
    ensures WorkerSteps(steps[m..n]) == Work(states[m]) <==> AllExited(states[n])
    ensures AllExited(states[n]) ==> states[n].taken == states[n].accepted
    ensures !AllExited(states[n]) ==> exists w :: Enabled(states[n], Test(w)) || Enabled(states[n], Finish(w))
  {
    JoinBound(states, steps, m, n);
    RunInv(states, steps, n);
    hide IsRun, Inv, Work, WorkerSteps, Enabled, AllExited;
    WorkLeft(states[n]);
  }

  /** In every run, once the destructor joins, every worker that has not returned can step: none is asleep. */
  lemma JoinCannotHang<T>(states: seq<Pool<T>>, steps: seq<Step<T>>, n: nat, w: Wid)
    requires IsRun(states, steps) && n <= |steps| && states[n].phase == Joining
    requires w in states[n].workers && !states[n].workers[w].Exited?
    ensures Enabled(states[n], Test(w)) || Enabled(states[n], Finish(w))
  {
    RunInv(states, steps, n);
  }
}
