/** The multi-producer single-consumer queue as an interleaving of atomic steps over a heap with reusable addresses.

Each step is one atomic access of the code, taken by one thread; atomics are sequentially consistent.
A step that would touch an address not in use sets `faulted` instead of being ruled out; that no pointer outlives the
node it was taken to, so that an address in use again is never mistaken for the old node, is shown apart.
*/
module LockFreeQueue {
  import opened Options

  type Addr = nat
  type Pid = nat

  datatype Node<T> = Node(value: Option<T>, next: Option<Addr>)

  /** Where a producer stands: outside push, holding a private node, or between the exchange and the link. */
  datatype Producer = Outside | Holding(node: Addr) | Linking(prev: Addr, node: Addr)

  /** Where the consumer stands inside pop. */
  datatype Consumer = Ready | Loaded(next: Addr) | Taken(next: Addr)

  /** `pushed`, `popped` and `chain` only record what happened: the items in tail-exchange order with their producers,
      the items handed out, and the nodes from the stub to the tail. */
  datatype State<T> = State(
    heap: map<Addr, Node<T>>, head: Addr, tail: Addr,
    producers: map<Pid, Producer>, consumer: Consumer,
    faulted: bool,
    pushed: seq<(Pid, T)>, popped: seq<T>, chain: seq<Addr>)

  datatype Step<T> =
    | Allocate(pid: Pid, addr: Addr, item: T)
    | Exchange(pid: Pid)
    | Link(pid: Pid)
    | PopLoad
    | PopTake
    | PopFree

  function At(ps: map<Pid, Producer>, pid: Pid): Producer {
    if pid in ps then ps[pid] else Outside
  }

  ghost predicate Init<T>(s: State<T>) {
    && s.heap == map[s.head := Node(None, None)] && s.tail == s.head
    && s.producers == map[] && s.consumer == Ready && !s.faulted
    && s.pushed == [] && s.popped == [] && s.chain == [s.head]
  }

  /** A thread may take a step when its own control is there; an allocation returns an address not in use. */
  predicate Enabled<T>(s: State<T>, step: Step<T>) {
    match step
    case Allocate(pid, addr, _) => At(s.producers, pid).Outside? && addr !in s.heap
    case Exchange(pid) => At(s.producers, pid).Holding?
    case Link(pid) => At(s.producers, pid).Linking?
    case PopLoad => s.consumer.Ready?
    case PopTake => s.consumer.Loaded?
    case PopFree => s.consumer.Taken?
  }

  function Fault<T>(s: State<T>): State<T> {
    s.(faulted := true)
  }

  function Do<T>(s: State<T>, step: Step<T>): State<T>
    requires Enabled(s, step)
  {
    match step
    case Allocate(pid, addr, item) =>
      s.(heap := s.heap[addr := Node(Some(item), None)], producers := s.producers[pid := Holding(addr)])
    case Exchange(pid) =>
      var node := At(s.producers, pid).node;
      if node !in s.heap || s.heap[node].value.None? then Fault(s) else
      s.(tail := node, producers := s.producers[pid := Linking(s.tail, node)],
         pushed := s.pushed + [(pid, s.heap[node].value.value)], chain := s.chain + [node])
    case Link(pid) =>
      var Linking(prev, node) := At(s.producers, pid);
      if prev !in s.heap then Fault(s) else
      s.(heap := s.heap[prev := s.heap[prev].(next := Some(node))], producers := s.producers[pid := Outside])
    case PopLoad =>
      if s.head !in s.heap then Fault(s) else
      (match s.heap[s.head].next
       case None => s
       case Some(next) => s.(consumer := Loaded(next)))
    case PopTake =>
      var next := s.consumer.next;
      if next !in s.heap || s.heap[next].value.None? then Fault(s) else
      s.(heap := s.heap[next := s.heap[next].(value := None)], consumer := Taken(next),
         popped := s.popped + [s.heap[next].value.value])
    case PopFree =>
      if s.head !in s.heap || |s.chain| == 0 then Fault(s) else
      s.(heap := s.heap - {s.head}, head := s.consumer.next, consumer := Ready, chain := s.chain[1..])
  }

  // ---- The invariant ----

  ghost predicate Distinct(chain: seq<Addr>) {
    forall i, j :: 0 <= i < j < |chain| ==> chain[i] != chain[j]
  }

  /** The chain is in the heap, runs from the stub to the tail, and its last node is not linked on. */
  ghost predicate ChainOk<T>(s: State<T>) {
    && |s.chain| >= 1 && s.chain[0] == s.head && s.chain[|s.chain| - 1] == s.tail
    && Distinct(s.chain)
    && (forall i :: 0 <= i < |s.chain| ==> s.chain[i] in s.heap)
    && s.heap[s.tail].next == None
  }

  /** Some producer still owes the link out of chain position `i`. */
  ghost predicate Owed<T>(s: State<T>, i: nat)
    requires i + 1 < |s.chain|
  {
    exists pid :: pid in s.producers && s.producers[pid] == Linking(s.chain[i], s.chain[i + 1])
  }

  /** Each link is in place, or absent and owed. */
  ghost predicate LinksOk<T>(s: State<T>)
    requires ChainOk(s)
  {
    forall i :: 0 <= i < |s.chain| - 1 ==> LinkOk(s, i)
  }

  ghost predicate LinkOk<T>(s: State<T>, i: nat)
    requires i + 1 < |s.chain| && s.chain[i] in s.heap
  {
    s.heap[s.chain[i]].next == Some(s.chain[i + 1]) || (s.heap[s.chain[i]].next == None && Owed(s, i))
  }

  /** Every node in the heap is in the chain or private to a producer: nothing leaks. */
  ghost predicate NoLeak<T>(s: State<T>) {
    forall a :: a in s.heap ==> a in s.chain || Private(s, a)
  }

  ghost predicate Private<T>(s: State<T>, a: Addr) {
    exists pid :: pid in s.producers && s.producers[pid] == Holding(a)
  }

  /** A linking producer's two nodes are adjacent in the chain and not linked yet. */
  ghost predicate Adjacent<T>(s: State<T>, prev: Addr, node: Addr) {
    exists i :: 0 <= i < |s.chain| - 1 && s.chain[i] == prev && s.chain[i + 1] == node
  }

  ghost predicate ProducersOk<T>(s: State<T>) {
    && (forall pid :: pid in s.producers && s.producers[pid].Linking? ==>
          var p := s.producers[pid]; p.prev in s.heap && s.heap[p.prev].next == None && Adjacent(s, p.prev, p.node))
    && (forall pid :: pid in s.producers && s.producers[pid].Holding? ==>
          var node := s.producers[pid].node;
          node in s.heap && node !in s.chain && s.heap[node].next == None && s.heap[node].value.Some?)
    && (forall a, b :: a in s.producers && b in s.producers && a != b ==>
          s.producers[a].Outside? || s.producers[b].Outside? || s.producers[a].node != s.producers[b].node)
  }

  /** How many pushed items have left the chain. */
  function Gone<T>(s: State<T>): int {
    |s.popped| - if s.consumer.Taken? then 1 else 0
  }

  /** The chain behind the stub carries the items not yet popped, in exchange order. */
  ghost predicate ItemsOk<T>(s: State<T>)
    requires ChainOk(s)
  {
    && Gone(s) >= 0 && |s.chain| - 1 == |s.pushed| - Gone(s)
    && (forall i :: 1 <= i < |s.chain| ==>
          s.heap[s.chain[i]].value == if i == 1 && s.consumer.Taken? then None else Some(s.pushed[Gone(s) + i - 1].1))
    && |s.popped| <= |s.pushed|
    && (forall i :: 0 <= i < |s.popped| ==> s.popped[i] == s.pushed[i].1)
  }

  ghost predicate ConsumerOk<T>(s: State<T>)
    requires ChainOk(s)
  {
    !s.consumer.Ready? ==>
      |s.chain| >= 2 && s.chain[1] == s.consumer.next && s.heap[s.head].next == Some(s.consumer.next)
  }

  ghost predicate Inv<T>(s: State<T>) {
    Core(s) && NoLeak(s)
  }

  ghost predicate Core<T>(s: State<T>) {
    !s.faulted && ChainOk(s) && LinksOk(s) && ProducersOk(s) && ItemsOk(s) && ConsumerOk(s)
  }

  lemma InitInv<T>(s: State<T>)
    requires Init(s)
    ensures Inv(s)
  {
  }

  lemma AllocateKeepsLinks<T>(s: State<T>, pid: Pid, addr: Addr, item: T)
    requires ChainOk(s) && LinksOk(s) && ItemsOk(s) && ConsumerOk(s) && Enabled(s, Allocate(pid, addr, item))
    ensures var s' := Do(s, Allocate(pid, addr, item)); ChainOk(s') && LinksOk(s') && ItemsOk(s') && ConsumerOk(s')
  {
    var s' := Do(s, Allocate(pid, addr, item));
    forall i | 0 <= i < |s.chain| - 1 ensures LinkOk(s', i) {
      assert LinkOk(s, i);
      if Owed(s, i) {
        var p :| p in s.producers && s.producers[p] == Linking(s.chain[i], s.chain[i + 1]);
        assert s'.producers[p] == Linking(s'.chain[i], s'.chain[i + 1]);
      }
    }
  }

  lemma AllocateKeepsProducers<T>(s: State<T>, pid: Pid, addr: Addr, item: T)
    requires ChainOk(s) && ProducersOk(s) && Enabled(s, Allocate(pid, addr, item))
    requires forall p :: p in s.producers && s.producers[p].Linking? ==> s.producers[p].node in s.heap
    ensures ProducersOk(Do(s, Allocate(pid, addr, item)))
  {
    hide Distinct;
    var s' := Do(s, Allocate(pid, addr, item));
    assert s'.chain == s.chain;
    forall prev, node | Adjacent(s, prev, node) ensures Adjacent(s', prev, node) {
    }
    hide Adjacent;
  }

  lemma LinkingInHeap<T>(s: State<T>, p: Pid)
    requires ChainOk(s) && ProducersOk(s) && p in s.producers && s.producers[p].Linking?
    ensures s.producers[p].node in s.heap
  {
    assert Adjacent(s, s.producers[p].prev, s.producers[p].node);
  }

  lemma AllocateKeeps<T>(s: State<T>, pid: Pid, addr: Addr, item: T)
    requires Core(s) && Enabled(s, Allocate(pid, addr, item))
    ensures Core(Do(s, Allocate(pid, addr, item)))
  {
    AllocateKeepsLinks(s, pid, addr, item);
    hide ChainOk, LinksOk, ProducersOk, ItemsOk, ConsumerOk;
    forall p | p in s.producers && s.producers[p].Linking? ensures s.producers[p].node in s.heap {
      LinkingInHeap(s, p);
    }
    AllocateKeepsProducers(s, pid, addr, item);
  }

  lemma ExchangeKeeps<T>(s: State<T>, pid: Pid)
    requires Core(s) && Enabled(s, Step<T>.Exchange(pid))
    ensures Core(Do(s, Step<T>.Exchange(pid)))
  {
    ExchangeKeepsProducers(s, pid);
    ExchangeKeepsLinks(s, pid);
  }

  lemma ExchangeKeepsProducers<T>(s: State<T>, pid: Pid)
    requires Core(s) && Enabled(s, Step<T>.Exchange(pid))
    ensures ProducersOk(Do(s, Step<T>.Exchange(pid)))
  {
    hide LinksOk, ItemsOk, ConsumerOk;
    var s' := Do(s, Step<T>.Exchange(pid));
    var n := |s.chain|;
    forall prev, node | Adjacent(s, prev, node) ensures Adjacent(s', prev, node) {
      var i :| 0 <= i < n - 1 && s.chain[i] == prev && s.chain[i + 1] == node;
      assert s'.chain[i] == prev && s'.chain[i + 1] == node;
    }
    assert s'.chain[n - 1] == s.tail && s'.chain[n] == s'.tail;
    assert Adjacent(s', s.tail, s'.tail);
    hide Adjacent;
  }

  /** The published node joins the chain's end; its link is owed by the thread that exchanged. */
  lemma ExchangeKeepsLinks<T>(s: State<T>, pid: Pid)
    requires Core(s) && Enabled(s, Step<T>.Exchange(pid))
    ensures var s' := Do(s, Step<T>.Exchange(pid));
      !s'.faulted && ChainOk(s') && LinksOk(s') && ItemsOk(s') && ConsumerOk(s')
  {
    var node := s.producers[pid].node;
    assert node in s.heap && node !in s.chain && s.heap[node].next == None && s.heap[node].value.Some?;
    hide ProducersOk;
    ExchangeKeepsChain(s, pid, node);
    ExchangeKeepsItems(s, pid, node);
    hide ItemsOk, ConsumerOk, Do;
    forall i | 0 <= i < |s.chain| ensures LinkOk(Do(s, Step<T>.Exchange(pid)), i) {
      ExchangeKeepsLink(s, pid, node, i);
    }
  }

  ghost predicate Exchanging<T>(s: State<T>, pid: Pid, node: Addr) {
    && ChainOk(s) && pid in s.producers && s.producers[pid] == Holding(node)
    && node in s.heap && node !in s.chain && s.heap[node].next == None && s.heap[node].value.Some?
  }

  lemma ExchangeKeepsChain<T>(s: State<T>, pid: Pid, node: Addr)
    requires Exchanging(s, pid, node)
    ensures var s' := Do(s, Step<T>.Exchange(pid));
      s'.faulted == s.faulted && s'.heap == s.heap && s'.chain == s.chain + [node] && ChainOk(s')
  {
  }

  lemma ExchangeKeepsItems<T>(s: State<T>, pid: Pid, node: Addr)
    requires Exchanging(s, pid, node) && ItemsOk(s) && ConsumerOk(s) && ChainOk(Do(s, Step<T>.Exchange(pid)))
    ensures var s' := Do(s, Step<T>.Exchange(pid)); ItemsOk(s') && ConsumerOk(s')
  {
    hide Distinct;
  }

  lemma ExchangeKeepsLink<T>(s: State<T>, pid: Pid, node: Addr, i: nat)
    requires Exchanging(s, pid, node) && LinksOk(s) && i < |s.chain|
    ensures var s' := Do(s, Step<T>.Exchange(pid));
      i + 1 < |s'.chain| && s'.chain[i] in s'.heap && LinkOk(s', i)
  {
    hide Distinct;
    var s' := Do(s, Step<T>.Exchange(pid));
    if i + 1 == |s.chain| {
      assert s'.producers[pid] == Linking(s'.chain[i], s'.chain[i + 1]);
    } else {
      assert LinkOk(s, i);
      if Owed(s, i) {
        var p :| p in s.producers && s.producers[p] == Linking(s.chain[i], s.chain[i + 1]);
        assert s'.producers[p] == Linking(s'.chain[i], s'.chain[i + 1]);
      }
    }
  }

  /** No two producers owe a link out of the same node. */
  lemma OnePerLink<T>(s: State<T>, a: Pid, b: Pid)
    requires ChainOk(s) && ProducersOk(s) && a in s.producers && b in s.producers && a != b
    requires s.producers[a].Linking? && s.producers[b].Linking?
    ensures s.producers[a].prev != s.producers[b].prev
  {
    var i :| 0 <= i < |s.chain| - 1 && s.chain[i] == s.producers[a].prev && s.chain[i + 1] == s.producers[a].node;
    var j :| 0 <= j < |s.chain| - 1 && s.chain[j] == s.producers[b].prev && s.chain[j + 1] == s.producers[b].node;
    assert s.producers[a].node != s.producers[b].node;
    assert i != j;
  }

  lemma LinkKeeps<T>(s: State<T>, pid: Pid)
    requires Core(s) && Enabled(s, Step<T>.Link(pid))
    ensures Core(Do(s, Step<T>.Link(pid)))
  {
    hide LinksOk, ItemsOk, ConsumerOk, ChainOk;
    var Linking(prev, node) := s.producers[pid];
    assert Adjacent(s, prev, node);
    var k :| 0 <= k < |s.chain| - 1 && s.chain[k] == prev && s.chain[k + 1] == node;
    LinkKeepsProducers(s, pid);
    LinkKeepsLinks(s, pid, k);
  }

  lemma LinkKeepsProducers<T>(s: State<T>, pid: Pid)
    requires Core(s) && Enabled(s, Step<T>.Link(pid))
    ensures ProducersOk(Do(s, Step<T>.Link(pid)))
  {
    var s' := Do(s, Step<T>.Link(pid));
    forall q | q in s'.producers && s'.producers[q].Linking?
      ensures var p := s'.producers[q];
        p.prev in s'.heap && s'.heap[p.prev].next == None && Adjacent(s', p.prev, p.node)
    {
      OnePerLink(s, q, pid);
      assert Adjacent(s, s.producers[q].prev, s.producers[q].node);
    }
    hide Adjacent;
  }

  lemma LinkKeepsLinks<T>(s: State<T>, pid: Pid, k: nat)
    requires Core(s) && Enabled(s, Step<T>.Link(pid)) && k < |s.chain| - 1
    requires s.producers[pid] == Linking(s.chain[k], s.chain[k + 1])
    ensures var s' := Do(s, Step<T>.Link(pid)); ChainOk(s') && LinksOk(s') && ItemsOk(s') && ConsumerOk(s')
  {
    hide ProducersOk;
    var s' := Do(s, Step<T>.Link(pid));
    forall i | 0 <= i < |s.chain| - 1 && i != k && Owed(s, i) ensures Owed(s', i) {
      var p :| p in s.producers && s.producers[p] == Linking(s.chain[i], s.chain[i + 1]);
      assert p != pid;
      assert s'.producers[p] == Linking(s'.chain[i], s'.chain[i + 1]);
    }
    forall i | 0 <= i < |s.chain| - 1 ensures LinkOk(s', i) {
      assert LinkOk(s, i);
    }
  }

  lemma PopLoadKeeps<T>(s: State<T>)
    requires Core(s) && Enabled(s, Step<T>.PopLoad)
    ensures Core(Do(s, Step<T>.PopLoad))
  {
    var s' := Do(s, Step<T>.PopLoad);
    assert |s.chain| > 1 ==> LinkOk(s, 0);
    forall i | 0 <= i < |s.chain| - 1 ensures LinkOk(s', i) {
      assert LinkOk(s, i);
    }
    forall a, b | Adjacent(s, a, b) ensures Adjacent(s', a, b) {
    }
  }

  lemma PopTakeKeeps<T>(s: State<T>)
    requires Core(s) && Enabled(s, Step<T>.PopTake)
    ensures Core(Do(s, Step<T>.PopTake))
  {
    var s' := Do(s, Step<T>.PopTake);
    forall i | 0 <= i < |s.chain| - 1 ensures LinkOk(s', i) {
      assert LinkOk(s, i);
    }
    forall a, b | Adjacent(s, a, b) ensures Adjacent(s', a, b) {
    }
  }

  lemma PopFreeKeeps<T>(s: State<T>)
    requires Core(s) && Enabled(s, Step<T>.PopFree)
    ensures Core(Do(s, Step<T>.PopFree))
  {
    PopFreeKeepsProducers(s);
    PopFreeKeepsLinks(s);
  }

  lemma PopFreeKeepsProducers<T>(s: State<T>)
    requires Core(s) && Enabled(s, Step<T>.PopFree)
    ensures ProducersOk(Do(s, Step<T>.PopFree))
  {
    hide LinksOk, ItemsOk;
    var s' := Do(s, Step<T>.PopFree);
    forall a, b | Adjacent(s, a, b) && a != s.head ensures Adjacent(s', a, b) {
      var i :| 0 <= i < |s.chain| - 1 && s.chain[i] == a && s.chain[i + 1] == b;
      assert i > 0;
      assert s'.chain[i - 1] == a && s'.chain[i] == b;
    }
    hide Adjacent;
  }

  lemma PopFreeKeepsLinks<T>(s: State<T>)
    requires Core(s) && Enabled(s, Step<T>.PopFree)
    ensures var s' := Do(s, Step<T>.PopFree); !s'.faulted && ChainOk(s') && LinksOk(s') && ItemsOk(s') && ConsumerOk(s')
  {
    hide ProducersOk;
    var s' := Do(s, Step<T>.PopFree);
    forall i | 0 <= i < |s.chain| - 1 ensures s'.chain[i] == s.chain[i + 1] {
    }
    forall i | 0 <= i < |s'.chain| - 1 ensures LinkOk(s', i) {
      assert LinkOk(s, i + 1);
      if Owed(s, i + 1) {
        var p :| p in s.producers && s.producers[p] == Linking(s.chain[i + 1], s.chain[i + 2]);
        assert s'.producers[p] == Linking(s'.chain[i], s'.chain[i + 1]);
      }
    }
  }

  /** An allocation is private, an exchange puts it in the chain, and only the old stub is ever freed. */
  lemma StepLeaksNothing<T>(s: State<T>, step: Step<T>)
    requires ChainOk(s) && ConsumerOk(s) && NoLeak(s) && Enabled(s, step) && !Do(s, step).faulted
    ensures NoLeak(Do(s, step))
  {
    hide ChainOk, ConsumerOk;
    forall a | a in Do(s, step).heap ensures a in Do(s, step).chain || Private(Do(s, step), a) {
      if a in s.chain {
        ChainStays(s, step, a);
      } else {
        HolderStays(s, step, a);
      }
    }
  }

  lemma ChainStays<T>(s: State<T>, step: Step<T>, a: Addr)
    requires ChainOk(s) && Enabled(s, step) && a in s.chain && a in Do(s, step).heap
    ensures a in Do(s, step).chain
  {
    hide Distinct;
    var i :| 0 <= i < |s.chain| && s.chain[i] == a;
    assert step.PopFree? && !Do(s, step).faulted ==> i > 0 && Do(s, step).chain[i - 1] == a;
  }

  lemma HolderStays<T>(s: State<T>, step: Step<T>, a: Addr)
    requires NoLeak(s) && Enabled(s, step) && a !in s.chain && a in Do(s, step).heap && !Do(s, step).faulted
    ensures a in Do(s, step).chain || Private(Do(s, step), a)
  {
    var s' := Do(s, step);
    if step.Allocate? && a == step.addr {
      assert s'.producers[step.pid] == Holding(a);
    } else {
      assert a in s.heap;
      var p :| p in s.producers && s.producers[p] == Holding(a);
      assert !(step.Exchange? && step.pid == p) ==> s'.producers[p] == Holding(a);
    }
  }

  lemma StepKeeps<T>(s: State<T>, step: Step<T>)
    requires Inv(s) && Enabled(s, step)
    ensures Inv(Do(s, step))
  {
    hide Enabled, Do, ChainOk, LinksOk, ProducersOk, ItemsOk, ConsumerOk, NoLeak;
    match step {
      case Allocate(pid, addr, item) => AllocateKeeps(s, pid, addr, item);
      case Exchange(pid) => ExchangeKeeps(s, pid);
      case Link(pid) => LinkKeeps(s, pid);
      case PopLoad => PopLoadKeeps(s);
      case PopTake => PopTakeKeeps(s);
      case PopFree => PopFreeKeeps(s);
    }
    StepLeaksNothing(s, step);
  }

  // ---- Whole runs ----

  /** Any interleaving: a start state and the states after each step. */
  ghost predicate IsRun<T>(states: seq<State<T>>, steps: seq<Step<T>>) {
    && |states| == |steps| + 1 && Init(states[0])
    && forall i :: 0 <= i < |steps| ==> Enabled(states[i], steps[i]) && states[i + 1] == Do(states[i], steps[i])
  }

  lemma {:induction false} RunInv<T>(states: seq<State<T>>, steps: seq<Step<T>>, n: nat)
    requires IsRun(states, steps) && n <= |steps|
    ensures Inv(states[n])
  {
    hide Inv, Enabled, Do;
    if n == 0 {
      InitInv(states[0]);
    } else {
      RunInv(states, steps, n - 1);
      assert states[n - 1 + 1] == Do(states[n - 1], steps[n - 1]);
      StepKeeps(states[n - 1], steps[n - 1]);
    }
  }

  /** In every interleaving: no step touches freed memory, and what was popped is the exchange order's prefix. The tail
      ends the chain that starts at the stub, a producer mid-push holds two neighbours of that chain, and a producer
      before its exchange holds a node outside it. */
  lemma RunSafe<T>(states: seq<State<T>>, steps: seq<Step<T>>, n: nat)
    requires IsRun(states, steps) && n <= |steps|
    ensures var s := states[n];
      && !s.faulted
      && |s.popped| <= |s.pushed| && (forall i :: 0 <= i < |s.popped| ==> s.popped[i] == s.pushed[i].1)
      && |s.chain| > 0 && s.chain[0] == s.head && s.chain[|s.chain| - 1] == s.tail
      && Distinct(s.chain) && (forall a :: a in s.chain ==> a in s.heap)
      && (forall pid :: pid in s.producers && s.producers[pid].Linking? ==>
            Adjacent(s, s.producers[pid].prev, s.producers[pid].node))
      && (forall pid :: pid in s.producers && s.producers[pid].Holding? ==>
            s.producers[pid].node in s.heap && s.producers[pid].node !in s.chain)
  {
    RunInv(states, steps, n);
    hide Enabled, Do, IsRun, LinksOk, Adjacent;
  }

  /** No pointer anywhere names the stub: not the tail, not the consumer, not a producer, not a node's link. */
  ghost predicate Unreferenced<T>(s: State<T>, a: Addr) {
    && s.tail != a && !(s.consumer.Taken? && s.consumer.next == a)
    && (forall pid :: pid in s.producers ==>
          match s.producers[pid]
          case Outside => true
          case Holding(node) => node != a
          case Linking(prev, node) => prev != a && node != a)
    && (forall b :: b in s.heap ==> s.heap[b].next != Some(a))
  }

  /** In every interleaving, when pop frees the stub, no pointer but its own names it. So every pointer kept past a free
      is to a node that was not freed, and an address handed out again never meets an old pointer to it. */
  lemma FreedIsUnreferenced<T>(states: seq<State<T>>, steps: seq<Step<T>>, n: nat)
    requires IsRun(states, steps) && n < |steps| && steps[n].PopFree?
    ensures Unreferenced(states[n], states[n].head)
  {
    RunInv(states, steps, n);
    assert Enabled(states[n], steps[n]);
    hide IsRun, Do, Enabled;
    StubUnreferenced(states[n]);
  }

  lemma StubUnreferenced<T>(s: State<T>)
    requires Inv(s) && s.consumer.Taken?
    ensures Unreferenced(s, s.head)
  {
    hide ItemsOk;
    var a := s.head;
    assert s.chain[1] == s.consumer.next && s.heap[a].next == Some(s.chain[1]);
    forall pid | pid in s.producers && s.producers[pid].Linking?
      ensures s.producers[pid].prev != a && s.producers[pid].node != a
    {
      LinkingPastStub(s, pid);
    }
    forall b | b in s.heap ensures s.heap[b].next != Some(a) {
      NoLinkToStub(s, b);
    }
  }

  /** The stub is linked on, so no producer still owes its link, and nothing precedes it. */
  lemma LinkingPastStub<T>(s: State<T>, pid: Pid)
    requires ChainOk(s) && ProducersOk(s) && pid in s.producers && s.producers[pid].Linking?
    requires s.heap[s.head].next != None
    ensures s.producers[pid].prev != s.head && s.producers[pid].node != s.head
  {
    assert Adjacent(s, s.producers[pid].prev, s.producers[pid].node);
  }

  lemma NoLinkToStub<T>(s: State<T>, b: Addr)
    requires ChainOk(s) && LinksOk(s) && ProducersOk(s) && NoLeak(s) && b in s.heap
    ensures s.heap[b].next != Some(s.head)
  {
    if b in s.chain {
      var i :| 0 <= i < |s.chain| && s.chain[i] == b;
      assert i + 1 < |s.chain| ==> LinkOk(s, i);
    } else {
      assert Private(s, b);
    }
  }

  /** Pop gets hold of an item exactly when one is published that was not popped and nobody still owes the stub's link.
      With no push mid-way, then, pop fails exactly when everything pushed has been popped. */
  lemma PopFindsNext<T>(states: seq<State<T>>, steps: seq<Step<T>>, n: nat)
    requires IsRun(states, steps) && n <= |steps| && states[n].consumer.Ready?
    ensures var s := states[n];
      Do(s, Step<T>.PopLoad).consumer.Loaded? <==>
        |s.popped| < |s.pushed|
        && forall pid :: pid in s.producers && s.producers[pid].Linking? ==> s.producers[pid].prev != s.head
  {
    RunInv(states, steps, n);
    hide Enabled, IsRun, NoLeak;
    var s := states[n];
    if |s.chain| > 1 {
      assert LinkOk(s, 0);
      if s.heap[s.head].next == None {
        var pid :| pid in s.producers && s.producers[pid] == Linking(s.chain[0], s.chain[1]);
        assert s.producers[pid].prev == s.head;
      }
    }
  }

  lemma EmptyMeansDrained<T>(states: seq<State<T>>, steps: seq<Step<T>>, n: nat)
    requires IsRun(states, steps) && n <= |steps| && states[n].consumer.Ready?
    requires forall pid :: pid in states[n].producers ==> !states[n].producers[pid].Linking?
    ensures Do(states[n], Step<T>.PopLoad).consumer.Loaded? <==> |states[n].popped| < |states[n].pushed|
  {
    hide Do, IsRun;
    PopFindsNext(states, steps, n);
  }

  // ---- Whole pops and whole pushes, with other threads' steps in between ----

  predicate IsPopStep<T>(step: Step<T>) { step.PopLoad? || step.PopTake? || step.PopFree? }

  /** Steps `a`, `b` and `c` are the three steps of one pop: no other pop step lies between them. */
  ghost predicate IsPop<T>(steps: seq<Step<T>>, a: nat, b: nat, c: nat) {
    && a < b < c < |steps| && steps[a].PopLoad? && steps[b].PopTake? && steps[c].PopFree?
    && forall i :: a < i < c && i != b ==> !IsPopStep(steps[i])
  }

  /** Producers leave the consumer and what it popped alone. */
  lemma {:induction false} ConsumerStays<T>(states: seq<State<T>>, steps: seq<Step<T>>, m: nat, n: nat)
    requires IsRun(states, steps) && m <= n <= |steps| && forall i :: m <= i < n ==> !IsPopStep(steps[i])
    ensures states[n].consumer == states[m].consumer && states[n].popped == states[m].popped
    decreases n
  {
    if m < n {
      ConsumerStays(states, steps, m, n - 1);
      assert states[n - 1 + 1] == Do(states[n - 1], steps[n - 1]);
      ProducerStep(states[n - 1], steps[n - 1]);
    }
  }

  lemma ProducerStep<T>(s: State<T>, step: Step<T>)
    requires Enabled(s, step) && !IsPopStep(step)
    ensures Do(s, step).consumer == s.consumer && Do(s, step).popped == s.popped
  {
  }

  /** What was pushed stays pushed, in its place. */
  lemma {:induction false} PushedGrows<T>(states: seq<State<T>>, steps: seq<Step<T>>, m: nat, n: nat)
    requires IsRun(states, steps) && m <= n <= |steps|
    ensures states[m].pushed <= states[n].pushed
    decreases n
  {
    if m < n {
      hide Do, Enabled;
      PushedGrows(states, steps, m, n - 1);
      assert states[n - 1 + 1] == Do(states[n - 1], steps[n - 1]);
      PushedStep(states[n - 1], steps[n - 1]);
    }
  }

  lemma PushedStep<T>(s: State<T>, step: Step<T>)
    requires Enabled(s, step)
    ensures s.pushed <= Do(s, step).pushed
  {
  }

  lemma TakeStep<T>(s: State<T>)
    requires Inv(s) && Enabled(s, Step<T>.PopTake)
    ensures var s' := Do(s, Step<T>.PopTake);
      && |s.popped| < |s.pushed| && s'.popped == s.popped + [s.pushed[|s.popped|].1] && s'.consumer.Taken?
  {
    hide LinksOk, ProducersOk, NoLeak;
  }

  lemma FreeStep<T>(s: State<T>)
    requires Inv(s) && Enabled(s, Step<T>.PopFree)
    ensures var s' := Do(s, Step<T>.PopFree); s'.popped == s.popped && s'.consumer.Ready?
  {
    hide LinksOk, ProducersOk, NoLeak, ItemsOk;
  }

  /** In every run a whole pop, whatever the producers do meanwhile, hands out the oldest item not yet popped. */
  lemma PopTakesOldest<T>(states: seq<State<T>>, steps: seq<Step<T>>, a: nat, b: nat, c: nat)
    requires IsRun(states, steps) && IsPop(steps, a, b, c)
    ensures var s := states[a];
      && |s.popped| < |s.pushed|
      && states[c + 1].popped == s.popped + [s.pushed[|s.popped|].1] && states[c + 1].consumer.Ready?
  {
    hide Do, Inv;
    assert states[a + 1] == Do(states[a], steps[a]) && Enabled(states[a], steps[a]);
    assert states[b + 1] == Do(states[b], steps[b]) && Enabled(states[b], steps[b]);
    assert states[c + 1] == Do(states[c], steps[c]) && Enabled(states[c], steps[c]);
    ConsumerStays(states, steps, a + 1, b);
    ConsumerStays(states, steps, b + 1, c);
    LoadStep(states[a]);
    RunInv(states, steps, a);
    RunInv(states, steps, b);
    RunInv(states, steps, c);
    TakeStep(states[b]);
    FreeStep(states[c]);
    PushedGrows(states, steps, a, b);
    LoadedHasItem(states[a]);
  }

  lemma LoadStep<T>(s: State<T>)
    requires Enabled(s, Step<T>.PopLoad)
    ensures Do(s, Step<T>.PopLoad).popped == s.popped
  {
  }

  lemma LoadedHasItem<T>(s: State<T>)
    requires Inv(s) && Enabled(s, Step<T>.PopLoad)
    ensures Do(s, Step<T>.PopLoad).consumer.Loaded? ==> |s.popped| < |s.pushed|
  {
    hide NoLeak;
    if |s.chain| == 1 {
      assert s.head == s.tail;
    }
  }

  /** A whole push publishes the producer's item: its exchange appends the item and its link makes the producer free. */
  lemma PushPublishes<T>(states: seq<State<T>>, steps: seq<Step<T>>, n: nat)
    requires IsRun(states, steps) && n < |steps|
    ensures steps[n].Allocate? ==>
      states[n + 1].pushed == states[n].pushed && InHand(states[n + 1], steps[n].pid) == [steps[n].item]
    ensures steps[n].Exchange? ==>
      && |InHand(states[n], steps[n].pid)| == 1
      && states[n + 1].pushed == states[n].pushed + [(steps[n].pid, InHand(states[n], steps[n].pid)[0])]
      && At(states[n + 1].producers, steps[n].pid).Linking?
    ensures steps[n].Link? ==>
      states[n + 1].pushed == states[n].pushed && At(states[n + 1].producers, steps[n].pid).Outside?
  {
    RunInv(states, steps, n);
    assert Enabled(states[n], steps[n]) && states[n + 1] == Do(states[n], steps[n]);
    hide IsRun, LinksOk, ItemsOk, NoLeak;
  }

  // ---- Per-producer order ----

  function By<T>(items: seq<(Pid, T)>, pid: Pid): seq<T> {
    if |items| == 0 then []
    else By(items[..|items| - 1], pid) + if items[|items| - 1].0 == pid then [items[|items| - 1].1] else []
  }

  lemma {:induction false} ByPrefix<T>(items: seq<(Pid, T)>, k: nat, pid: Pid)
    requires k <= |items|
    ensures By(items[..k], pid) <= By(items, pid)
  {
    if k == |items| {
      assert items[..k] == items;
    } else {
      ByPrefix(items[..|items| - 1], k, pid);
      assert items[..|items| - 1][..k] == items[..k];
    }
  }

  /** The items a producer called push with, in its own order. */
  function Issued<T>(steps: seq<Step<T>>, pid: Pid): seq<T> {
    if |steps| == 0 then []
    else Issued(steps[..|steps| - 1], pid) + IssuedBy(steps[|steps| - 1], pid)
  }

  function IssuedBy<T>(step: Step<T>, pid: Pid): seq<T> {
    if step.Allocate? && step.pid == pid then [step.item] else []
  }

  /** The item a producer has allocated and not yet published. */
  function InHand<T>(s: State<T>, pid: Pid): seq<T> {
    var p := At(s.producers, pid);
    if p.Holding? && p.node in s.heap && s.heap[p.node].value.Some? then [s.heap[p.node].value.value] else []
  }

  lemma HandKept<T>(s: State<T>, step: Step<T>, pid: Pid)
    requires Inv(s) && Enabled(s, step) && !step.Exchange?
    ensures Do(s, step).pushed == s.pushed && InHand(Do(s, step), pid) == InHand(s, pid) + IssuedBy(step, pid)
  {
    hide LinksOk, ItemsOk, NoLeak, Adjacent, Distinct;
  }

  lemma HandPublished<T>(s: State<T>, owner: Pid, pid: Pid)
    requires Inv(s) && Enabled(s, Step<T>.Exchange(owner))
    ensures var s' := Do(s, Step<T>.Exchange(owner));
      By(s'.pushed, pid) + InHand(s', pid) == By(s.pushed, pid) + InHand(s, pid)
  {
    hide LinksOk, ItemsOk, NoLeak, ChainOk, ConsumerOk, Adjacent;
    var s' := Do(s, Step<T>.Exchange(owner));
    assert s'.pushed[..|s'.pushed| - 1] == s.pushed;
    assert pid != owner ==> InHand(s', pid) == InHand(s, pid) && By(s'.pushed, pid) == By(s.pushed, pid);
  }

  lemma IssuedOnce<T>(s: State<T>, step: Step<T>, pid: Pid)
    requires Inv(s) && Enabled(s, step)
    ensures By(Do(s, step).pushed, pid) + InHand(Do(s, step), pid)
         == By(s.pushed, pid) + InHand(s, pid) + IssuedBy(step, pid)
  {
    hide Inv, Do, InHand, By;
    if step.Exchange? {
      HandPublished(s, step.pid, pid);
    } else {
      HandKept(s, step, pid);
    }
  }

  /** What a producer issued is what it published and the item in its hand, in order. */
  lemma {:induction false} PublishedInOrder<T>(states: seq<State<T>>, steps: seq<Step<T>>, n: nat, pid: Pid)
    requires IsRun(states, steps) && n <= |steps|
    ensures Issued(steps[..n], pid) == By(states[n].pushed, pid) + InHand(states[n], pid)
  {
    hide Inv, Enabled, Do, InHand, IssuedBy;
    if n == 0 {
      NothingInHand(states[0], pid);
    } else {
      PublishedInOrder(states, steps, n - 1, pid);
      RunInv(states, steps, n - 1);
      assert states[n - 1 + 1] == Do(states[n - 1], steps[n - 1]);
      IssuedOnce(states[n - 1], steps[n - 1], pid);
      assert steps[..n][..n - 1] == steps[..n - 1];
    }
  }

  lemma NothingInHand<T>(s: State<T>, pid: Pid)
    requires Init(s)
    ensures InHand(s, pid) == []
  {
  }

  /** In every run, each producer's items come out in the order it pushed them, none skipped. */
  lemma FifoPerProducer<T>(states: seq<State<T>>, steps: seq<Step<T>>, n: nat, pid: Pid)
    requires IsRun(states, steps) && n <= |steps|
    ensures var s := states[n];
      && |s.popped| <= |s.pushed|
      && (forall i :: 0 <= i < |s.popped| ==> s.popped[i] == s.pushed[i].1)
      && By(s.pushed[..|s.popped|], pid) <= Issued(steps[..n], pid)
  {
    hide Do, Enabled, By, Issued, InHand;
    RunSafe(states, steps, n);
    PublishedInOrder(states, steps, n, pid);
    ByPrefix(states[n].pushed, |states[n].popped|, pid);
  }

  // ---- The destructor ----

  /** Every link is in place once no producer is inside push. */
  lemma Linked<T>(s: State<T>, i: nat)
    requires Inv(s) && (forall pid :: pid in s.producers ==> s.producers[pid].Outside?) && i < |s.chain|
    ensures s.chain[i] in s.heap
    ensures s.heap[s.chain[i]].next == if i + 1 < |s.chain| then Some(s.chain[i + 1]) else None
  {
    if i + 1 < |s.chain| {
      assert LinkOk(s, i);
    }
  }

  lemma OnlyChain<T>(s: State<T>)
    requires Inv(s) && forall pid :: pid in s.producers ==> s.producers[pid].Outside?
    ensures |s.chain| > 0 && s.chain[0] == s.head && Distinct(s.chain)
    ensures forall a :: a in s.heap ==> a in s.chain
  {
    forall a | a in s.heap ensures a in s.chain {
      assert a in s.chain || Private(s, a);
    }
  }

  /** With no thread inside, following the links from the stub frees each node exactly once and leaks none. */
  method Destroy<T>(s: State<T>) returns (heap: map<Addr, Node<T>>)
    requires Inv(s) && forall pid :: pid in s.producers ==> s.producers[pid].Outside?
    ensures heap == map[]
  {
    hide Inv;
    OnlyChain(s);
    heap := s.heap;
    var node := Some(s.head);
    ghost var i := 0;
    assert s.chain[0..] == s.chain;
    while node.Some?
      invariant 0 <= i <= |s.chain|
      invariant node == if i < |s.chain| then Some(s.chain[i]) else None
      invariant heap == s.heap - (set a | a in s.chain[..i])
      decreases |s.chain| - i
    {
      Linked(s, i);
      var next := heap[node.value].next;
      heap := heap - {node.value};
      assert s.chain[..i + 1] == s.chain[..i] + [s.chain[i]];
      node := next;
      i := i + 1;
    }
    assert s.chain[..i] == s.chain;
  }
}
