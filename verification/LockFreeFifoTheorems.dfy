/** What linearizability and the invariant mean to a user of the lock-free queue. */
module LockFreeFifoTheorems {
  import opened Sequences
  import opened Pointers
  import opened FifoSpec
  import opened LockFreeFifo
  import opened LockFreeFifoProof
  import opened LockFreeFifoRefinement

  /** In every reachable state: the dummy is `live[0]`, the tail pointer is at the last or
      second-to-last live node and never behind the head, both lists are acyclic, and
      every node is in exactly one place - in the queue, in the pool, or with one thread. */
  lemma NodeOwnership<T(!new)>(ss: seq<State<T>>, ts: seq<Tid>, cs: seq<Choice<T>>, k: nat) returns (w: View)
    requires Run(ss, ts, cs) && k < |ss|
    ensures w.live != [] && Chain(ss[k].sh.heap, w.live) && Distinct(w.live)
    ensures Chain(ss[k].sh.heap, w.free) && Distinct(w.free) && ss[k].sh.pool.ptr == Nth(w.free, 0)
    ensures ss[k].sh.head.ptr == w.live[0]
    ensures ss[k].sh.tail.ptr == Last(w.live) || (|w.live| >= 2 && ss[k].sh.tail.ptr == w.live[|w.live| - 2])
    ensures forall n :: n in ss[k].sh.heap ==> n in w.live || n in w.free || Owned(ss[k], n)
    ensures forall n :: n in w.live ==> n !in w.free && !Owned(ss[k], n)
    ensures forall n :: n in w.free ==> !Owned(ss[k], n)
    ensures forall t, u :: t in ss[k].threads && u in ss[k].threads && t != u && Own(ss[k].threads[t]) != NULL
                           ==> Own(ss[k].threads[t]) != Own(ss[k].threads[u])
  {
    var xs := RunRefines(ss, ts, cs);
    w := xs[k].view;
    assert Good(ss[k], xs[k]);
    forall n | Owned(ss[k], n) && n != NULL ensures n !in w.live && n !in w.free {
      var t :| t in ss[k].threads && Own(ss[k].threads[t]) == n;
      assert LocalInv(ss[k].sh, w, ss[k].threads[t]);
    }
  }

  lemma StaleLink<T>(s: State<T>, x: Point<T>, t: Tid)
    requires Good(s, x) && t in s.threads && s.threads[t].EnqLink?
    ensures s.threads[t].tail.ptr in s.sh.heap
    ensures s.threads[t].tail.ptr != Last(x.view.live) ==>
              s.sh.heap[s.threads[t].tail.ptr].next != s.threads[t].next
    ensures s.threads[t].tail.ptr !in x.view.live ==>
              s.threads[t].next.tag < s.sh.heap[s.threads[t].tail.ptr].next.tag
  {
    assert LocalInv(s.sh, x.view, s.threads[t]);
  }

  /** In every run, a compare-and-swap that would link a node succeeds only on the true last
      node: on a node that has left the queue (and may have been recycled any number of
      times) it fails, because the tag there has grown. */
  lemma StaleLinkFails<T(!new)>(ss: seq<State<T>>, ts: seq<Tid>, cs: seq<Choice<T>>, k: nat, t: Tid) returns (w: View)
    requires Run(ss, ts, cs) && k < |ss| && t in ss[k].threads && ss[k].threads[t].EnqLink?
    ensures Inv(ss[k], w)
    ensures var l := ss[k].threads[t];
            && l.tail.ptr in ss[k].sh.heap
            && (l.tail.ptr != Last(w.live) ==> ss[k].sh.heap[l.tail.ptr].next != l.next)
            && (l.tail.ptr !in w.live ==> l.next.tag < ss[k].sh.heap[l.tail.ptr].next.tag)
  {
    hide Run;
    var x := RunGood(ss, ts, cs, k);
    w := x.view;
    StaleLink(ss[k], x, t);
  }

  /** In every run, a pool pop whose compare-and-swap succeeds installs the node's current
      successor, although the successor was read before. */
  lemma PoolPopTakesSuccessor<T(!new)>(ss: seq<State<T>>, ts: seq<Tid>, cs: seq<Choice<T>>, k: nat, t: Tid)
    returns (w: View)
    requires Run(ss, ts, cs) && k < |ss| && t in ss[k].threads
    requires ss[k].threads[t].AllocCas? && ss[k].sh.pool == ss[k].threads[t].pool
    ensures Inv(ss[k], w) && w.free != [] && ss[k].sh.pool.ptr == w.free[0] && w.free[0] in ss[k].sh.heap
    ensures ss[k].threads[t].succ == ss[k].sh.heap[w.free[0]].next.ptr == Nth(w.free, 1)
  {
    hide Run;
    var x := RunGood(ss, ts, cs, k);
    w := x.view;
    PoolPop(ss[k], x, t);
  }

  lemma PoolPop<T>(s: State<T>, x: Point<T>, t: Tid)
    requires Good(s, x) && t in s.threads && s.threads[t].AllocCas? && s.sh.pool == s.threads[t].pool
    ensures s.sh.pool.ptr in s.sh.heap && s.threads[t].succ == s.sh.heap[s.sh.pool.ptr].next.ptr
    ensures x.view.free != [] && s.sh.pool.ptr == x.view.free[0] && s.threads[t].succ == Nth(x.view.free, 1)
  {
    assert LocalInv(s.sh, x.view, s.threads[t]);
    assert |x.view.free| >= 2 ==> s.sh.heap[x.view.free[0]].next.ptr == x.view.free[1];
  }

  lemma TagsGrowInStep<T>(s: State<T>, w: View, t: Tid, c: Choice<T>, s': State<T>, n: Addr)
    requires Inv(s, w) && Next(s, t, c, s') && n in s.sh.heap
    ensures n in s'.sh.heap && s.sh.heap[n].next.tag <= s'.sh.heap[n].next.tag
  {
    InvSafe(s, w, t);
  }

  lemma RunGood<T(!new)>(ss: seq<State<T>>, ts: seq<Tid>, cs: seq<Choice<T>>, k: nat) returns (x: Point<T>)
    requires Run(ss, ts, cs) && k < |ss|
    ensures Good(ss[k], x)
  {
    var xs := RunRefines(ss, ts, cs);
    x := xs[k];
  }

  lemma TagsGrowAt<T(!new)>(ss: seq<State<T>>, ts: seq<Tid>, cs: seq<Choice<T>>, j: nat, n: Addr)
    requires Run(ss, ts, cs) && j < |ts| && n in ss[j].sh.heap
    ensures n in ss[j + 1].sh.heap && ss[j].sh.heap[n].next.tag <= ss[j + 1].sh.heap[n].next.tag
  {
    var x := RunGood(ss, ts, cs, j);
    assert Next(ss[j], ts[j], cs[j], ss[j + 1]);
    TagsGrowInStep(ss[j], x.view, ts[j], cs[j], ss[j + 1], n);
  }

  /** Node tags never decrease while the queue lives, whatever happens to the node. */
  lemma {:induction false} TagsGrow<T(!new)>(ss: seq<State<T>>, ts: seq<Tid>, cs: seq<Choice<T>>, i: nat, j: nat,
      n: Addr)
    requires Run(ss, ts, cs) && i <= j < |ss| && n in ss[i].sh.heap
    ensures n in ss[j].sh.heap && ss[i].sh.heap[n].next.tag <= ss[j].sh.heap[n].next.tag
    decreases j - i
  {
    if i < j {
      TagsGrow(ss, ts, cs, i, j - 1, n);
      TagsGrowAt(ss, ts, cs, j - 1, n);
    }
  }

  /** Each value is delivered once and in order: at every point of every run, the values
      whose dequeue has taken effect followed by the values in the live nodes are the
      values whose enqueue has taken effect. */
  lemma DeliveredInOrder<T(!new)>(ss: seq<State<T>>, ts: seq<Tid>, cs: seq<Choice<T>>, k: nat)
    returns (xs: seq<Point<T>>)
    requires Run(ss, ts, cs) && k < |ss|
    ensures forall i :: 0 <= i < |ts| ==> ts[i] in ss[i].threads
    ensures Linearizes(ss, ts, cs, xs)
    ensures Good(ss[k], xs[k])
    ensures xs[k].fifo.dequeued + Items(ss[k].sh.heap, xs[k].view.live) == xs[k].fifo.enqueued
  {
    xs := RunRefines(ss, ts, cs);
    FifoOrder(Abstract(xs), Trace(ss, ts, cs), k);
    assert Good(ss[k], xs[k]);
  }

  lemma PendingIsInDequeue<T>(s: State<T>, x: Point<T>, t: Tid)
    requires Good(s, x) && t in x.fifo.calls && x.fifo.calls[t].DeqPending?
    ensures t in s.threads && InDequeue(s.threads[t])
  {
    assert CallMatches(s.sh, s.threads[t], x.fifo.calls[t]);
  }

  lemma NoItemsNoNodes<T>(s: State<T>, x: Point<T>)
    requires Good(s, x) && x.fifo.items == []
    ensures Inv(s, x.view) && |x.view.live| == 1
  {
  }

  /** When dequeue reports an empty queue, the queue held no value at some state `i` of the
      run during that very call. */
  lemma EmptyReturnJustified<T(!new)>(ss: seq<State<T>>, ts: seq<Tid>, cs: seq<Choice<T>>, k: nat)
    returns (i: nat, w: View)
    requires Run(ss, ts, cs) && k < |ts| && ts[k] in ss[k].threads && ss[k].threads[ts[k]].DeqEmpty?
    ensures i <= k && Inv(ss[i], w) && |w.live| == 1
    ensures forall j :: i <= j <= k ==> ts[k] in ss[j].threads && InDequeue(ss[j].threads[ts[k]])
  {
    hide Inv, Represents, NoLeak, Init, Next, SpecRun, InDequeue;
    var xs := RunRefines(ss, ts, cs);
    var abs := Abstract(xs);
    assert Trace(ss, ts, cs)[k] == RetEmpty(ts[k]);
    i := EmptyAnswerIsTrue(abs, Trace(ss, ts, cs), k);
    w := xs[i].view;
    NoItemsNoNodes(ss[i], xs[i]);
    forall j | i <= j <= k ensures ts[k] in ss[j].threads && InDequeue(ss[j].threads[ts[k]]) {
      assert abs[j].calls[ts[k]].DeqPending?;
      PendingIsInDequeue(ss[j], xs[j], ts[k]);
    }
  }

  /** Inside a dequeue that has not taken effect. */
  predicate InDequeue<T>(l: Local<T>) { Dequeuing(l) || l.DeqEmpty? }

  /** The constructor: fill the pool with `n` fresh blocks, then take one for the dummy
      node.  Block contents and the tags of head and tail are whatever memory held. */
  method Construct<T>(n: nat, garbage: nat -> Node<T>, headTag: nat, tailTag: nat)
    returns (sh: Shared<T>, w: View)
    ensures |w.live| == 1 && |w.free| == (if n == 0 then 0 else n - 1)
    ensures Shape(sh, w) && sh.heap.Keys == (set a | a in w.live + w.free)
  {
    var heap: map<Addr, Node<T>>, pool := map[], Tagged(NULL, 0);
    for i := 0 to n
      invariant pool.ptr == i
      invariant forall a :: a in heap <==> 1 <= a <= i
      invariant forall a :: a in heap ==> heap[a].next.ptr == a - 1
    {
      heap := heap[i + 1 := Node(Tagged(pool.ptr, garbage(i + 1).next.tag), garbage(i + 1).data)];
      pool := Tagged(i + 1, pool.tag + 1);
    }
    var d: Addr := n;
    if pool.ptr != NULL {
      pool := Tagged(heap[d].next.ptr, pool.tag + 1);
    } else {
      d := 1;
      heap := heap[d := garbage(d)];
    }
    heap := heap[d := Node(Tagged(NULL, 0), heap[d].data)];
    w := View([d], seq(d - 1, i requires 0 <= i < d - 1 => d - 1 - i));
    sh := Shared(heap, Tagged(d, headTag), Tagged(d, tailTag), pool);
    Constructed(sh, d, w);
  }

  lemma Constructed<T>(sh: Shared<T>, d: Addr, w: View)
    requires d > 0 && w.live == [d] && |w.free| == d - 1 && forall i :: 0 <= i < d - 1 ==> w.free[i] == d - 1 - i
    requires sh.head.ptr == d && sh.tail.ptr == d && sh.pool.ptr == d - 1
    requires forall a :: a in sh.heap <==> 1 <= a <= d
    requires sh.heap[d].next.ptr == NULL && forall a :: 1 <= a < d ==> sh.heap[a].next.ptr == a - 1
    ensures Shape(sh, w) && sh.heap.Keys == (set a | a in w.live + w.free)
  {
    forall a | 1 <= a < d
      ensures a in w.free
    {
      assert w.free[d - 1 - a] == a;
    }
  }
}
