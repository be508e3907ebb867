/** The lock-free queue is lock-free: whatever the scheduler does, some call completes within
    a bounded number of steps, and a thread that runs alone completes its own. */
module LockFreeProgress {
  import opened Sequences
  import opened Pointers
  import opened Sums
  import opened FifoSpec
  import opened LockFreeFifo
  import opened LockFreeFifoProof
  import opened LockFreeFifoRefinement
  import opened LockFreeFifoTheorems

  /** A call returns. */
  predicate IsReturn<T>(e: Event<T>) { e.RetEnq? || e.RetDeq? || e.RetEmpty? }

  // ---------------------------------------------------------------- the measure

  /** How many more times a thread can change a shared pointer before its call returns; the
      tail swing that follows a link is counted with the link. */
  function Changes<T>(l: Local<T>): nat {
    match l
    case Idle => 3
    case AllocRead(_) | AllocNext(_, _) | AllocCas(_, _, _) => 3
    case EnqSwing(_, _) | EnqReturn | DeqEmpty | DeqReturn(_) => 0
    case FreeRead(_, _) | FreeLink(_, _, _) | FreeCas(_, _, _) => 1
    case _ => 2
  }

  /** What a thread has read of the shared pointers is still true, so that its next
      compare-and-swap will succeed. */
  predicate Current<T>(sh: Shared<T>, l: Local<T>) {
    match l
    case AllocNext(_, pool) => pool == sh.pool
    case AllocCas(_, pool, _) => pool == sh.pool
    case EnqNext(_, _, tail) => tail == sh.tail
    case EnqCheck(_, _, tail, next) => tail == sh.tail && tail.ptr in sh.heap && sh.heap[tail.ptr].next == next
    case EnqLink(_, _, tail, next) => tail.ptr in sh.heap && sh.heap[tail.ptr].next == next
    case EnqHelp(_, _, tail, _) => tail == sh.tail
    case DeqTail(head) => head == sh.head
    case DeqNext(head, tail) => head == sh.head && tail == sh.tail
    case DeqCheck(head, tail, _) => head == sh.head && tail == sh.tail
    case DeqHelp(tail, _) => tail == sh.tail
    case DeqData(head, _) => head == sh.head
    case DeqCas(_, head, _) => head == sh.head
    case FreeLink(_, _, pool) => pool == sh.pool
    case FreeCas(_, _, pool) => pool == sh.pool
    case _ => true
  }

  /** The steps left until the thread changes a shared pointer or returns, if nothing it has
      read is overtaken. */
  function Ahead<T>(l: Local<T>): nat {
    match l
    case Idle => 4
    case AllocRead(_) => 3
    case AllocNext(_, _) => 2
    case AllocCas(_, _, _) => 1
    case Construct(_, _) => 5
    case EnqTail(_, _) => 4
    case EnqNext(_, _, _) => 3
    case EnqCheck(_, _, _, _) => 2
    case EnqLink(_, _, _, _) => 1
    case EnqHelp(_, _, _, _) => 1
    case EnqSwing(_, _) => 2
    case EnqReturn => 1
    case DeqHead => 6
    case DeqTail(_) => 5
    case DeqNext(_, _) => 4
    case DeqCheck(_, _, _) => 3
    case DeqHelp(_, _) => 1
    case DeqData(_, _) => 2
    case DeqCas(_, _, _) => 1
    case DeqEmpty => 1
    case FreeRead(_, _) => 3
    case FreeLink(_, _, _) => 2
    case FreeCas(_, _, _) => 1
    case DeqReturn(_) => 1
  }

  /** The steps of one turn of the loop the thread is in. */
  function Turn<T>(l: Local<T>): nat {
    match l
    case AllocNext(_, _) | AllocCas(_, _, _) | FreeLink(_, _, _) | FreeCas(_, _, _) => 3
    case EnqNext(_, _, _) | EnqCheck(_, _, _, _) | EnqLink(_, _, _, _) | EnqHelp(_, _, _, _) => 4
    case _ => 6
  }

  /** A thread that has been overtaken goes round its loop once more. */
  function Distance<T>(sh: Shared<T>, l: Local<T>): nat {
    if Current(sh, l) then Ahead(l) else Ahead(l) + Turn(l)
  }

  const FARTHEST: nat := 11

  /** The weight of one change, for `n` threads: it outweighs all the rounds it can cost. */
  function Weight(n: nat): nat { FARTHEST * n + FARTHEST + 1 }

  function Weighted(changes: nat, k: nat): nat {
    if changes == 0 then 0 else if changes == 1 then k else if changes == 2 then k + k else k + k + k
  }

  function Left<T>(sh: Shared<T>, l: Local<T>, k: nat): nat { Weighted(Changes(l), k) + Distance(sh, l) }

  /** A tail swing is due. */
  predicate Due<T>(sh: Shared<T>) { sh.tail.ptr in sh.heap && sh.heap[sh.tail.ptr].next.ptr != NULL }

  function DueWeight<T>(sh: Shared<T>, k: nat): nat { if Due(sh) then k else 0 }

  ghost function LeftOf<T>(s: State<T>, k: nat): nat -> nat {
    t => if t in s.threads then Left(s.sh, s.threads[t], k) else 0
  }

  /** An upper bound on the steps until some call returns. */
  ghost function StepsLeft<T>(s: State<T>): nat {
    var k := Weight(|s.threads.Keys|);
    Sum(s.threads.Keys, LeftOf(s, k)) + DueWeight(s.sh, k)
  }

  /** The same for any state with `n` threads. */
  function Bound(n: nat): nat { (3 * Weight(n) + FARTHEST) * n + Weight(n) }

  // ---------------------------------------------------------------- one step

  /** The step changes a shared pointer. */
  predicate Succeeds<T>(sh: Shared<T>, l: Local<T>) {
    match l
    case AllocCas(_, pool, _) => sh.pool == pool
    case EnqLink(_, _, tail, next) => tail.ptr in sh.heap && sh.heap[tail.ptr].next == next
    case EnqHelp(_, _, tail, _) => sh.tail == tail
    case EnqSwing(_, tail) => sh.tail == tail
    case DeqHelp(tail, _) => sh.tail == tail
    case DeqCas(_, head, _) => sh.head == head
    case FreeCas(_, _, pool) => sh.pool == pool
    case _ => false
  }

  predicate Returning<T>(l: Local<T>) { l.EnqReturn? || l.DeqReturn? || l.DeqEmpty? }

  lemma WithinFarthest<T>(sh: Shared<T>, l: Local<T>)
    ensures Distance(sh, l) <= FARTHEST
  {
  }

  /** The last live node has no successor, every other one has. */
  lemma DueIsLagging<T>(sh: Shared<T>, w: View)
    requires Shape(sh, w)
    ensures Due(sh) <==> Lagging(sh, w.live)
    ensures sh.tail.ptr in w.live && sh.tail.ptr in sh.heap && sh.head.ptr in sh.heap
    ensures sh.heap[Last(w.live)].next.ptr == NULL
    ensures forall n :: n in w.live ==> n in sh.heap && n != NULL
  {
    var n := |w.live|;
    if Lagging(sh, w.live) {
      assert sh.heap[w.live[n - 2]].next.ptr == w.live[n - 1];
    } else {
      assert sh.tail.ptr == w.live[n - 1];
    }
  }

  /** A step that changes no shared pointer brings its thread nearer. */
  lemma QuietSelf<T>(sh: Shared<T>, w: View, l: Local<T>, c: Choice<T>)
    requires StepPre(sh, w, l, c) && !Succeeds(sh, l) && !Returning(l)
    ensures Safe(sh, l)
    ensures var l' := LocalStep(sh, l, c);
            || (Changes(l') == Changes(l) && Distance(ShStep(sh, l, c), l') < Distance(sh, l))
            || Changes(l') < Changes(l) <= 3
  {
    hide Chain, Distinct;
    ShapeLive(sh, w);
  }

  lemma ShapeLive<T>(sh: Shared<T>, w: View)
    requires Shape(sh, w)
    ensures w.live != [] && sh.tail.ptr in sh.heap && sh.head.ptr in sh.heap
  {
  }

  /** A step that changes no shared pointer overtakes nobody. */
  lemma QuietOther<T>(sh: Shared<T>, w: View, l: Local<T>, c: Choice<T>, o: Local<T>)
    requires StepPre(sh, w, l, c) && !Succeeds(sh, l) && LocalInv(sh, w, o)
    ensures Safe(sh, l) && Distance(ShStep(sh, l, c), o) <= Distance(sh, o)
  {
    hide Chain, Distinct;
    ShapeLive(sh, w);
    DueIsLagging(sh, w);
  }

  lemma QuietDue<T>(sh: Shared<T>, w: View, l: Local<T>, c: Choice<T>)
    requires StepPre(sh, w, l, c) && !Succeeds(sh, l)
    ensures Safe(sh, l) && Due(ShStep(sh, l, c)) == Due(sh)
  {
    hide Chain, Distinct;
    DueIsLagging(sh, w);
  }

  /** A change uses up one of the changes left. */
  lemma ChangeUsed<T>(sh: Shared<T>, w: View, l: Local<T>, c: Choice<T>, k: nat)
    requires StepPre(sh, w, l, c) && Succeeds(sh, l)
    ensures Safe(sh, l)
    ensures Weighted(Changes(LocalStep(sh, l, c)), k) + DueWeight(ShStep(sh, l, c), k) + k
            <= Weighted(Changes(l), k) + DueWeight(sh, k)
  {
    DueIsLagging(sh, w);
    ShapeKept(sh, w, l, c);
    DueIsLagging(ShStep(sh, l, c), ViewStep(sh, w, l));
  }

  lemma WeightedDrops(a: nat, b: nat, k: nat)
    requires a < b <= 3
    ensures Weighted(a, k) + k <= Weighted(b, k)
  {
  }

  /** The thread's own share of a step that changes no shared pointer. */
  lemma QuietLeft<T>(sh: Shared<T>, w: View, l: Local<T>, c: Choice<T>, k: nat)
    requires StepPre(sh, w, l, c) && !Succeeds(sh, l) && !Returning(l) && k > FARTHEST
    ensures Safe(sh, l) && Left(ShStep(sh, l, c), LocalStep(sh, l, c), k) < Left(sh, l, k)
  {
    hide Changes, Distance, Weighted, StepPre, Succeeds, Safe, ShStep, LocalStep;
    QuietSelf(sh, w, l, c);
    var sh', l' := ShStep(sh, l, c), LocalStep(sh, l, c);
    WithinFarthest(sh', l');
    if Changes(l') < Changes(l) {
      WeightedDrops(Changes(l'), Changes(l), k);
    }
  }

  lemma ThreadReady<T>(s: State<T>, w: View, t: Tid, c: Choice<T>)
    requires Inv(s, w) && Enabled(s, t, c)
    ensures Safe(s.sh, s.threads[t]) && StepPre(s.sh, w, s.threads[t], c)
  {
    InvSafe(s, w, t);
    assert LocalInv(s.sh, w, s.threads[t]);
  }

  lemma OthersLeft<T>(s: State<T>, w: View, t: Tid, c: Choice<T>, s': State<T>, u: Tid, k: nat)
    requires Inv(s, w) && Next(s, t, c, s') && Safe(s.sh, s.threads[t]) && u in s.threads && u != t
    ensures LeftOf(s', k)(u) <= LeftOf(s, k)(u) + FARTHEST
    ensures !Succeeds(s.sh, s.threads[t]) ==> LeftOf(s', k)(u) <= LeftOf(s, k)(u)
  {
    hide Changes, Distance, Weighted, Succeeds, ShStep, LocalStep, Chain, Distinct;
    ThreadReady(s, w, t, c);
    assert LocalInv(s.sh, w, s.threads[u]);
    WithinFarthest(s'.sh, s.threads[u]);
    if !Succeeds(s.sh, s.threads[t]) {
      QuietOther(s.sh, w, s.threads[t], c, s.threads[u]);
    }
  }

  /** Every step that is not a return uses up some of the steps left. */
  lemma StepsDrop<T>(s: State<T>, w: View, t: Tid, c: Choice<T>, s': State<T>)
    requires Inv(s, w) && Next(s, t, c, s') && !Returning(s.threads[t])
    ensures s'.threads.Keys == s.threads.Keys && StepsLeft(s') < StepsLeft(s)
  {
    hide Inv, Sum, Left, Succeeds, ShStep, LocalStep, DueWeight;
    ThreadReady(s, w, t, c);
    var keys, l := s.threads.Keys, s.threads[t];
    assert s'.threads.Keys == keys;
    var k := Weight(|keys|);
    var f, f' := LeftOf(s, k), LeftOf(s', k);
    if Succeeds(s.sh, l) {
      forall u | u in keys && u != t
        ensures f'(u) <= f(u) + FARTHEST
      {
        OthersLeft(s, w, t, c, s', u, k);
      }
      SumStep(keys, f, f', t, FARTHEST);
      ChangeLeft(s.sh, w, l, c, k);
    } else {
      forall u | u in keys && u != t
        ensures f'(u) <= f(u) + 0
      {
        OthersLeft(s, w, t, c, s', u, k);
      }
      SumStep(keys, f, f', t, 0);
      QuietLeft(s.sh, w, l, c, k);
      DueKept(s.sh, w, l, c, k);
    }
  }

  lemma DueKept<T>(sh: Shared<T>, w: View, l: Local<T>, c: Choice<T>, k: nat)
    requires StepPre(sh, w, l, c) && !Succeeds(sh, l)
    ensures Safe(sh, l) && DueWeight(ShStep(sh, l, c), k) == DueWeight(sh, k)
  {
    hide StepPre, Succeeds, Due, ShStep;
    QuietDue(sh, w, l, c);
  }

  lemma ChangeLeft<T>(sh: Shared<T>, w: View, l: Local<T>, c: Choice<T>, k: nat)
    requires StepPre(sh, w, l, c) && Succeeds(sh, l)
    ensures Safe(sh, l)
    ensures Left(ShStep(sh, l, c), LocalStep(sh, l, c), k) + DueWeight(ShStep(sh, l, c), k) + k
            <= Left(sh, l, k) + DueWeight(sh, k) + FARTHEST
  {
    hide StepPre, Succeeds, Changes, Weighted, Distance, DueWeight, ShStep, LocalStep, Safe;
    ChangeUsed(sh, w, l, c, k);
    WithinFarthest(ShStep(sh, l, c), LocalStep(sh, l, c));
  }

  lemma LeftBound<T>(sh: Shared<T>, l: Local<T>, k: nat)
    ensures Left(sh, l, k) <= 3 * k + FARTHEST
  {
    WithinFarthest(sh, l);
  }

  lemma StepsBound<T>(s: State<T>)
    ensures StepsLeft(s) <= Bound(|s.threads.Keys|)
  {
    hide Sum, Left;
    var k := Weight(|s.threads.Keys|);
    forall t | t in s.threads.Keys
      ensures LeftOf(s, k)(t) <= 3 * k + FARTHEST
    {
      LeftBound(s.sh, s.threads[t], k);
    }
    SumBound(s.threads.Keys, LeftOf(s, k), 3 * k + FARTHEST);
  }

  // ---------------------------------------------------------------- runs

  lemma ReturningReturns<T>(l: Local<T>, t: Tid, c: Choice<T>)
    ensures Returning(l) <==> IsReturn(EventOf(l, t, c))
  {
  }

  /** No call returns in the steps from `i` to `j`. */
  ghost predicate NoReturn<T>(ss: seq<State<T>>, ts: seq<Tid>, cs: seq<Choice<T>>, i: nat, j: nat)
    requires i <= j <= |ts| == |cs| && |ss| == |ts| + 1
  {
    forall k :: i <= k < j ==> ts[k] in ss[k].threads && !IsReturn(EventOf(ss[k].threads[ts[k]], ts[k], cs[k]))
  }

  lemma StepUsed<T(!new)>(ss: seq<State<T>>, ts: seq<Tid>, cs: seq<Choice<T>>, i: nat)
    requires Run(ss, ts, cs) && i < |ts| && NoReturn(ss, ts, cs, i, i + 1)
    ensures ss[i + 1].threads.Keys == ss[i].threads.Keys && StepsLeft(ss[i + 1]) < StepsLeft(ss[i])
  {
    hide StepsLeft, EventOf, IsReturn, Returning, Good, Inv;
    var x := RunGood(ss, ts, cs, i);
    assert Next(ss[i], ts[i], cs[i], ss[i + 1]);
    ReturningReturns(ss[i].threads[ts[i]], ts[i], cs[i]);
    GoodInv(ss[i], x);
    StepsDrop(ss[i], x.view, ts[i], cs[i], ss[i + 1]);
  }

  lemma GoodInv<T>(s: State<T>, x: Point<T>)
    requires Good(s, x)
    ensures Inv(s, x.view)
  {
  }

  lemma {:induction false} StepsUsed<T(!new)>(ss: seq<State<T>>, ts: seq<Tid>, cs: seq<Choice<T>>, i: nat, j: nat)
    requires Run(ss, ts, cs) && i <= j <= |ts| && NoReturn(ss, ts, cs, i, j)
    ensures ss[j].threads.Keys == ss[i].threads.Keys && StepsLeft(ss[j]) + (j - i) <= StepsLeft(ss[i])
    decreases j - i
  {
    hide StepsLeft, EventOf, IsReturn, Init, Next;
    if i < j {
      StepsUsed(ss, ts, cs, i, j - 1);
      StepUsed(ss, ts, cs, j - 1);
    }
  }

  /** Lock-freedom: in every run of `n` threads, among any Bound(n) + 1 steps in a row at
      least one is the return of a call, whichever threads take them. */
  lemma LockFreedom<T(!new)>(ss: seq<State<T>>, ts: seq<Tid>, cs: seq<Choice<T>>, i: nat) returns (k: nat)
    requires Run(ss, ts, cs) && i < |ss| && i + Bound(|ss[i].threads.Keys|) < |ts|
    ensures i <= k <= i + Bound(|ss[i].threads.Keys|)
    ensures ts[k] in ss[k].threads && IsReturn(EventOf(ss[k].threads[ts[k]], ts[k], cs[k]))
  {
    hide StepsLeft, EventOf, IsReturn, Bound;
    RunEnabled(ss, ts, cs);
    var j := i + Bound(|ss[i].threads.Keys|) + 1;
    if NoReturn(ss, ts, cs, i, j) {
      StepsUsed(ss, ts, cs, i, j);
      StepsBound(ss[i]);
      assert false;
    }
    k :| i <= k < j && IsReturn(EventOf(ss[k].threads[ts[k]], ts[k], cs[k]));
  }

  /** A thread is never blocked: at every point of every run each thread can take a step. */
  lemma NeverBlocked<T(!new)>(s: State<T>, t: Tid, v: T) returns (c: Choice<T>)
    requires t in s.threads
    ensures Enabled(s, t, c)
  {
    match s.threads[t] {
      case Idle => c := Enqueue(v);
      case AllocRead(_) =>
        if s.sh.pool.ptr == NULL {
          var n := Unused(s.sh.heap.Keys);
          c := Fresh(n, Node(Tagged(NULL, 0), v));
        } else {
          c := Go;
        }
      case _ => c := Go;
    }
  }

  // ---------------------------------------------------------------- a thread alone

  /** Only thread `t` takes steps from `i` up to and including `k`. */
  ghost predicate Alone(ts: seq<Tid>, t: Tid, i: nat, k: nat)
    requires k < |ts|
  {
    forall j :: i <= j <= k ==> ts[j] == t
  }

  /** From every state of every run, a thread that runs alone returns from its call within a
      fixed number of steps, wherever the others have stopped. */
  lemma AloneReturns<T(!new)>(ss: seq<State<T>>, ts: seq<Tid>, cs: seq<Choice<T>>, i: nat, t: Tid) returns (k: nat)
    requires Run(ss, ts, cs) && i < |ss| && i + Bound(|ss[i].threads.Keys|) < |ts|
    requires Alone(ts, t, i, i + Bound(|ss[i].threads.Keys|))
    ensures i <= k <= i + Bound(|ss[i].threads.Keys|) && ts[k] == t
    ensures t in ss[k].threads && IsReturn(EventOf(ss[k].threads[t], t, cs[k]))
  {
    hide Run, Bound, EventOf, IsReturn;
    k := LockFreedom(ss, ts, cs, i);
  }

  /** What the call of a thread alone has done to the queue, which held `items` before. */
  ghost predicate Doing<T>(a: Fifo<T>, t: Tid, c: Choice<T>, items: seq<T>) {
    t in a.calls &&
    match a.calls[t]
    case EnqPending(v) => c == Enqueue(v) && a.items == items
    case EnqDone => c.Enqueue? && a.items == items + [c.v]
    case DeqPending(sawEmpty) => c.Dequeue? && a.items == items && (sawEmpty ==> items == [])
    case DeqDone(v) => c.Dequeue? && items != [] && v == items[0] && a.items == items[1..]
    case _ => false
  }

  lemma DoingStarts<T>(s: State<T>, w: View, a: Fifo<T>, t: Tid, c: Choice<T>)
    requires Represents(s, w, a) && Enabled(s, t, c) && s.threads[t].Idle?
    ensures t in a.calls && Safe(s.sh, s.threads[t]) && Doing(AbsStep(s, a, t, c), t, c, a.items)
  {
  }

  lemma DoingKept<T>(s: State<T>, w: View, a: Fifo<T>, t: Tid, c: Choice<T>, call: Choice<T>, items: seq<T>)
    requires Represents(s, w, a) && t in s.threads && Doing(a, t, call, items) && !Returning(s.threads[t])
    ensures Safe(s.sh, s.threads[t]) && t in a.calls && Doing(AbsStep(s, a, t, c), t, call, items)
  {
    hide Items, Marked, Chain, Distinct;
    InvSafe(s, w, t);
    assert CallMatches(s.sh, s.threads[t], a.calls[t]);
  }

  /** The queue in state `s` holds these values. */
  ghost predicate Holds<T>(s: State<T>, items: seq<T>) {
    exists w :: Inv(s, w) && Items(s.sh.heap, w.live) == items
  }

  lemma RepresentsHolds<T>(s: State<T>, w: View, a: Fifo<T>)
    requires Represents(s, w, a)
    ensures Holds(s, a.items)
  {
  }

  /** Thread `t` alone has made the call `c` at step `i` and is still inside it at state `j`. */
  lemma {:induction false} AloneSoFar<T(!new)>(ss: seq<State<T>>, ts: seq<Tid>, cs: seq<Choice<T>>, i: nat, j: nat,
      t: Tid)
    returns (items: seq<T>, w: View, a: Fifo<T>)
    requires Run(ss, ts, cs) && i < j < |ss| && Alone(ts, t, i, j - 1) && t in ss[i].threads && ss[i].threads[t].Idle?
    requires NoReturn(ss, ts, cs, i, j)
    ensures Holds(ss[i], items) && Represents(ss[j], w, a) && Doing(a, t, cs[i], items)
    decreases j
  {
    hide Items, Init, EventOf, IsReturn, AbsStep, Doing, Inv, SpecStep, CallMatches, Marked, Returning;
    assert Next(ss[j - 1], ts[j - 1], cs[j - 1], ss[j - 1 + 1]);
    var w0, a0;
    if j == i + 1 {
      var x := RunGood(ss, ts, cs, i);
      w0, a0 := x.view, x.fifo;
      items := a0.items;
      RepresentsHolds(ss[i], w0, a0);
      DoingStarts(ss[i], w0, a0, t, cs[i]);
    } else {
      items, w0, a0 := AloneSoFar(ss, ts, cs, i, j - 1, t);
      ReturningReturns(ss[j - 1].threads[t], t, cs[j - 1]);
      DoingKept(ss[j - 1], w0, a0, t, cs[j - 1], cs[i], items);
    }
    StepRefines(ss[j - 1], w0, a0, t, cs[j - 1], ss[j]);
    w, a := ViewStep(ss[j - 1].sh, w0, ss[j - 1].threads[t]), AbsStep(ss[j - 1], a0, t, cs[j - 1]);
  }

  /** Running alone, an enqueue appends its value, and a dequeue returns and removes the first
      value if there is one, and otherwise returns "empty". */
  lemma AloneResult<T(!new)>(ss: seq<State<T>>, ts: seq<Tid>, cs: seq<Choice<T>>, i: nat, k: nat, t: Tid)
    returns (items: seq<T>)
    requires Run(ss, ts, cs) && i < k < |ts| && Alone(ts, t, i, k) && t in ss[i].threads && ss[i].threads[t].Idle?
    requires NoReturn(ss, ts, cs, i, k) && t in ss[k].threads && IsReturn(EventOf(ss[k].threads[t], t, cs[k]))
    ensures Holds(ss[i], items)
    ensures EventOf(ss[k].threads[t], t, cs[k])
            == if cs[i].Enqueue? then RetEnq(t) else if items == [] then RetEmpty(t) else RetDeq(t, items[0])
    ensures Holds(ss[k], if cs[i].Enqueue? then items + [cs[i].v] else if items == [] then [] else items[1..])
  {
    hide Items, Init, Inv, Marked, Next;
    var w, a;
    items, w, a := AloneSoFar(ss, ts, cs, i, k, t);
    assert CallMatches(ss[k].sh, ss[k].threads[t], a.calls[t]);
    RepresentsHolds(ss[k], w, a);
  }
}
