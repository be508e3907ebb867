/** Every interleaving of the lock-free queue behaves as one atomic FIFO queue. */
module LockFreeFifoRefinement {
  import opened Sequences
  import opened Pointers
  import opened FifoSpec
  import opened LockFreeFifo
  import opened LockFreeFifoProof

  /** The values queued: the data of every live node but the dummy. */
  ghost function Items<T>(heap: map<Addr, Node<T>>, live: seq<Addr>): seq<T>
    requires live != [] && Chain(heap, live)
  {
    seq(|live| - 1, i requires 0 <= i < |live| - 1 => heap[live[i + 1]].data)
  }

  /** How far the call of a thread at `l` has come. */
  predicate CallMatches<T(==)>(sh: Shared<T>, l: Local<T>, call: Call<T>) {
    match l
    case Idle => call.NoCall?
    case AllocRead(v) => call == EnqPending(v)
    case AllocNext(v, _) => call == EnqPending(v)
    case AllocCas(v, _, _) => call == EnqPending(v)
    case Construct(v, _) => call == EnqPending(v)
    case EnqTail(v, _) => call == EnqPending(v)
    case EnqNext(v, _, _) => call == EnqPending(v)
    case EnqCheck(v, _, _, _) => call == EnqPending(v)
    case EnqLink(v, _, _, _) => call == EnqPending(v)
    case EnqHelp(v, _, _, _) => call == EnqPending(v)
    case EnqSwing(_, _) => call.EnqDone?
    case EnqReturn => call.EnqDone?
    case DeqCheck(head, _, succ) => call.DeqPending? && (head == sh.head && succ == NULL ==> call.sawEmpty)
    case DeqEmpty => call == DeqPending(true)
    case FreeRead(v, _) => call == DeqDone(v)
    case FreeLink(v, _, _) => call == DeqDone(v)
    case FreeCas(v, _, _) => call == DeqDone(v)
    case DeqReturn(v) => call == DeqDone(v)
    case _ => call.DeqPending?
  }

  ghost predicate Represents<T>(s: State<T>, w: View, a: Fifo<T>) {
    && Inv(s, w)
    && a.calls.Keys == s.threads.Keys
    && a.items == Items(s.sh.heap, w.live)
    && (forall t :: t in s.threads ==> CallMatches(s.sh, s.threads[t], a.calls[t]))
    && Marked(a)
  }

  /** What the FIFO object does in a step: the enqueue takes effect when the node is
      linked, the dequeue when the head is moved, and every other step is invisible. */
  function AbsStep<T(==)>(s: State<T>, a: Fifo<T>, t: Tid, c: Choice<T>): Fifo<T>
    requires t in s.threads && t in a.calls && Safe(s.sh, s.threads[t])
  {
    match s.threads[t]
    case Idle =>
      a.(calls := a.calls[t := if c.Enqueue? then EnqPending(c.v) else DeqPending(a.items == [])])
    case EnqReturn => a.(calls := a.calls[t := NoCall])
    case DeqReturn(_) => a.(calls := a.calls[t := NoCall])
    case DeqEmpty => a.(calls := a.calls[t := NoCall])
    case EnqLink(_, _, tail, next) =>
      if s.sh.heap[tail.ptr].next == next && a.calls[t].EnqPending? then CommitEnq(a, t) else a
    case DeqCas(_, head, _) =>
      if s.sh.head == head && a.calls[t].DeqPending? && a.items != [] then CommitDeq(a, t) else a
    case _ => a
  }

  lemma ItemsKept<T>(s: State<T>, w: View, a: Fifo<T>, t: Tid, c: Choice<T>, s': State<T>)
    requires Represents(s, w, a) && Next(s, t, c, s') && Safe(s.sh, s.threads[t])
    requires Shape(s'.sh, ViewStep(s.sh, w, s.threads[t]))
    ensures AbsStep(s, a, t, c).items == Items(s'.sh.heap, ViewStep(s.sh, w, s.threads[t]).live)
  {
    assert LocalInv(s.sh, w, s.threads[t]) && CallMatches(s.sh, s.threads[t], a.calls[t]);
  }

  /** What a thread sees that reads the successor of a dummy which is still in place. */
  lemma NoSuccessorNoItems<T>(s: State<T>, w: View, a: Fifo<T>)
    requires Represents(s, w, a)
    ensures s.sh.head.ptr in s.sh.heap && (s.sh.heap[s.sh.head.ptr].next.ptr == NULL ==> a.items == [])
  {
    assert |w.live| >= 2 ==> s.sh.heap[w.live[0]].next.ptr == w.live[1];
  }

  /** What a thread that looks at the head sees of the queue. */
  ghost predicate SeesQueue<T>(sh: Shared<T>, l: Local<T>, a: Fifo<T>) {
    && (l.DeqNext? && l.head == sh.head && l.head.ptr in sh.heap && sh.heap[l.head.ptr].next.ptr == NULL ==>
        a.items == [])
    && (l.DeqCas? && l.head == sh.head ==> a.items != [] && a.items[0] == l.v)
  }

  lemma ThreadSees<T>(s: State<T>, w: View, a: Fifo<T>, t: Tid)
    requires Represents(s, w, a) && t in s.threads
    ensures SeesQueue(s.sh, s.threads[t], a) && CallMatches(s.sh, s.threads[t], a.calls[t])
  {
    hide CallMatches, Marked, Distinct;
    assert LocalInv(s.sh, w, s.threads[t]);
    NoSuccessorNoItems(s, w, a);
  }

  lemma CallFollows<T>(s: State<T>, a: Fifo<T>, t: Tid, c: Choice<T>, s': State<T>)
    requires Next(s, t, c, s') && Safe(s.sh, s.threads[t]) && t in a.calls && Marked(a)
    requires SeesQueue(s.sh, s.threads[t], a) && CallMatches(s.sh, s.threads[t], a.calls[t])
    ensures var a' := AbsStep(s, a, t, c); t in a'.calls && CallMatches(s'.sh, s'.threads[t], a'.calls[t])
  {
  }

  lemma SelfCallKept<T>(s: State<T>, w: View, a: Fifo<T>, t: Tid, c: Choice<T>, s': State<T>)
    requires Represents(s, w, a) && Next(s, t, c, s') && Safe(s.sh, s.threads[t])
    ensures var a' := AbsStep(s, a, t, c); t in a'.calls && CallMatches(s'.sh, s'.threads[t], a'.calls[t])
  {
    hide Inv, Items, Marked, CallMatches, SeesQueue, AbsStep, Safe, ShStep, LocalStep;
    ThreadSees(s, w, a, t);
    CallFollows(s, a, t, c, s');
  }

  lemma HeadTag<T>(s: State<T>, t: Tid, c: Choice<T>, s': State<T>)
    requires Next(s, t, c, s') && Safe(s.sh, s.threads[t])
    ensures s'.sh.head == s.sh.head || s'.sh.head.tag == s.sh.head.tag + 1
  {
  }

  lemma OtherCallKept<T>(s: State<T>, w: View, a: Fifo<T>, t: Tid, c: Choice<T>, s': State<T>, u: Tid)
    requires Represents(s, w, a) && Next(s, t, c, s') && Safe(s.sh, s.threads[t]) && u in s.threads && u != t
    ensures var a' := AbsStep(s, a, t, c); u in a'.calls && CallMatches(s'.sh, s'.threads[u], a'.calls[u])
  {
    hide Chain, Distinct, ShStep, LocalStep;
    assert LocalInv(s.sh, w, s.threads[u]) && CallMatches(s.sh, s.threads[u], a.calls[u]);
    HeadTag(s, t, c, s');
  }

  lemma MarkKept<T>(s: State<T>, w: View, a: Fifo<T>, t: Tid, c: Choice<T>, s': State<T>)
    requires Represents(s, w, a) && Next(s, t, c, s') && Safe(s.sh, s.threads[t])
    ensures Marked(AbsStep(s, a, t, c)) && AbsStep(s, a, t, c).calls.Keys == s'.threads.Keys
  {
    hide Inv, Items, CallMatches, ShStep, LocalStep;
  }

  /** The step of the FIFO object is one it may take. */
  lemma SpecAllows<T>(s: State<T>, w: View, a: Fifo<T>, t: Tid, c: Choice<T>, s': State<T>)
    requires Represents(s, w, a) && Next(s, t, c, s') && Safe(s.sh, s.threads[t])
    ensures SpecStep(a, EventOf(s.threads[t], t, c), AbsStep(s, a, t, c))
  {
    assert LocalInv(s.sh, w, s.threads[t]) && CallMatches(s.sh, s.threads[t], a.calls[t]);
  }

  /** Simulation: each step of the real queue is matched by a step of the FIFO object
      with the same call or return. */
  lemma StepRefines<T>(s: State<T>, w: View, a: Fifo<T>, t: Tid, c: Choice<T>, s': State<T>)
    requires Represents(s, w, a) && Next(s, t, c, s')
    ensures Safe(s.sh, s.threads[t])
    ensures Represents(s', ViewStep(s.sh, w, s.threads[t]), AbsStep(s, a, t, c))
    ensures SpecStep(a, EventOf(s.threads[t], t, c), AbsStep(s, a, t, c))
  {
    hide Inv, Marked, CallMatches, AbsStep, SpecStep, EventOf, Items, ViewStep, Safe;
    InvKept(s, w, t, c, s');
    ItemsKept(s, w, a, t, c, s');
    SelfCallKept(s, w, a, t, c, s');
    MarkKept(s, w, a, t, c, s');
    forall u | u in s.threads && u != t
      ensures u in AbsStep(s, a, t, c).calls && CallMatches(s'.sh, s'.threads[u], AbsStep(s, a, t, c).calls[u])
    {
      OtherCallKept(s, w, a, t, c, s', u);
    }
    SpecAllows(s, w, a, t, c, s');
  }

  /** A freshly constructed queue that no thread is using yet. */
  ghost predicate Init<T>(s: State<T>) {
    && (exists w: View :: |w.live| == 1 && Shape(s.sh, w) && s.sh.heap.Keys == (set n | n in w.live + w.free))
    && forall t :: t in s.threads ==> s.threads[t].Idle?
  }

  /** A run: in step `i` thread `ts[i]` moves from `ss[i]` to `ss[i + 1]`. */
  ghost predicate Run<T>(ss: seq<State<T>>, ts: seq<Tid>, cs: seq<Choice<T>>) {
    && |ss| == |ts| + 1 == |cs| + 1
    && Init(ss[0])
    && forall i :: 0 <= i < |ts| ==> Next(ss[i], ts[i], cs[i], ss[i + 1])
  }

  /** The calls and returns seen from outside during a run. */
  ghost function Trace<T>(ss: seq<State<T>>, ts: seq<Tid>, cs: seq<Choice<T>>): seq<Event<T>>
    requires |ss| == |ts| + 1 == |cs| + 1
    requires forall i :: 0 <= i < |ts| ==> ts[i] in ss[i].threads
  {
    seq(|ts|, i requires 0 <= i < |ts| => EventOf(ss[i].threads[ts[i]], ts[i], cs[i]))
  }

  lemma RunEnabled<T>(ss: seq<State<T>>, ts: seq<Tid>, cs: seq<Choice<T>>)
    requires Run(ss, ts, cs)
    ensures forall i :: 0 <= i < |ts| ==> ts[i] in ss[i].threads
  {
    forall i | 0 <= i < |ts| ensures ts[i] in ss[i].threads {
      assert Next(ss[i], ts[i], cs[i], ss[i + 1]);
    }
  }

  lemma InitRepresents<T>(s: State<T>) returns (a: Fifo<T>, w: View)
    requires Init(s)
    ensures Represents(s, w, a) && NoLeak(s, w) && SpecInit(a)
  {
    w :| |w.live| == 1 && Shape(s.sh, w) && s.sh.heap.Keys == (set n | n in w.live + w.free);
    a := Fifo([], map t | t in s.threads :: NoCall, [], []);
  }

  /** A state of the FIFO object together with the lists of the real queue. */
  datatype Point<T> = Point(fifo: Fifo<T>, view: View)

  ghost predicate Good<T>(s: State<T>, x: Point<T>) {
    Represents(s, x.view, x.fifo) && NoLeak(s, x.view)
  }

  function Advance<T(==)>(s: State<T>, x: Point<T>, t: Tid, c: Choice<T>): Point<T>
  {
    if t in s.threads && t in x.fifo.calls && Safe(s.sh, s.threads[t])
    then Point(AbsStep(s, x.fifo, t, c), ViewStep(s.sh, x.view, s.threads[t])) else x
  }

  lemma AdvanceGood<T>(s: State<T>, x: Point<T>, t: Tid, c: Choice<T>, s': State<T>)
    requires Good(s, x) && Next(s, t, c, s')
    ensures Good(s', Advance(s, x, t, c))
    ensures SpecStep(x.fifo, EventOf(s.threads[t], t, c), Advance(s, x, t, c).fifo)
  {
    NoLeakKept(s, x.view, t, c, s');
    StepRefines(s, x.view, x.fifo, t, c, s');
  }

  /** The run `abs` of the FIFO object has the same calls and returns as the run `ss`, and
      each real state represents the abstract one at the same point. */
  ghost predicate Linearizes<T>(ss: seq<State<T>>, ts: seq<Tid>, cs: seq<Choice<T>>, xs: seq<Point<T>>)
    requires |ss| == |ts| + 1 == |cs| + 1
    requires forall i :: 0 <= i < |ts| ==> ts[i] in ss[i].threads
  {
    && |xs| == |ss|
    && (forall i :: 0 <= i < |ss| ==> Good(ss[i], xs[i]))
    && SpecRun(Abstract(xs), Trace(ss, ts, cs))
  }

  function Abstract<T>(xs: seq<Point<T>>): seq<Fifo<T>> {
    seq(|xs|, i requires 0 <= i < |xs| => xs[i].fifo)
  }

  lemma StepLifts<T(!new)>(ss: seq<State<T>>, ts: seq<Tid>, cs: seq<Choice<T>>, rel: (State<T>, Point<T>) -> bool,
                          i: nat, x: Point<T>)
    requires Run(ss, ts, cs) && i < |ts| && ts[i] in ss[i].threads
    requires forall s, y {:trigger Good(s, y)} :: rel(s, y) <==> Good(s, y)
    requires rel(ss[i], x)
    ensures rel(ss[i + 1], Advance(ss[i], x, ts[i], cs[i]))
    ensures SpecStep(x.fifo, EventOf(ss[i].threads[ts[i]], ts[i], cs[i]), Advance(ss[i], x, ts[i], cs[i]).fifo)
  {
    assert Next(ss[i], ts[i], cs[i], ss[i + 1]);
    assert Good(ss[i], x);
    AdvanceGood(ss[i], x, ts[i], cs[i], ss[i + 1]);
  }

  /** `rel` stands for `Good`; keeping it abstract keeps the induction over the run small. */
  lemma RunLifts<T(!new)>(ss: seq<State<T>>, ts: seq<Tid>, cs: seq<Choice<T>>, rel: (State<T>, Point<T>) -> bool,
                          x0: Point<T>)
    returns (xs: seq<Point<T>>)
    requires Run(ss, ts, cs) && forall i :: 0 <= i < |ts| ==> ts[i] in ss[i].threads
    requires forall s, y {:trigger Good(s, y)} :: rel(s, y) <==> Good(s, y)
    requires rel(ss[0], x0) && SpecInit(x0.fifo)
    ensures |xs| == |ss| && forall i :: 0 <= i < |ss| ==> rel(ss[i], xs[i])
    ensures SpecRun(Abstract(xs), Trace(ss, ts, cs))
  {
    var trace := Trace(ss, ts, cs);
    var step := (x: Point<T>, e: Event<T>, y: Point<T>) => SpecStep(x.fifo, e, y.fifo);
    var advance := (i: nat, x: Point<T>) => if i < |ts| then Advance(ss[i], x, ts[i], cs[i]) else x;
    forall i: nat, x {:trigger advance(i, x)} | i < |trace| && rel(ss[i], x)
      ensures rel(ss[i + 1], advance(i, x)) && step(x, trace[i], advance(i, x))
    {
      StepLifts(ss, ts, cs, rel, i, x);
    }
    xs := LiftSimulation(ss, trace, rel, step, advance, x0);
    var abs := Abstract(xs);
    forall i | 0 <= i < |trace| ensures SpecStep(abs[i], trace[i], abs[i + 1]) {
      assert step(xs[i], trace[i], xs[i + 1]);
    }
  }

  /** Linearizability: for every run, with any number of threads and any interleaving,
      there is a run of the atomic FIFO object with the same calls and returns; at each
      point the real state represents the abstract one, so the invariant (and with it
      memory safety) holds throughout. */
  lemma RunRefines<T(!new)>(ss: seq<State<T>>, ts: seq<Tid>, cs: seq<Choice<T>>) returns (xs: seq<Point<T>>)
    requires Run(ss, ts, cs)
    ensures forall i :: 0 <= i < |ts| ==> ts[i] in ss[i].threads
    ensures Linearizes(ss, ts, cs, xs)
  {
    RunEnabled(ss, ts, cs);
    var a0, w0 := InitRepresents(ss[0]);
    var rel := (s: State<T>, x: Point<T>) => Good(s, x);
    assert rel(ss[0], Point(a0, w0));
    xs := RunLifts(ss, ts, cs, rel, Point(a0, w0));
    forall i | 0 <= i < |ss| ensures Good(ss[i], xs[i]) {
      assert rel(ss[i], xs[i]);
    }
  }
}
