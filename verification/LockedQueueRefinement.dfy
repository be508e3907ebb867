/** Every interleaving of the locked queue behaves as one atomic FIFO queue with pushes, pops
    and clears. */
module LockedQueueRefinement {
  import opened Wrappers
  import opened Sequences
  import opened Pointers
  import opened FifoSpec
  import opened LockedQueue
  import opened LockedQueueProof
  import opened LockedQueueTheorems

  /** What a step shows to the outside. */
  function EventOf<T>(l: Local<T>, t: Tid, c: Choice<T>): Event<T> {
    match l
    case Idle => (match c case Push(v) => CallEnq(t, v) case Pop(_) => CallDeq(t) case _ => CallClear(t))
    case PushUnlock => RetEnq(t)
    case PopReturn(result) => (match result case Some(v) => RetDeq(t, v) case None => RetEmpty(t))
    case ClearUnlock => RetClear(t)
    case _ => Internal
  }

  /** How far the call of a thread at `l` has come. */
  predicate CallMatches<T(==)>(l: Local<T>, call: Call<T>) {
    match l
    case Idle => call.NoCall?
    case PushCheck(v) => call == EnqPending(v)
    case PushCreate(v) => call == EnqPending(v)
    case PushLock(v, _) => call == EnqPending(v)
    case PushVersion(v, _) => call == EnqPending(v)
    case PushLink(v, _) => call == EnqPending(v)
    case PushTail(_) => call.EnqDone?
    case PushSize => call.EnqDone?
    case PushWake => call.EnqDone?
    case PushUnlock => call.EnqDone?
    case DeqVersion(_) => call == DeqPending(true)
    case DeqUnlock(v, _) => call == DeqDone(v)
    case DeqDestroy(v, _) => call == DeqDone(v)
    case DeqDec(v) => call == DeqDone(v)
    case PopReturn(result) => call == (match result case Some(v) => DeqDone(v) case None => DeqPending(true))
    case ClearTailLock => call.ClearPending?
    case ClearHeadLock => call.ClearPending?
    case ClearLoop => call.ClearDone?
    case ClearDec => call.ClearDone?
    case ClearUnlock => call.ClearDone?
    case _ => call.DeqPending?
  }

  /** In the middle of a clear, which holds both locks. */
  predicate Clearing<T>(l: Local<T>) { l.ClearLoop? || l.ClearDec? }

  ghost predicate BeingCleared<T>(s: State<T>) { exists t :: t in s.threads && Clearing(s.threads[t]) }

  /** The values in the queue: none from the moment a clear has both locks, although it then
      takes the nodes out one after the other. */
  ghost function Visible<T>(s: State<T>, w: View): seq<T>
    requires w.live != [] && VersionChain(s.sh.heap, w.live)
  {
    if BeingCleared(s) then [] else Queued(s.sh.heap, w.live)
  }

  ghost predicate Represents<T>(s: State<T>, w: View, a: Fifo<T>) {
    && Inv(s, w)
    && a.calls.Keys == s.threads.Keys
    && a.items == Visible(s, w)
    && (forall t :: t in s.threads ==> CallMatches(s.threads[t], a.calls[t]))
    && Marked(a)
  }

  /** The step of the FIFO object: a push takes effect when its node is linked, a pop when the
      head is moved, and a clear when it has both locks. */
  function AbsStep<T(==)>(s: State<T>, a: Fifo<T>, t: Tid, c: Choice<T>): Fifo<T>
    requires t in s.threads && t in a.calls && Safe(s.sh, s.threads[t])
  {
    match s.threads[t]
    case Idle =>
      a.(calls := a.calls[t := match c
                               case Push(v) => EnqPending(v)
                               case Pop(_) => DeqPending(a.items == [])
                               case _ => ClearPending])
    case PushUnlock => a.(calls := a.calls[t := NoCall])
    case PopReturn(_) => a.(calls := a.calls[t := NoCall])
    case ClearUnlock => a.(calls := a.calls[t := NoCall])
    case PushLink(_, _) => if a.calls[t].EnqPending? then CommitEnq(a, t) else a
    case DeqMove(_, _, _) => if a.calls[t].DeqPending? && a.items != [] then CommitDeq(a, t) else a
    case ClearHeadLock => if a.calls[t].ClearPending? then CommitClear(a, t) else a
    case _ => a
  }

  /** Whoever holds a lock that a clear would hold knows that nobody is clearing. */
  lemma NobodyClearing<T>(s: State<T>, w: View, t: Tid)
    requires Inv(s, w) && t in s.threads && !Clearing(s.threads[t])
    requires HoldsTail(s.threads[t]) || HoldsHead(s.threads[t])
    ensures !BeingCleared(s)
  {
    hide VersionChain, IdleChain, Distinct;
    assert LocalInv(s.sh, w, t, s.threads[t]);
    forall u | u in s.threads
      ensures !Clearing(s.threads[u])
    {
      assert LocalInv(s.sh, w, u, s.threads[u]);
    }
  }

  /** Only the steps of a clear begin or end one. */
  lemma ClearingKept<T>(g: Config, s: State<T>, w: View, t: Tid, c: Choice<T>)
    requires Inv(s, w) && Enabled(g, s, t, c) && Safe(s.sh, s.threads[t])
    requires !s.threads[t].ClearHeadLock? && !Clearing(s.threads[t])
    ensures BeingCleared(Step(g, s, t, c)) == BeingCleared(s)
  {
    hide Inv, ShStep, LocalStep;
    var s' := Step(g, s, t, c);
    assert !Clearing(s'.threads[t]) by { StepsAside(g, s.sh, s.threads[t], c); }
    forall u | u in s.threads
      ensures u in s'.threads && (Clearing(s'.threads[u]) <==> Clearing(s.threads[u]))
    {
      if u != t {
        ThreadsAfter(g, s, w, t, c, u);
        IdleWaits(s, w, u);
      }
    }
  }

  lemma StepsAside<T>(g: Config, sh: Shared<T>, l: Local<T>, c: Choice<T>)
    requires Safe(sh, l) && !l.ClearHeadLock? && !Clearing(l)
    ensures !Clearing(LocalStep(g, sh, l, c))
  {
  }

  /** The values at the head of the list: none exactly if the dummy has no successor. */
  lemma FirstQueued<T>(sh: Shared<T>, w: View)
    requires Shape(sh, w)
    ensures sh.head in sh.heap && (sh.heap[sh.head].next == NULL <==> Queued(sh.heap, w.live) == [])
    ensures |w.live| >= 2 ==>
              Queued(sh.heap, w.live) != [] && Queued(sh.heap, w.live)[0] == sh.heap[w.live[1]].data
  {
    if |w.live| >= 2 {
      assert sh.heap[w.live[0]].next == w.live[1];
    }
  }

  /** A step outside a clear. */
  lemma ItemsKeptPlain<T>(g: Config, s: State<T>, w: View, a: Fifo<T>, t: Tid, c: Choice<T>)
    requires Represents(s, w, a) && Enabled(g, s, t, c) && Safe(s.sh, s.threads[t])
    requires Shape(ShStep(s.sh, t, s.threads[t], c), ViewStep(s.sh, w, t, s.threads[t]))
    requires !s.threads[t].ClearHeadLock? && !Clearing(s.threads[t])
    ensures AbsStep(s, a, t, c).items == Visible(Step(g, s, t, c), ViewStep(s.sh, w, t, s.threads[t]))
  {
    hide ShStep, ViewStep, Queued, Shape, StepPre, LocalStep, BeingCleared, Inv;
    StepReady(g, s, w, t, c);
    ClearingKept(g, s, w, t, c);
    assert CallMatches(s.threads[t], a.calls[t]);
    ItemsStep(s.sh, w, t, s.threads[t], c);
    if s.threads[t].PushLink? || s.threads[t].DeqMove? {
      NobodyClearing(s, w, t);
    }
  }

  /** A step that begins, continues or ends a clear. */
  lemma ItemsKeptClearing<T>(g: Config, s: State<T>, w: View, a: Fifo<T>, t: Tid, c: Choice<T>)
    requires Represents(s, w, a) && Enabled(g, s, t, c) && Safe(s.sh, s.threads[t])
    requires Shape(ShStep(s.sh, t, s.threads[t], c), ViewStep(s.sh, w, t, s.threads[t]))
    requires s.threads[t].ClearHeadLock? || Clearing(s.threads[t])
    ensures AbsStep(s, a, t, c).items == Visible(Step(g, s, t, c), ViewStep(s.sh, w, t, s.threads[t]))
  {
    hide ShStep, ViewStep, Queued, Shape, StepPre, Inv;
    StepReady(g, s, w, t, c);
    var s' := Step(g, s, t, c);
    assert CallMatches(s.threads[t], a.calls[t]);
    if Clearing(s'.threads[t]) {
      assert t in s'.threads;
    } else {
      ShapeOf(s, w);
      FirstQueued(s.sh, w);
      ItemsStep(s.sh, w, t, s.threads[t], c);
      assert Clearing(s.threads[t]);
    }
  }

  lemma ShapeOf<T>(s: State<T>, w: View)
    requires Inv(s, w)
    ensures Shape(s.sh, w)
  {
  }

  /** The values change in the real queue as in the FIFO object. */
  lemma ItemsKept<T>(g: Config, s: State<T>, w: View, a: Fifo<T>, t: Tid, c: Choice<T>)
    requires Represents(s, w, a) && Enabled(g, s, t, c) && Safe(s.sh, s.threads[t])
    requires Shape(ShStep(s.sh, t, s.threads[t], c), ViewStep(s.sh, w, t, s.threads[t]))
    ensures AbsStep(s, a, t, c).items == Visible(Step(g, s, t, c), ViewStep(s.sh, w, t, s.threads[t]))
  {
    hide Represents, AbsStep, Visible, Step, ViewStep, ShStep, Shape;
    if s.threads[t].ClearHeadLock? || Clearing(s.threads[t]) {
      ItemsKeptClearing(g, s, w, a, t, c);
    } else {
      ItemsKeptPlain(g, s, w, a, t, c);
    }
  }

  /** What a thread sees of the queue when it looks at its head. */
  ghost predicate SeesQueue<T>(sh: Shared<T>, l: Local<T>, a: Fifo<T>) {
    && (l.DeqRead? ==> sh.head in sh.heap && (sh.heap[sh.head].next == NULL <==> a.items == []))
    && (l.DeqMove? ==> a.items != [] && a.items[0] == l.v)
  }

  lemma ThreadSees<T>(s: State<T>, w: View, a: Fifo<T>, t: Tid)
    requires Represents(s, w, a) && t in s.threads
    ensures SeesQueue(s.sh, s.threads[t], a) && CallMatches(s.threads[t], a.calls[t])
  {
    hide Queued, VersionChain, IdleChain, Distinct, CallMatches, BeingCleared;
    assert LocalInv(s.sh, w, t, s.threads[t]);
    FirstQueued(s.sh, w);
    if s.threads[t].DeqRead? || s.threads[t].DeqMove? {
      NobodyClearing(s, w, t);
    }
  }

  lemma CallFollows<T>(g: Config, s: State<T>, a: Fifo<T>, t: Tid, c: Choice<T>)
    requires Enabled(g, s, t, c) && Safe(s.sh, s.threads[t]) && t in a.calls && Marked(a)
    requires SeesQueue(s.sh, s.threads[t], a) && CallMatches(s.threads[t], a.calls[t])
    ensures var a' := AbsStep(s, a, t, c);
            t in a'.calls && CallMatches(LocalStep(g, s.sh, s.threads[t], c), a'.calls[t])
  {
  }

  lemma SelfCallKept<T>(g: Config, s: State<T>, w: View, a: Fifo<T>, t: Tid, c: Choice<T>)
    requires Represents(s, w, a) && Enabled(g, s, t, c) && Safe(s.sh, s.threads[t])
    ensures var a' := AbsStep(s, a, t, c);
            t in a'.calls && CallMatches(LocalStep(g, s.sh, s.threads[t], c), a'.calls[t])
  {
    hide Visible, Inv, Marked, CallMatches, SeesQueue, AbsStep, LocalStep, Safe;
    ThreadSees(s, w, a, t);
    CallFollows(g, s, a, t, c);
  }

  lemma OtherCallKept<T>(g: Config, s: State<T>, w: View, a: Fifo<T>, t: Tid, c: Choice<T>, u: Tid)
    requires Represents(s, w, a) && Enabled(g, s, t, c) && Safe(s.sh, s.threads[t]) && u in s.threads && u != t
    ensures var a' := AbsStep(s, a, t, c);
            u in a'.calls && CallMatches(Woken(w, s.threads[t], u, s.threads[u]), a'.calls[u])
  {
    hide Visible, Inv;
    IdleWaits(s, w, u);
    assert CallMatches(s.threads[u], a.calls[u]);
  }

  lemma IdleWaits<T>(s: State<T>, w: View, u: Tid)
    requires Inv(s, w) && u in s.threads
    ensures u in w.idle <==> s.threads[u].PopWaiting?
  {
    hide VersionChain, IdleChain, Distinct;
    assert LocalInv(s.sh, w, u, s.threads[u]);
  }

  lemma MarkKept<T>(g: Config, s: State<T>, w: View, a: Fifo<T>, t: Tid, c: Choice<T>)
    requires Represents(s, w, a) && Enabled(g, s, t, c) && Safe(s.sh, s.threads[t])
    ensures Marked(AbsStep(s, a, t, c)) && AbsStep(s, a, t, c).calls.Keys == s.threads.Keys
  {
    hide Visible, Inv;
  }

  /** The step of the FIFO object is one it may take. */
  lemma SpecAllows<T>(g: Config, s: State<T>, w: View, a: Fifo<T>, t: Tid, c: Choice<T>)
    requires Represents(s, w, a) && Enabled(g, s, t, c) && Safe(s.sh, s.threads[t])
    ensures SpecStep(a, EventOf(s.threads[t], t, c), AbsStep(s, a, t, c))
  {
    hide Visible, Inv;
    ThreadSees(s, w, a, t);
  }

  /** Simulation: each step of the real queue is matched by a step of the FIFO object with
      the same call or return. */
  lemma StepRefines<T>(g: Config, s: State<T>, w: View, a: Fifo<T>, t: Tid, c: Choice<T>, s': State<T>)
    requires Represents(s, w, a) && Next(g, s, t, c, s')
    ensures Safe(s.sh, s.threads[t])
    ensures Represents(s', ViewStep(s.sh, w, t, s.threads[t]), AbsStep(s, a, t, c))
    ensures SpecStep(a, EventOf(s.threads[t], t, c), AbsStep(s, a, t, c))
  {
    hide Marked, CallMatches, AbsStep, SpecStep, EventOf, Visible, ViewStep, ShStep, Safe, Shape, LocalInv,
        LocalStep, Own;
    InvKept(g, s, w, t, c, s');
    ItemsKept(g, s, w, a, t, c);
    SelfCallKept(g, s, w, a, t, c);
    MarkKept(g, s, w, a, t, c);
    forall u | u in s.threads
      ensures u in AbsStep(s, a, t, c).calls && CallMatches(s'.threads[u], AbsStep(s, a, t, c).calls[u])
    {
      if u != t {
        OtherCallKept(g, s, w, a, t, c, u);
        ThreadsAfter(g, s, w, t, c, u);
      }
    }
    SpecAllows(g, s, w, a, t, c);
  }

  // ---------------------------------------------------------------- runs

  /** A state of the FIFO object together with the lists of the real queue. */
  datatype Snapshot<T> = Snapshot(fifo: Fifo<T>, view: View)

  ghost predicate Shown<T>(s: State<T>, x: Snapshot<T>) { Represents(s, x.view, x.fifo) }

  function Move<T(==)>(s: State<T>, x: Snapshot<T>, t: Tid, c: Choice<T>): Snapshot<T> {
    if t in s.threads && t in x.fifo.calls && Safe(s.sh, s.threads[t])
    then Snapshot(AbsStep(s, x.fifo, t, c), ViewStep(s.sh, x.view, t, s.threads[t])) else x
  }

  /** The calls and returns seen from outside during a run. */
  ghost function Trace<T>(ss: seq<State<T>>, ts: seq<Tid>, cs: seq<Choice<T>>): seq<Event<T>>
    requires |ss| == |ts| + 1 == |cs| + 1
    requires forall i :: 0 <= i < |ts| ==> ts[i] in ss[i].threads
  {
    seq(|ts|, i requires 0 <= i < |ts| => EventOf(ss[i].threads[ts[i]], ts[i], cs[i]))
  }

  function Abstract<T>(xs: seq<Snapshot<T>>): seq<Fifo<T>> {
    seq(|xs|, i requires 0 <= i < |xs| => xs[i].fifo)
  }

  /** The run of the FIFO object has the same calls and returns as the run `ss`, and each
      real state represents the abstract one at the same point. */
  ghost predicate Linearizes<T>(ss: seq<State<T>>, ts: seq<Tid>, cs: seq<Choice<T>>, xs: seq<Snapshot<T>>)
    requires |ss| == |ts| + 1 == |cs| + 1
    requires forall i :: 0 <= i < |ts| ==> ts[i] in ss[i].threads
  {
    && |xs| == |ss|
    && (forall i :: 0 <= i < |ss| ==> Shown(ss[i], xs[i]))
    && SpecRun(Abstract(xs), Trace(ss, ts, cs))
  }

  lemma InitShown<T>(g: Config, s: State<T>) returns (x: Snapshot<T>)
    requires Init(s)
    ensures Shown(s, x) && SpecInit(x.fifo)
  {
    InitGood(g, s);
    x := Snapshot(Fifo([], map t | t in s.threads :: NoCall, [], []), View([s.sh.head], []));
  }

  lemma StepLifts<T(!new)>(g: Config, ss: seq<State<T>>, ts: seq<Tid>, cs: seq<Choice<T>>,
      rel: (State<T>, Snapshot<T>) -> bool,
                           i: nat, x: Snapshot<T>)
    requires Run(g, ss, ts, cs) && i < |ts| && ts[i] in ss[i].threads
    requires forall s, y {:trigger Shown(s, y)} :: rel(s, y) <==> Shown(s, y)
    requires rel(ss[i], x)
    ensures rel(ss[i + 1], Move(ss[i], x, ts[i], cs[i]))
    ensures SpecStep(x.fifo, EventOf(ss[i].threads[ts[i]], ts[i], cs[i]), Move(ss[i], x, ts[i], cs[i]).fifo)
  {
    hide Inv, AbsStep, ViewStep, SpecStep, EventOf, Safe, Enabled, Visible, Marked, CallMatches, Init;
    assert Next(g, ss[i], ts[i], cs[i], ss[i + 1]);
    assert Shown(ss[i], x);
    StepRefines(g, ss[i], x.view, x.fifo, ts[i], cs[i], ss[i + 1]);
    assert Shown(ss[i + 1], Move(ss[i], x, ts[i], cs[i]));
  }

  lemma RunLifts<T(!new)>(g: Config, ss: seq<State<T>>, ts: seq<Tid>, cs: seq<Choice<T>>,
      rel: (State<T>, Snapshot<T>) -> bool,
                          x0: Snapshot<T>)
    returns (xs: seq<Snapshot<T>>)
    requires Run(g, ss, ts, cs) && forall i :: 0 <= i < |ts| ==> ts[i] in ss[i].threads
    requires forall s, y {:trigger Shown(s, y)} :: rel(s, y) <==> Shown(s, y)
    requires rel(ss[0], x0) && SpecInit(x0.fifo)
    ensures |xs| == |ss| && forall i :: 0 <= i < |ss| ==> rel(ss[i], xs[i])
    ensures SpecRun(Abstract(xs), Trace(ss, ts, cs))
  {
    hide SpecStep, Move, EventOf, Shown, Next;
    var trace := Trace(ss, ts, cs);
    var step := (x: Snapshot<T>, e: Event<T>, y: Snapshot<T>) => SpecStep(x.fifo, e, y.fifo);
    var advance := (i: nat, x: Snapshot<T>) => if i < |ts| then Move(ss[i], x, ts[i], cs[i]) else x;
    forall i: nat, x {:trigger advance(i, x)} | i < |trace| && rel(ss[i], x)
      ensures rel(ss[i + 1], advance(i, x)) && step(x, trace[i], advance(i, x))
    {
      StepLifts(g, ss, ts, cs, rel, i, x);
    }
    xs := LiftSimulation(ss, trace, rel, step, advance, x0);
    var abs := Abstract(xs);
    forall i | 0 <= i < |trace| ensures SpecStep(abs[i], trace[i], abs[i + 1]) {
      assert step(xs[i], trace[i], xs[i + 1]);
    }
  }

  /** For every run of pushes, pops and clears, with any number of threads and any
      interleaving, there is a run of the FIFO object with the same calls and returns. */
  lemma RunRefines<T(!new)>(g: Config, ss: seq<State<T>>, ts: seq<Tid>, cs: seq<Choice<T>>)
      returns (xs: seq<Snapshot<T>>)
    requires Run(g, ss, ts, cs)
    ensures forall i :: 0 <= i < |ts| ==> ts[i] in ss[i].threads
    ensures Linearizes(ss, ts, cs, xs)
  {
    hide SpecRun, SpecInit, Represents, Init;
    forall i | 0 <= i < |ts| ensures ts[i] in ss[i].threads {
      assert Next(g, ss[i], ts[i], cs[i], ss[i + 1]);
    }
    var x0 := InitShown(g, ss[0]);
    var rel := (s: State<T>, x: Snapshot<T>) => Shown(s, x);
    assert rel(ss[0], x0);
    xs := RunLifts(g, ss, ts, cs, rel, x0);
    forall i | 0 <= i < |ss| ensures Shown(ss[i], xs[i]) {
      assert rel(ss[i], xs[i]);
    }
  }

  /** Each value is handed out once and in order: at every point of every run the values
      that pops have taken and clears have removed, followed by the values queued, are the
      values pushed. */
  lemma DeliveredInOrder<T(!new)>(g: Config, ss: seq<State<T>>, ts: seq<Tid>, cs: seq<Choice<T>>, k: nat)
    returns (xs: seq<Snapshot<T>>)
    requires Run(g, ss, ts, cs) && k < |ss|
    ensures forall i :: 0 <= i < |ts| ==> ts[i] in ss[i].threads
    ensures Linearizes(ss, ts, cs, xs) && Shown(ss[k], xs[k])
    ensures xs[k].fifo.dequeued + Visible(ss[k], xs[k].view) == xs[k].fifo.enqueued
  {
    hide Init, Next, SpecRun;
    xs := RunRefines(g, ss, ts, cs);
    FifoOrder(Abstract(xs), Trace(ss, ts, cs), k);
    assert Shown(ss[k], xs[k]);
  }
}
