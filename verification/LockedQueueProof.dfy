/** Every step of the locked queue keeps its invariant. */
module LockedQueueProof {
  import opened Wrappers
  import opened Sequences
  import opened Pointers
  import opened LockedQueue

  ghost predicate StepPre<T>(sh: Shared<T>, w: View, t: Tid, l: Local<T>, c: Choice<T>) {
    && Shape(sh, w) && LocalInv(sh, w, t, l) && !l.PopWaiting?
    && (l.PushCreate? ==> c.Fresh? && c.n != NULL && c.n !in sh.heap)
    && (l.PushLock? || l.PopLock? || l.PopWoken? || l.ClearTailLock? ==> sh.tailLock.None?)
    && (l.DeqLock? || l.ClearHeadLock? ==> sh.headLock.None?)
  }

  predicate WritesNode<T>(l: Local<T>) { l.PushCreate? || l.PushVersion? || l.DeqDestroy? }

  predicate MovesHead<T>(l: Local<T>) { l.DeqMove? || l.ClearLoop? }

  predicate ChangesIdle<T>(l: Local<T>) { l.PushWake? || l.PopCheck? }

  predicate Plain<T>(l: Local<T>) { !WritesNode(l) && !MovesHead(l) && !ChangesIdle(l) && !l.PushLink? }

  lemma PlainShape<T>(sh: Shared<T>, w: View, t: Tid, l: Local<T>, c: Choice<T>)
    requires StepPre(sh, w, t, l, c) && Plain(l)
    ensures Shape(ShStep(sh, t, l, c), ViewStep(sh, w, t, l))
  {
  }

  lemma WriteShape<T>(sh: Shared<T>, w: View, t: Tid, l: Local<T>, c: Choice<T>)
    requires StepPre(sh, w, t, l, c) && WritesNode(l)
    ensures Shape(ShStep(sh, t, l, c), ViewStep(sh, w, t, l))
  {
    var heap' := ShStep(sh, t, l, c).heap;
    assert forall i :: 0 <= i < |w.live| ==> w.live[i] in heap' && heap'[w.live[i]] == sh.heap[w.live[i]];
  }

  lemma LinkShape<T>(sh: Shared<T>, w: View, t: Tid, l: Local<T>, c: Choice<T>)
    requires StepPre(sh, w, t, l, c) && l.PushLink?
    ensures Shape(ShStep(sh, t, l, c), ViewStep(sh, w, t, l))
  {
    var heap', live := ShStep(sh, t, l, c).heap, w.live + [l.n];
    assert forall i :: 0 <= i < |w.live| - 1 ==> w.live[i] in heap' && heap'[w.live[i]] == sh.heap[w.live[i]];
    assert VersionChain(heap', live);
  }

  lemma MoveShape<T>(sh: Shared<T>, w: View, t: Tid, l: Local<T>, c: Choice<T>)
    requires StepPre(sh, w, t, l, c) && MovesHead(l)
    ensures Shape(ShStep(sh, t, l, c), ViewStep(sh, w, t, l))
  {
    var heap', live := ShStep(sh, t, l, c).heap, w.live[1..];
    assert forall i :: 0 <= i < |live| ==> live[i] in heap' && heap'[live[i]] == sh.heap[live[i]];
    assert live != [] ==> Last(live) == Last(w.live);
  }

  lemma IdleShape<T>(sh: Shared<T>, w: View, t: Tid, l: Local<T>, c: Choice<T>)
    requires StepPre(sh, w, t, l, c) && ChangesIdle(l)
    ensures Shape(ShStep(sh, t, l, c), ViewStep(sh, w, t, l))
  {
    var sh', w' := ShStep(sh, t, l, c), ViewStep(sh, w, t, l);
    assert IdleChain(sh', w'.idle);
  }

  /** The node list and the idle list stay well formed. */
  lemma ShapeKept<T>(sh: Shared<T>, w: View, t: Tid, l: Local<T>, c: Choice<T>)
    requires StepPre(sh, w, t, l, c)
    ensures Shape(ShStep(sh, t, l, c), ViewStep(sh, w, t, l))
  {
    if WritesNode(l) {
      WriteShape(sh, w, t, l, c);
    } else if MovesHead(l) {
      MoveShape(sh, w, t, l, c);
    } else if ChangesIdle(l) {
      IdleShape(sh, w, t, l, c);
    } else if l.PushLink? {
      LinkShape(sh, w, t, l, c);
    } else {
      PlainShape(sh, w, t, l, c);
    }
  }

  predicate PlainPush<T>(l: Local<T>) {
    l.PushCheck? || l.PushLock? || l.PushTail? || l.PushSize? || l.PushUnlock?
  }

  predicate PlainDequeue<T>(l: Local<T>) {
    l.DeqLock? || l.DeqRead? || l.DeqVersion? || l.DeqCopy? || l.DeqUnlock? || l.DeqDec?
  }

  lemma SelfKeptPush<T>(g: Config, sh: Shared<T>, w: View, t: Tid, l: Local<T>, c: Choice<T>)
    requires StepPre(sh, w, t, l, c) && PlainPush(l)
    requires Shape(ShStep(sh, t, l, c), ViewStep(sh, w, t, l))
    ensures LocalInv(ShStep(sh, t, l, c), ViewStep(sh, w, t, l), t, LocalStep(g, sh, l, c))
  {
  }

  lemma SelfKeptRead<T>(g: Config, sh: Shared<T>, w: View, t: Tid, l: Local<T>, c: Choice<T>)
    requires StepPre(sh, w, t, l, c) && (l.DeqRead? || l.DeqVersion?)
    requires Shape(ShStep(sh, t, l, c), ViewStep(sh, w, t, l))
    ensures LocalInv(ShStep(sh, t, l, c), ViewStep(sh, w, t, l), t, LocalStep(g, sh, l, c))
  {
  }

  lemma SelfKeptDequeue<T>(g: Config, sh: Shared<T>, w: View, t: Tid, l: Local<T>, c: Choice<T>)
    requires StepPre(sh, w, t, l, c) && PlainDequeue(l) && !l.DeqRead? && !l.DeqVersion?
    requires Shape(ShStep(sh, t, l, c), ViewStep(sh, w, t, l))
    ensures LocalInv(ShStep(sh, t, l, c), ViewStep(sh, w, t, l), t, LocalStep(g, sh, l, c))
  {
  }

  lemma SelfKeptRest<T>(g: Config, sh: Shared<T>, w: View, t: Tid, l: Local<T>, c: Choice<T>)
    requires StepPre(sh, w, t, l, c) && Plain(l) && !PlainPush(l) && !PlainDequeue(l)
    requires Shape(ShStep(sh, t, l, c), ViewStep(sh, w, t, l))
    ensures LocalInv(ShStep(sh, t, l, c), ViewStep(sh, w, t, l), t, LocalStep(g, sh, l, c))
  {
  }

  lemma SelfKeptPlain<T>(g: Config, sh: Shared<T>, w: View, t: Tid, l: Local<T>, c: Choice<T>)
    requires StepPre(sh, w, t, l, c) && Plain(l)
    requires Shape(ShStep(sh, t, l, c), ViewStep(sh, w, t, l))
    ensures LocalInv(ShStep(sh, t, l, c), ViewStep(sh, w, t, l), t, LocalStep(g, sh, l, c))
  {
    hide StepPre, Shape, LocalInv, ShStep, ViewStep, LocalStep;
    if PlainPush(l) {
      SelfKeptPush(g, sh, w, t, l, c);
    } else if l.DeqRead? || l.DeqVersion? {
      SelfKeptRead(g, sh, w, t, l, c);
    } else if PlainDequeue(l) {
      SelfKeptDequeue(g, sh, w, t, l, c);
    } else {
      SelfKeptRest(g, sh, w, t, l, c);
    }
  }

  lemma SelfKeptWrite<T>(g: Config, sh: Shared<T>, w: View, t: Tid, l: Local<T>, c: Choice<T>)
    requires StepPre(sh, w, t, l, c) && WritesNode(l)
    requires Shape(ShStep(sh, t, l, c), ViewStep(sh, w, t, l))
    ensures LocalInv(ShStep(sh, t, l, c), ViewStep(sh, w, t, l), t, LocalStep(g, sh, l, c))
  {
  }

  lemma SelfKeptMove<T>(g: Config, sh: Shared<T>, w: View, t: Tid, l: Local<T>, c: Choice<T>)
    requires StepPre(sh, w, t, l, c) && MovesHead(l)
    requires Shape(ShStep(sh, t, l, c), ViewStep(sh, w, t, l))
    ensures LocalInv(ShStep(sh, t, l, c), ViewStep(sh, w, t, l), t, LocalStep(g, sh, l, c))
  {
  }

  lemma SelfKeptIdle<T>(g: Config, sh: Shared<T>, w: View, t: Tid, l: Local<T>, c: Choice<T>)
    requires StepPre(sh, w, t, l, c) && ChangesIdle(l)
    requires Shape(ShStep(sh, t, l, c), ViewStep(sh, w, t, l))
    ensures LocalInv(ShStep(sh, t, l, c), ViewStep(sh, w, t, l), t, LocalStep(g, sh, l, c))
  {
  }

  lemma SelfKeptLink<T>(g: Config, sh: Shared<T>, w: View, t: Tid, l: Local<T>, c: Choice<T>)
    requires StepPre(sh, w, t, l, c) && l.PushLink?
    requires Shape(ShStep(sh, t, l, c), ViewStep(sh, w, t, l))
    ensures LocalInv(ShStep(sh, t, l, c), ViewStep(sh, w, t, l), t, LocalStep(g, sh, l, c))
  {
  }

  /** The stepping thread reaches its next program point with what it needs there. */
  lemma SelfKept<T>(g: Config, sh: Shared<T>, w: View, t: Tid, l: Local<T>, c: Choice<T>)
    requires StepPre(sh, w, t, l, c)
    requires Shape(ShStep(sh, t, l, c), ViewStep(sh, w, t, l))
    ensures LocalInv(ShStep(sh, t, l, c), ViewStep(sh, w, t, l), t, LocalStep(g, sh, l, c))
  {
    if WritesNode(l) {
      SelfKeptWrite(g, sh, w, t, l, c);
    } else if MovesHead(l) {
      SelfKeptMove(g, sh, w, t, l, c);
    } else if ChangesIdle(l) {
      SelfKeptIdle(g, sh, w, t, l, c);
    } else if l.PushLink? {
      SelfKeptLink(g, sh, w, t, l, c);
    } else {
      SelfKeptPlain(g, sh, w, t, l, c);
    }
  }

  ghost predicate OtherPre<T>(sh: Shared<T>, w: View, t: Tid, l: Local<T>, c: Choice<T>, u: Tid, o: Local<T>) {
    && StepPre(sh, w, t, l, c) && LocalInv(sh, w, u, o) && u != t && (Own(l) != NULL ==> Own(l) != Own(o))
    && Shape(ShStep(sh, t, l, c), ViewStep(sh, w, t, l))
  }

  /** What `u` is at after the step: the consumer at the front of the idle list is woken by a push. */
  function Woken<T>(w: View, l: Local<T>, u: Tid, o: Local<T>): Local<T> {
    if l.PushWake? && w.idle != [] && u == w.idle[0] then PopWoken else o
  }

  lemma OtherKeptPlain<T>(sh: Shared<T>, w: View, t: Tid, l: Local<T>, c: Choice<T>, u: Tid, o: Local<T>)
    requires OtherPre(sh, w, t, l, c, u, o) && Plain(l)
    ensures LocalInv(ShStep(sh, t, l, c), ViewStep(sh, w, t, l), u, Woken(w, l, u, o))
  {
    hide IdleChain, Distinct;
  }

  lemma OtherKeptWrite<T>(sh: Shared<T>, w: View, t: Tid, l: Local<T>, c: Choice<T>, u: Tid, o: Local<T>)
    requires OtherPre(sh, w, t, l, c, u, o) && WritesNode(l)
    ensures LocalInv(ShStep(sh, t, l, c), ViewStep(sh, w, t, l), u, Woken(w, l, u, o))
  {
  }

  lemma OtherKeptMove<T>(sh: Shared<T>, w: View, t: Tid, l: Local<T>, c: Choice<T>, u: Tid, o: Local<T>)
    requires OtherPre(sh, w, t, l, c, u, o) && MovesHead(l)
    ensures LocalInv(ShStep(sh, t, l, c), ViewStep(sh, w, t, l), u, Woken(w, l, u, o))
  {
  }

  lemma OtherKeptIdle<T>(sh: Shared<T>, w: View, t: Tid, l: Local<T>, c: Choice<T>, u: Tid, o: Local<T>)
    requires OtherPre(sh, w, t, l, c, u, o) && ChangesIdle(l)
    ensures LocalInv(ShStep(sh, t, l, c), ViewStep(sh, w, t, l), u, Woken(w, l, u, o))
  {
  }

  lemma OtherKeptLink<T>(sh: Shared<T>, w: View, t: Tid, l: Local<T>, c: Choice<T>, u: Tid, o: Local<T>)
    requires OtherPre(sh, w, t, l, c, u, o) && l.PushLink?
    ensures LocalInv(ShStep(sh, t, l, c), ViewStep(sh, w, t, l), u, Woken(w, l, u, o))
  {
  }

  /** What any other thread relies on is not disturbed. */
  lemma OtherKept<T>(sh: Shared<T>, w: View, t: Tid, l: Local<T>, c: Choice<T>, u: Tid, o: Local<T>)
    requires OtherPre(sh, w, t, l, c, u, o)
    ensures LocalInv(ShStep(sh, t, l, c), ViewStep(sh, w, t, l), u, Woken(w, l, u, o))
  {
    if WritesNode(l) {
      OtherKeptWrite(sh, w, t, l, c, u, o);
    } else if MovesHead(l) {
      OtherKeptMove(sh, w, t, l, c, u, o);
    } else if ChangesIdle(l) {
      OtherKeptIdle(sh, w, t, l, c, u, o);
    } else if l.PushLink? {
      OtherKeptLink(sh, w, t, l, c, u, o);
    } else {
      OtherKeptPlain(sh, w, t, l, c, u, o);
    }
  }

  lemma ThreadsAfter<T>(g: Config, s: State<T>, w: View, t: Tid, c: Choice<T>, u: Tid)
    requires Inv(s, w) && Enabled(g, s, t, c) && Safe(s.sh, s.threads[t]) && u in s.threads && u != t
    ensures Step(g, s, t, c).threads[u] == Woken(w, s.threads[t], u, s.threads[u])
  {
    assert LocalInv(s.sh, w, u, s.threads[u]);
  }

  lemma OwnersKept<T>(g: Config, s: State<T>, w: View, t: Tid, c: Choice<T>, u: Tid)
    requires Inv(s, w) && Enabled(g, s, t, c) && Safe(s.sh, s.threads[t]) && u in s.threads && u != t
    ensures var own := Own(Step(g, s, t, c).threads[t]);
            own != NULL ==> own != Own(Step(g, s, t, c).threads[u])
  {
    assert LocalInv(s.sh, w, t, s.threads[t]) && LocalInv(s.sh, w, u, s.threads[u]);
    ThreadsAfter(g, s, w, t, c, u);
  }

  lemma StepReady<T>(g: Config, s: State<T>, w: View, t: Tid, c: Choice<T>)
    requires Inv(s, w) && Enabled(g, s, t, c)
    ensures Safe(s.sh, s.threads[t]) && StepPre(s.sh, w, t, s.threads[t], c)
  {
    InvSafe(s, w, t);
    assert LocalInv(s.sh, w, t, s.threads[t]);
  }

  lemma LocalKept<T>(g: Config, s: State<T>, w: View, t: Tid, c: Choice<T>, u: Tid)
    requires Inv(s, w) && Enabled(g, s, t, c) && u in s.threads && Safe(s.sh, s.threads[t])
    requires Shape(ShStep(s.sh, t, s.threads[t], c), ViewStep(s.sh, w, t, s.threads[t]))
    ensures LocalInv(ShStep(s.sh, t, s.threads[t], c), ViewStep(s.sh, w, t, s.threads[t]), u,
            Step(g, s, t, c).threads[u])
  {
    StepReady(g, s, w, t, c);
    if u == t {
      SelfKept(g, s.sh, w, t, s.threads[t], c);
    } else {
      assert LocalInv(s.sh, w, u, s.threads[u]);
      ThreadsAfter(g, s, w, t, c, u);
      OtherKept(s.sh, w, t, s.threads[t], c, u, s.threads[u]);
    }
  }

  lemma OwnersDiffer<T>(g: Config, s: State<T>, w: View, t: Tid, c: Choice<T>, u: Tid, v: Tid)
    requires Inv(s, w) && Enabled(g, s, t, c) && Safe(s.sh, s.threads[t])
    requires u in s.threads && v in s.threads && u != v
    ensures var s' := Step(g, s, t, c); Own(s'.threads[u]) != NULL ==> Own(s'.threads[u]) != Own(s'.threads[v])
  {
    if u == t {
      OwnersKept(g, s, w, t, c, v);
    } else if v == t {
      OwnersKept(g, s, w, t, c, u);
    } else {
      ThreadsAfter(g, s, w, t, c, u);
      ThreadsAfter(g, s, w, t, c, v);
    }
  }

  /** Consumers come into the idle list only as threads. */
  lemma IdleAreThreads<T>(s: State<T>, w: View, t: Tid)
    requires t in s.threads && Safe(s.sh, s.threads[t]) && forall u :: u in w.idle ==> u in s.threads
    ensures forall u :: u in ViewStep(s.sh, w, t, s.threads[t]).idle ==> u in s.threads
  {
  }

  /** Every step of every thread keeps the invariant. */
  lemma InvKept<T>(g: Config, s: State<T>, w: View, t: Tid, c: Choice<T>, s': State<T>)
    requires Inv(s, w) && Next(g, s, t, c, s')
    ensures Safe(s.sh, s.threads[t]) && Inv(s', ViewStep(s.sh, w, t, s.threads[t]))
  {
    hide Shape, LocalInv, StepPre, ShStep, LocalStep, ViewStep, Own, Safe;
    StepReady(g, s, w, t, c);
    var w' := ViewStep(s.sh, w, t, s.threads[t]);
    ShapeKept(s.sh, w, t, s.threads[t], c);
    forall u | u in s.threads ensures LocalInv(s'.sh, w', u, s'.threads[u]) {
      LocalKept(g, s, w, t, c, u);
    }
    forall u, v | u in s.threads && v in s.threads && u != v && Own(s'.threads[u]) != NULL
      ensures Own(s'.threads[u]) != Own(s'.threads[v])
    {
      OwnersDiffer(g, s, w, t, c, u, v);
    }
    IdleAreThreads(s, w, t);
  }
}
