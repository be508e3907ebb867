/** The invariant of the lock-free queue is kept by every step of every thread. */
module LockFreeFifoProof {
  import opened Sequences
  import opened Pointers
  import opened FifoSpec
  import opened LockFreeFifo

  /** Everything a step of a thread in local state `l` may assume. */
  ghost predicate StepPre<T>(sh: Shared<T>, w: View, l: Local<T>, c: Choice<T>) {
    && Shape(sh, w)
    && LocalInv(sh, w, l)
    && (l.AllocRead? && sh.pool.ptr == NULL ==> c.Fresh? && c.n != NULL && c.n !in sh.heap)
  }

  lemma PoppedPoolShape<T>(sh: Shared<T>, w: View, l: Local<T>, c: Choice<T>)
    requires StepPre(sh, w, l, c) && l.AllocCas?
    ensures Shape(ShStep(sh, l, c), ViewStep(sh, w, l))
  {
    if sh.pool == l.pool {
      var free := w.free[1..];
    }
  }

  lemma PushedPoolShape<T>(sh: Shared<T>, w: View, l: Local<T>, c: Choice<T>)
    requires StepPre(sh, w, l, c) && l.FreeCas?
    ensures Shape(ShStep(sh, l, c), ViewStep(sh, w, l))
  {
    if sh.pool == l.pool {
      PrependChain(sh.heap, l.n, w.free);
    }
  }

  lemma PrependChain<T>(heap: map<Addr, Node<T>>, n: Addr, xs: seq<Addr>)
    requires Chain(heap, xs) && Distinct(xs) && n != NULL && n in heap && n !in xs && heap[n].next.ptr == Nth(xs, 0)
    ensures Chain(heap, [n] + xs) && Distinct([n] + xs)
  {
    var ys := [n] + xs;
    assert ys[0] == n && forall i :: 1 <= i < |ys| ==> ys[i] == xs[i - 1];
  }

  lemma LinkedShape<T>(sh: Shared<T>, w: View, l: Local<T>, c: Choice<T>)
    requires StepPre(sh, w, l, c) && l.EnqLink?
    ensures Shape(ShStep(sh, l, c), ViewStep(sh, w, l))
  {
    var heap' := ShStep(sh, l, c).heap;
    if sh.heap[l.tail.ptr].next == l.next {
      var live := w.live + [l.n];
      assert l.tail.ptr == Last(w.live);
      assert Chain(heap', live);
      assert Chain(heap', w.free);
    } else {
      assert heap' == sh.heap;
    }
  }

  lemma PoppedHeadShape<T>(sh: Shared<T>, w: View, l: Local<T>, c: Choice<T>)
    requires StepPre(sh, w, l, c) && l.DeqCas?
    ensures Shape(ShStep(sh, l, c), ViewStep(sh, w, l))
  {
    if sh.head == l.head {
      var live := w.live[1..];
      assert Chain(sh.heap, live) && Distinct(live);
    }
  }

  /** Steps that write a private or brand-new node. */
  lemma PrivateWriteShape<T>(sh: Shared<T>, w: View, l: Local<T>, c: Choice<T>)
    requires StepPre(sh, w, l, c) && (l.AllocRead? || l.Construct? || l.FreeLink?)
    ensures Shape(ShStep(sh, l, c), ViewStep(sh, w, l))
  {
    var heap' := ShStep(sh, l, c).heap;
    assert forall i :: 0 <= i < |w.live| ==> w.live[i] in heap' && heap'[w.live[i]] == sh.heap[w.live[i]];
    assert forall i :: 0 <= i < |w.free| ==> w.free[i] in heap' && heap'[w.free[i]] == sh.heap[w.free[i]];
  }

  /** The queue list and the pool list stay well formed and disjoint. */
  lemma ShapeKept<T>(sh: Shared<T>, w: View, l: Local<T>, c: Choice<T>)
    requires StepPre(sh, w, l, c)
    ensures Shape(ShStep(sh, l, c), ViewStep(sh, w, l))
  {
    if l.AllocCas? {
      PoppedPoolShape(sh, w, l, c);
    } else if l.FreeCas? {
      PushedPoolShape(sh, w, l, c);
    } else if l.EnqLink? {
      LinkedShape(sh, w, l, c);
    } else if l.DeqCas? {
      PoppedHeadShape(sh, w, l, c);
    } else if l.AllocRead? || l.Construct? || l.FreeLink? {
      PrivateWriteShape(sh, w, l, c);
    }
  }

  ghost predicate SelfPost<T>(sh: Shared<T>, w: View, l: Local<T>, c: Choice<T>)
    requires Safe(sh, l)
  {
    ViewStep(sh, w, l).live != [] && LocalInv(ShStep(sh, l, c), ViewStep(sh, w, l), LocalStep(sh, l, c))
  }

  predicate Dequeuing<T>(l: Local<T>) {
    l.DeqHead? || l.DeqTail? || l.DeqNext? || l.DeqCheck? || l.DeqHelp? || l.DeqData? || l.DeqCas?
  }

  lemma SelfKeptInDequeue<T>(sh: Shared<T>, w: View, l: Local<T>, c: Choice<T>)
    requires StepPre(sh, w, l, c) && Dequeuing(l)
    ensures SelfPost(sh, w, l, c)
  {
  }

  lemma SelfKeptElsewhere<T>(sh: Shared<T>, w: View, l: Local<T>, c: Choice<T>)
    requires StepPre(sh, w, l, c) && !Dequeuing(l)
    ensures SelfPost(sh, w, l, c)
  {
  }

  /** The stepping thread reaches its next program point with what it needs there. */
  lemma SelfKept<T>(sh: Shared<T>, w: View, l: Local<T>, c: Choice<T>)
    requires StepPre(sh, w, l, c)
    ensures SelfPost(sh, w, l, c)
  {
    if Dequeuing(l) {
      SelfKeptInDequeue(sh, w, l, c);
    } else {
      SelfKeptElsewhere(sh, w, l, c);
    }
  }

  ghost predicate OtherPre<T>(sh: Shared<T>, w: View, l: Local<T>, c: Choice<T>, o: Local<T>) {
    StepPre(sh, w, l, c) && LocalInv(sh, w, o) && (Own(l) != NULL ==> Own(l) != Own(o))
  }

  ghost predicate OtherPost<T>(sh: Shared<T>, w: View, l: Local<T>, c: Choice<T>, o: Local<T>)
    requires Safe(sh, l)
  {
    ViewStep(sh, w, l).live != [] && LocalInv(ShStep(sh, l, c), ViewStep(sh, w, l), o)
  }

  lemma OtherKeptByAlloc<T>(sh: Shared<T>, w: View, l: Local<T>, c: Choice<T>, o: Local<T>)
    requires OtherPre(sh, w, l, c, o) && l.AllocCas?
    ensures OtherPost(sh, w, l, c, o)
  {
  }

  lemma OtherKeptByFree<T>(sh: Shared<T>, w: View, l: Local<T>, c: Choice<T>, o: Local<T>)
    requires OtherPre(sh, w, l, c, o) && l.FreeCas?
    ensures OtherPost(sh, w, l, c, o)
  {
  }

  lemma OtherKeptByCreate<T>(sh: Shared<T>, w: View, l: Local<T>, c: Choice<T>, o: Local<T>)
    requires OtherPre(sh, w, l, c, o) && l.AllocRead?
    ensures OtherPost(sh, w, l, c, o)
  {
  }

  lemma OtherKeptByPrivateWrite<T>(sh: Shared<T>, w: View, l: Local<T>, c: Choice<T>, o: Local<T>)
    requires OtherPre(sh, w, l, c, o) && (l.Construct? || l.FreeLink?)
    ensures OtherPost(sh, w, l, c, o)
  {
  }

  lemma OtherKeptByLink<T>(sh: Shared<T>, w: View, l: Local<T>, c: Choice<T>, o: Local<T>)
    requires OtherPre(sh, w, l, c, o) && l.EnqLink?
    ensures OtherPost(sh, w, l, c, o)
  {
  }

  lemma OtherKeptBySwing<T>(sh: Shared<T>, w: View, l: Local<T>, c: Choice<T>, o: Local<T>)
    requires OtherPre(sh, w, l, c, o) && (l.EnqHelp? || l.EnqSwing? || l.DeqHelp?)
    ensures OtherPost(sh, w, l, c, o)
  {
  }

  lemma OtherKeptByPopHead<T>(sh: Shared<T>, w: View, l: Local<T>, c: Choice<T>, o: Local<T>)
    requires OtherPre(sh, w, l, c, o) && l.DeqCas?
    ensures OtherPost(sh, w, l, c, o)
  {
  }

  /** The steps that change only the thread's own variables. */
  predicate OwnOnly<T>(l: Local<T>) {
    !(l.AllocCas? || l.FreeCas? || l.AllocRead? || l.Construct? || l.FreeLink? || l.EnqLink? || l.EnqHelp?
        || l.EnqSwing?
      || l.DeqHelp? || l.DeqCas?)
  }

  lemma OtherKeptByPrivate<T>(sh: Shared<T>, w: View, l: Local<T>, c: Choice<T>, o: Local<T>)
    requires OtherPre(sh, w, l, c, o) && OwnOnly(l)
    ensures OtherPost(sh, w, l, c, o)
  {
  }

  /** What any other thread relies on is not disturbed. */
  lemma OtherKept<T>(sh: Shared<T>, w: View, l: Local<T>, c: Choice<T>, o: Local<T>)
    requires OtherPre(sh, w, l, c, o)
    ensures OtherPost(sh, w, l, c, o)
  {
    hide OtherPre, OtherPost;
    if l.AllocCas? {
      OtherKeptByAlloc(sh, w, l, c, o);
    } else if l.FreeCas? {
      OtherKeptByFree(sh, w, l, c, o);
    } else if l.AllocRead? {
      OtherKeptByCreate(sh, w, l, c, o);
    } else if l.Construct? || l.FreeLink? {
      OtherKeptByPrivateWrite(sh, w, l, c, o);
    } else if l.EnqLink? {
      OtherKeptByLink(sh, w, l, c, o);
    } else if l.EnqHelp? || l.EnqSwing? || l.DeqHelp? {
      OtherKeptBySwing(sh, w, l, c, o);
    } else if l.DeqCas? {
      OtherKeptByPopHead(sh, w, l, c, o);
    } else {
      OtherKeptByPrivate(sh, w, l, c, o);
    }
  }

  lemma OwnersKept<T>(s: State<T>, w: View, t: Tid, c: Choice<T>, s': State<T>, u: Tid)
    requires Inv(s, w) && Next(s, t, c, s') && u in s.threads && u != t && Safe(s.sh, s.threads[t])
    ensures Own(s'.threads[t]) != NULL ==> Own(s'.threads[t]) != Own(s'.threads[u])
  {
    assert LocalInv(s.sh, w, s.threads[t]) && LocalInv(s.sh, w, s.threads[u]);
  }

  /** Every step of every thread keeps the invariant. */
  lemma InvKept<T>(s: State<T>, w: View, t: Tid, c: Choice<T>, s': State<T>)
    requires Inv(s, w) && Next(s, t, c, s')
    ensures Safe(s.sh, s.threads[t]) && Inv(s', ViewStep(s.sh, w, s.threads[t]))
  {
    InvSafe(s, w, t);
    var l := s.threads[t];
    ShapeKept(s.sh, w, l, c);
    SelfKept(s.sh, w, l, c);
    forall u | u in s.threads && u != t
      ensures LocalInv(s'.sh, ViewStep(s.sh, w, l), s'.threads[u])
    {
      OtherKept(s.sh, w, l, c, s.threads[u]);
    }
    forall u | u in s.threads && u != t
      ensures Own(s'.threads[t]) != NULL ==> Own(s'.threads[t]) != Own(s'.threads[u])
    {
      OwnersKept(s, w, t, c, s', u);
    }
  }

  ghost predicate Placed<T>(w: View, l: Local<T>, n: Addr) {
    n in w.live || n in w.free || n == Own(l)
  }

  lemma NodeKeptInLists<T>(sh: Shared<T>, w: View, l: Local<T>, c: Choice<T>, n: Addr)
    requires StepPre(sh, w, l, c) && n != NULL && Placed(w, l, n) && ViewStep(sh, w, l) != w
    ensures Placed(ViewStep(sh, w, l), LocalStep(sh, l, c), n)
  {
    assert n in w.live ==> n == w.live[0] || n in w.live[1..];
    assert n in w.free ==> n == w.free[0] || n in w.free[1..];
    if l.EnqLink? {
      assert n in w.live + [l.n] <==> n in w.live || n == l.n;
    } else if l.FreeCas? {
      assert n in [l.n] + w.free <==> n in w.free || n == l.n;
    }
  }

  /** A node the thread can see in one of the lists, or holds, stays so. */
  lemma NodeKept<T>(sh: Shared<T>, w: View, l: Local<T>, c: Choice<T>, n: Addr)
    requires StepPre(sh, w, l, c) && n in ShStep(sh, l, c).heap && (n in sh.heap ==> Placed(w, l, n))
    ensures Placed(ViewStep(sh, w, l), LocalStep(sh, l, c), n)
  {
    if ViewStep(sh, w, l) != w {
      NodeKeptInLists(sh, w, l, c, n);
    }
  }

  /** No node is ever lost track of. */
  lemma NoLeakKept<T>(s: State<T>, w: View, t: Tid, c: Choice<T>, s': State<T>)
    requires Inv(s, w) && NoLeak(s, w) && Next(s, t, c, s')
    ensures Safe(s.sh, s.threads[t]) && NoLeak(s', ViewStep(s.sh, w, s.threads[t]))
  {
    InvSafe(s, w, t);
    var w' := ViewStep(s.sh, w, s.threads[t]);
    forall n | n in s'.sh.heap ensures n in w'.live || n in w'.free || Owned(s', n) {
      if n !in s.sh.heap || Placed(w, s.threads[t], n) {
        NodeKept(s.sh, w, s.threads[t], c, n);
        assert t in s'.threads;
      } else {
        var u :| u in s.threads && Own(s.threads[u]) == n;
        assert u != t && u in s'.threads && s'.threads[u] == s.threads[u];
      }
    }
  }
}
