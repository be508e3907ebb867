/** The locked queue makes progress: it never deadlocks, and in any long enough stretch of
    steps a call returns, unless a push finds the queue full again and again. */
module LockedQueueProgress {
  import opened Wrappers
  import opened Sequences
  import opened Pointers
  import opened Sums
  import opened FifoSpec
  import opened LockedQueue
  import opened LockedQueueProof
  import opened LockedQueueTheorems
  import opened LockedQueueRefinement
  import opened LockedQueueCalls

  // ---------------------------------------------------------------- no deadlock

  /** A thread whose next step takes the tail lock, respectively the head lock. */
  predicate WantsTail<T>(l: Local<T>) { l.PushLock? || l.PopLock? || l.PopWoken? || l.ClearTailLock? }

  predicate WantsHead<T>(l: Local<T>) { l.DeqLock? || l.ClearHeadLock? }

  lemma LockHolder<T>(s: State<T>, w: View, t: Tid)
    requires Inv(s, w) && t in s.threads
    ensures HoldsTail(s.threads[t]) <==> s.sh.tailLock == Some(t)
    ensures HoldsHead(s.threads[t]) <==> s.sh.headLock == Some(t)
  {
    hide VersionChain, IdleChain, Distinct;
    assert LocalInv(s.sh, w, t, s.threads[t]);
  }

  /** A thread that cannot go on, and is not asleep, waits for a lock that another holds. */
  lemma BlockedByLock<T>(g: Config, s: State<T>, t: Tid, n: Addr)
    requires t in s.threads && !s.threads[t].Idle? && !s.threads[t].PopWaiting?
    requires n != NULL && n !in s.sh.heap
    ensures || Enabled(g, s, t, Go) || Enabled(g, s, t, Fresh(n))
            || (WantsTail(s.threads[t]) && s.sh.tailLock.Some?) || (WantsHead(s.threads[t]) && s.sh.headLock.Some?)
  {
  }

  /** Locks are held by threads of the system. */
  ghost predicate LocksHeld<T>(s: State<T>) {
    && (s.sh.tailLock.Some? ==> s.sh.tailLock.value in s.threads)
    && (s.sh.headLock.Some? ==> s.sh.headLock.value in s.threads)
  }

  lemma {:induction false} LocksHeldAt<T>(g: Config, ss: seq<State<T>>, ts: seq<Tid>, cs: seq<Choice<T>>, k: nat)
    requires Run(g, ss, ts, cs) && k < |ss|
    ensures LocksHeld(ss[k])
  {
    hide Inv, LocalStep, Wake;
    if k > 0 {
      LocksHeldAt(g, ss, ts, cs, k - 1);
      StepAt(g, ss, ts, cs, k - 1);
      LocksKept(ss[k - 1].sh, ts[k - 1], ss[k - 1].threads[ts[k - 1]], cs[k - 1]);
      ThreadsStay(g, ss[k - 1], ts[k - 1], cs[k - 1]);
    }
  }

  lemma ThreadsStay<T>(g: Config, s: State<T>, t: Tid, c: Choice<T>)
    requires t in s.threads && Safe(s.sh, s.threads[t])
    ensures Step(g, s, t, c).threads.Keys == s.threads.Keys
  {
  }

  lemma LocksKept<T>(sh: Shared<T>, t: Tid, l: Local<T>, c: Choice<T>)
    requires Safe(sh, l)
    ensures var sh' := ShStep(sh, t, l, c);
            && (sh'.tailLock == sh.tailLock || sh'.tailLock == Some(t) || sh'.tailLock.None?)
            && (sh'.headLock == sh.headLock || sh'.headLock == Some(t) || sh'.headLock.None?)
  {
  }

  /** No deadlock: at every point of every run at which some thread is inside a call and not
      asleep, some thread inside a call can take a step. */
  lemma NoDeadlock<T>(g: Config, ss: seq<State<T>>, ts: seq<Tid>, cs: seq<Choice<T>>, k: nat, t: Tid)
    returns (u: Tid, c: Choice<T>)
    requires Run(g, ss, ts, cs) && k < |ss|
    requires t in ss[k].threads && !ss[k].threads[t].Idle? && !ss[k].threads[t].PopWaiting?
    ensures u in ss[k].threads && !ss[k].threads[u].Idle? && Enabled(g, ss[k], u, c)
  {
    hide Inv, Accounting;
    RunGood(g, ss, ts, cs, k);
    LocksHeldAt(g, ss, ts, cs, k);
    var s, w := ss[k], ViewAt(ss, ts, k);
    var n := Unused(s.sh.heap.Keys);
    u := t;
    LockHolder(s, w, u);
    BlockedByLock(g, s, u, n);
    if WantsTail(s.threads[u]) && s.sh.tailLock.Some? {
      u := s.sh.tailLock.value;
      LockHolder(s, w, u);
      BlockedByLock(g, s, u, n);
    }
    if WantsHead(s.threads[u]) && s.sh.headLock.Some? {
      u := s.sh.headLock.value;
      LockHolder(s, w, u);
      BlockedByLock(g, s, u, n);
    }
    c := if Enabled(g, s, u, Go) then Go else Fresh(n);
  }

  // ---------------------------------------------------------------- the measure

  /** How many more times a thread can link a node or wake a consumer before its call returns. */
  function Changes<T>(l: Local<T>): nat {
    match l
    case Idle | PushCheck(_) | PushCreate(_) | PushLock(_, _) | PushVersion(_, _) | PushLink(_, _) => 2
    case PushTail(_) | PushSize | PushWake => 1
    case _ => 0
  }

  /** A waiting pop that has seen the queue empty still sees no later version. */
  ghost predicate Current<T>(sh: Shared<T>, w: View, l: Local<T>)
    requires w.live != [] && VersionChain(sh.heap, w.live)
  {
    match l
    case DeqVersion(_) => |w.live| == 1
    case PopLock(version) => version == sh.heap[Last(w.live)].version
    case PopCheck(version) => version == sh.heap[Last(w.live)].version
    case _ => true
  }

  function Ahead<T>(l: Local<T>): nat {
    match l
    case Idle => 6
    case PushCheck(_) => 5
    case PushCreate(_) => 4
    case PushLock(_, _) => 3
    case PushVersion(_, _) => 2
    case PushLink(_, _) => 1
    case PushTail(_) => 3
    case PushSize => 2
    case PushWake => 1
    case PushUnlock => 1
    case DeqLock(_) => 8
    case DeqRead(_) => 7
    case DeqVersion(_) => 3
    case DeqCopy(_, _) => 6
    case DeqMove(_, _, _) => 5
    case DeqUnlock(_, _) => 4
    case DeqDestroy(_, _) => 3
    case DeqDec(_) => 2
    case PopReturn(_) => 1
    case PopLock(_) => 2
    case PopCheck(_) => 1
    case PopWaiting => 0
    case PopWoken => 10
    case PopUnlock => 9
    case ClearTailLock => 4
    case ClearHeadLock => 3
    case ClearLoop => 2
    case ClearDec => 3
    case ClearUnlock => 1
  }

  /** A waiting pop that a push has overtaken tries again. */
  ghost function Distance<T>(sh: Shared<T>, w: View, l: Local<T>): nat
    requires w.live != [] && VersionChain(sh.heap, w.live)
  {
    if Current(sh, w, l) then Ahead(l) else Ahead(l) + 9
  }

  const FARTHEST: nat := 12

  /** The weight of one change, for `n` threads. */
  function Weight(n: nat): nat { FARTHEST * n + FARTHEST + 3 }

  function Weighted(changes: nat, k: nat): nat {
    if changes == 0 then 0 else if changes == 1 then k else k + k
  }

  ghost function Left<T>(sh: Shared<T>, w: View, l: Local<T>, k: nat): nat
    requires w.live != [] && VersionChain(sh.heap, w.live)
  {
    Weighted(Changes(l), k) + Distance(sh, w, l)
  }

  ghost function LeftOf<T>(s: State<T>, w: View, k: nat): nat -> nat
    requires w.live != [] && VersionChain(s.sh.heap, w.live)
  {
    t => if t in s.threads then Left(s.sh, w, s.threads[t], k) else 0
  }

  /** An upper bound on the steps until some call returns; each queued value may cost a clear
      two more. */
  ghost function StepsLeft<T>(s: State<T>, w: View): nat
    requires w.live != [] && VersionChain(s.sh.heap, w.live)
  {
    Sum(s.threads.Keys, LeftOf(s, w, Weight(|s.threads.Keys|))) + 2 * |w.live|
  }

  /** The same for `n` threads and `items` values in the queue. */
  function Bound(n: nat, items: nat): nat { (2 * Weight(n) + FARTHEST) * n + 2 * (items + 1) }

  // ---------------------------------------------------------------- one step

  predicate Returning<T>(l: Local<T>) { l.PushUnlock? || l.PopReturn? || l.ClearUnlock? }

  /** A push finds the queue full: a counter at the limit or, read as an unsigned number, above. */
  predicate FindsFull<T>(g: Config, sh: Shared<T>, l: Local<T>) {
    l.PushCheck? && g.maxSize > 0 && (sh.size >= g.maxSize || sh.size < 0)
  }

  predicate Counts<T>(g: Config, sh: Shared<T>, l: Local<T>) { !Returning(l) && !FindsFull(g, sh, l) }

  predicate Moves<T>(l: Local<T>) { l.PushLink? || l.PushWake? }

  lemma WithinFarthest<T>(sh: Shared<T>, w: View, l: Local<T>)
    requires w.live != [] && VersionChain(sh.heap, w.live)
    ensures Distance(sh, w, l) <= FARTHEST
  {
  }

  ghost predicate SelfPre<T>(g: Config, sh: Shared<T>, w: View, t: Tid, l: Local<T>, c: Choice<T>, k: nat) {
    && StepPre(sh, w, t, l, c) && Counts(g, sh, l) && !Moves(l) && k > FARTHEST + 2 && Safe(sh, l)
    && Shape(ShStep(sh, t, l, c), ViewStep(sh, w, t, l))
    && (l.Idle? ==> c.Push? || c.Pop? || c.Clear?)
  }

  ghost predicate SelfDrops<T>(g: Config, sh: Shared<T>, w: View, t: Tid, l: Local<T>, c: Choice<T>, k: nat)
    requires Safe(sh, l) && Shape(sh, w) && Shape(ShStep(sh, t, l, c), ViewStep(sh, w, t, l))
  {
    var sh', w', l' := ShStep(sh, t, l, c), ViewStep(sh, w, t, l), LocalStep(g, sh, l, c);
    Left(sh', w', l', k) + 2 * |w'.live| < Left(sh, w, l, k) + 2 * |w.live|
  }

  predicate Looking<T>(l: Local<T>) { l.DeqRead? || l.DeqVersion? || l.PopLock? || l.PopCheck? }

  predicate Taking<T>(l: Local<T>) {
    l.DeqLock? || l.DeqCopy? || l.DeqMove? || l.DeqUnlock? || l.DeqDestroy? || l.DeqDec? || l.PopWoken? || l.PopUnlock?
  }

  lemma QuietLooking<T>(g: Config, sh: Shared<T>, w: View, t: Tid, l: Local<T>, c: Choice<T>, k: nat)
    requires SelfPre(g, sh, w, t, l, c, k) && Looking(l)
    ensures SelfDrops(g, sh, w, t, l, c, k)
  {
    hide IdleChain, Distinct;
    assert |w.live| >= 2 ==> sh.heap[w.live[0]].next == w.live[1];
  }

  lemma QuietTaking<T>(g: Config, sh: Shared<T>, w: View, t: Tid, l: Local<T>, c: Choice<T>, k: nat)
    requires SelfPre(g, sh, w, t, l, c, k) && Taking(l)
    ensures SelfDrops(g, sh, w, t, l, c, k)
  {
    hide IdleChain, Distinct, VersionChain;
  }

  lemma QuietClear<T>(g: Config, sh: Shared<T>, w: View, t: Tid, l: Local<T>, c: Choice<T>, k: nat)
    requires SelfPre(g, sh, w, t, l, c, k) && (Clearing(l) || l.ClearTailLock? || l.ClearHeadLock?)
    ensures SelfDrops(g, sh, w, t, l, c, k)
  {
    hide IdleChain, Distinct, VersionChain;
    FirstQueued(sh, w);
  }

  lemma QuietPush<T>(g: Config, sh: Shared<T>, w: View, t: Tid, l: Local<T>, c: Choice<T>, k: nat)
    requires SelfPre(g, sh, w, t, l, c, k) && !Looking(l) && !Taking(l) && !Clearing(l) && !l.ClearTailLock?
             && !l.ClearHeadLock?
    ensures SelfDrops(g, sh, w, t, l, c, k)
  {
    hide IdleChain, Distinct;
  }

  /** The thread's own share of a step that neither links a node nor wakes a consumer. */
  lemma QuietSelf<T>(g: Config, sh: Shared<T>, w: View, t: Tid, l: Local<T>, c: Choice<T>, k: nat)
    requires SelfPre(g, sh, w, t, l, c, k)
    ensures SelfDrops(g, sh, w, t, l, c, k)
  {
    hide SelfPre, SelfDrops;
    if Looking(l) {
      QuietLooking(g, sh, w, t, l, c, k);
    } else if Taking(l) {
      QuietTaking(g, sh, w, t, l, c, k);
    } else if Clearing(l) || l.ClearTailLock? || l.ClearHeadLock? {
      QuietClear(g, sh, w, t, l, c, k);
    } else {
      QuietPush(g, sh, w, t, l, c, k);
    }
  }

  lemma QuietOther<T>(sh: Shared<T>, w: View, t: Tid, l: Local<T>, c: Choice<T>, u: Tid, o: Local<T>)
    requires StepPre(sh, w, t, l, c) && !Moves(l) && Safe(sh, l) && LocalInv(sh, w, u, o) && u != t
    requires Shape(ShStep(sh, t, l, c), ViewStep(sh, w, t, l))
    ensures Distance(ShStep(sh, t, l, c), ViewStep(sh, w, t, l), o) <= Distance(sh, w, o)
  {
    hide IdleChain, Distinct;
  }

  lemma MoveSelf<T>(g: Config, sh: Shared<T>, w: View, t: Tid, l: Local<T>, c: Choice<T>, k: nat)
    requires StepPre(sh, w, t, l, c) && Moves(l) && Safe(sh, l)
    requires Shape(ShStep(sh, t, l, c), ViewStep(sh, w, t, l))
    ensures var sh', w', l' := ShStep(sh, t, l, c), ViewStep(sh, w, t, l), LocalStep(g, sh, l, c);
            Left(sh', w', l', k) + k + 2 * |w'.live| <= Left(sh, w, l, k) + 2 * |w.live| + 5
  {
    hide IdleChain, Distinct, VersionChain;
  }

  lemma OthersLeft<T>(g: Config, s: State<T>, w: View, t: Tid, c: Choice<T>, u: Tid, k: nat)
    requires Inv(s, w) && Enabled(g, s, t, c) && Safe(s.sh, s.threads[t]) && u in s.threads && u != t
    requires Shape(ShStep(s.sh, t, s.threads[t], c), ViewStep(s.sh, w, t, s.threads[t]))
    ensures var s', w' := Step(g, s, t, c), ViewStep(s.sh, w, t, s.threads[t]);
            && LeftOf(s', w', k)(u) <= LeftOf(s, w, k)(u) + FARTHEST
            && (!Moves(s.threads[t]) ==> LeftOf(s', w', k)(u) <= LeftOf(s, w, k)(u))
  {
    hide Changes, Distance, Weighted, ShStep, ViewStep, LocalStep, IdleChain, Distinct, VersionChain;
    StepReady(g, s, w, t, c);
    OthersWake(g, s, t, c, u);
    var s', w' := Step(g, s, t, c), ViewStep(s.sh, w, t, s.threads[t]);
    assert LocalInv(s.sh, w, u, s.threads[u]);
    WithinFarthest(s'.sh, w', s'.threads[u]);
    SameChanges(s.threads[u], s'.threads[u]);
    if !Moves(s.threads[t]) {
      OthersStill(g, s, t, c, u);
      QuietOther(s.sh, w, t, s.threads[t], c, u, s.threads[u]);
    }
  }

  lemma SameChanges<T>(l: Local<T>, l': Local<T>)
    requires l' == l || (l.PopWaiting? && l'.PopWoken?)
    ensures Changes(l') == Changes(l)
  {
  }

  lemma OthersStill<T>(g: Config, s: State<T>, t: Tid, c: Choice<T>, u: Tid)
    requires Enabled(g, s, t, c) && Safe(s.sh, s.threads[t]) && u in s.threads && u != t && !s.threads[t].PushWake?
    ensures Step(g, s, t, c).threads[u] == s.threads[u]
  {
  }

  /** Every step that is not a return, nor a push finding the queue full, uses up some of the
      steps left. */
  lemma StepsDrop<T>(g: Config, s: State<T>, w: View, t: Tid, c: Choice<T>)
    requires Inv(s, w) && Enabled(g, s, t, c) && Safe(s.sh, s.threads[t]) && Counts(g, s.sh, s.threads[t])
    requires Shape(ShStep(s.sh, t, s.threads[t], c), ViewStep(s.sh, w, t, s.threads[t]))
    ensures var s', w' := Step(g, s, t, c), ViewStep(s.sh, w, t, s.threads[t]);
            s'.threads.Keys == s.threads.Keys && StepsLeft(s', w') < StepsLeft(s, w)
  {
    hide Sum, Left, ShStep, ViewStep, LocalStep, IdleChain, Distinct, VersionChain, Wake;
    StepReady(g, s, w, t, c);
    var keys, l := s.threads.Keys, s.threads[t];
    var s', w' := Step(g, s, t, c), ViewStep(s.sh, w, t, l);
    ThreadsStay(g, s, t, c);
    var k := Weight(|keys|);
    var f, f' := LeftOf(s, w, k), LeftOf(s', w', k);
    var m := if Moves(l) then FARTHEST else 0;
    forall u | u in keys && u != t
      ensures f'(u) <= f(u) + m
    {
      OthersLeft(g, s, w, t, c, u, k);
    }
    SumStep(keys, f, f', t, m);
    if Moves(l) {
      MoveSelf(g, s.sh, w, t, l, c, k);
    } else {
      QuietSelf(g, s.sh, w, t, l, c, k);
    }
  }

  lemma StepsBound<T>(s: State<T>, w: View)
    requires w.live != [] && VersionChain(s.sh.heap, w.live)
    ensures StepsLeft(s, w) <= Bound(|s.threads.Keys|, |Queued(s.sh.heap, w.live)|)
  {
    hide Sum, Distance, VersionChain;
    var k := Weight(|s.threads.Keys|);
    forall t | t in s.threads.Keys
      ensures LeftOf(s, w, k)(t) <= 2 * k + FARTHEST
    {
      WithinFarthest(s.sh, w, s.threads[t]);
    }
    SumBound(s.threads.Keys, LeftOf(s, w, k), 2 * k + FARTHEST);
  }

  // ---------------------------------------------------------------- runs

  lemma ReturningReturns<T>(l: Local<T>, t: Tid, c: Choice<T>)
    ensures Returning(l) <==> IsReturn(EventOf(l, t, c))
  {
  }

  /** Step `k` is a return, or a push that finds the queue full. */
  ghost predicate ReturnsOrFull<T>(g: Config, ss: seq<State<T>>, ts: seq<Tid>, cs: seq<Choice<T>>, k: nat)
    requires k < |ts| == |cs| < |ss|
  {
    ts[k] in ss[k].threads
    && (IsReturn(EventOf(ss[k].threads[ts[k]], ts[k], cs[k])) || FindsFull(g, ss[k].sh, ss[k].threads[ts[k]]))
  }

  lemma StepUsed<T>(g: Config, ss: seq<State<T>>, ts: seq<Tid>, cs: seq<Choice<T>>, k: nat)
    requires Run(g, ss, ts, cs) && k < |ts| && !ReturnsOrFull(g, ss, ts, cs, k)
    ensures Inv(ss[k], ViewAt(ss, ts, k)) && Inv(ss[k + 1], ViewAt(ss, ts, k + 1))
    ensures ss[k + 1].threads.Keys == ss[k].threads.Keys
    ensures StepsLeft(ss[k + 1], ViewAt(ss, ts, k + 1)) < StepsLeft(ss[k], ViewAt(ss, ts, k))
  {
    hide StepsLeft, Accounting, ShStep, ViewStep, LocalStep, Init, VersionChain, IdleChain, Distinct;
    StepAt(g, ss, ts, cs, k);
    RunGood(g, ss, ts, cs, k + 1);
    ReturningReturns(ss[k].threads[ts[k]], ts[k], cs[k]);
    StepsDrop(g, ss[k], ViewAt(ss, ts, k), ts[k], cs[k]);
  }

  lemma {:induction false} StepsUsed<T>(g: Config, ss: seq<State<T>>, ts: seq<Tid>, cs: seq<Choice<T>>, i: nat, j: nat)
    requires Run(g, ss, ts, cs) && i <= j <= |ts| && forall k :: i <= k < j ==> !ReturnsOrFull(g, ss, ts, cs, k)
    ensures Inv(ss[i], ViewAt(ss, ts, i)) && Inv(ss[j], ViewAt(ss, ts, j))
    ensures StepsLeft(ss[j], ViewAt(ss, ts, j)) + (j - i) <= StepsLeft(ss[i], ViewAt(ss, ts, i))
    decreases j - i
  {
    hide StepsLeft, Accounting, ReturnsOrFull, Init, Next, LocalInv, ViewAt, IdleChain, VersionChain, Own, Distinct;
    RunGood(g, ss, ts, cs, i);
    if i < j {
      StepsUsed(g, ss, ts, cs, i, j - 1);
      StepUsed(g, ss, ts, cs, j - 1);
    }
  }

  /** Progress: in every run of `n` threads, starting with any number of values in the queue,
      among any Bound(n, values) + 1 steps in a row at least one is the return of a call or a
      push that finds the queue full. */
  lemma Progress<T>(g: Config, ss: seq<State<T>>, ts: seq<Tid>, cs: seq<Choice<T>>, i: nat, steps: nat) returns (k: nat)
    requires Run(g, ss, ts, cs) && i < |ss| && i + steps < |ts| && Inv(ss[i], ViewAt(ss, ts, i))
    requires steps == Bound(|ss[i].threads.Keys|, |Queued(ss[i].sh.heap, ViewAt(ss, ts, i).live)|)
    ensures i <= k <= i + steps && ReturnsOrFull(g, ss, ts, cs, k)
  {
    hide StepsLeft, ReturnsOrFull, Bound, Accounting, Init, Next;
    var j := i + steps + 1;
    if forall k :: i <= k < j ==> !ReturnsOrFull(g, ss, ts, cs, k) {
      StepsUsed(g, ss, ts, cs, i, j);
      StepsBound(ss[i], ViewAt(ss, ts, i));
      assert false;
    }
    k :| i <= k < j && ReturnsOrFull(g, ss, ts, cs, k);
  }
}
