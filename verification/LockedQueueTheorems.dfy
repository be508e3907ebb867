/** No lost wakeup and bounded capacity of the locked queue. */
module LockedQueueTheorems {
  import opened Wrappers
  import opened Sequences
  import opened Pointers
  import FifoSpec
  import opened LockedQueue
  import opened LockedQueueProof

  // ---------------------------------------------------------------- counting threads

  ghost function Members<T>(threads: map<Tid, Local<T>>, p: Local<T> -> bool): set<Tid> {
    set t | t in threads && p(threads[t])
  }

  ghost function Count<T>(threads: map<Tid, Local<T>>, p: Local<T> -> bool): nat {
    |Members(threads, p)|
  }

  function Bit(b: bool): nat { if b then 1 else 0 }

  lemma CountUpdate<T>(threads: map<Tid, Local<T>>, t: Tid, l: Local<T>, p: Local<T> -> bool)
    requires t in threads
    ensures Count(threads[t := l], p) == Count(threads, p) - Bit(p(threads[t])) + Bit(p(l))
  {
    hide Members, Bit;
    MembersUpdate(threads, t, l, p);
    WithOrWithout(Members(threads, p), t);
    WithOrWithout(Members(threads[t := l], p), t);
  }

  lemma MembersUpdate<T>(threads: map<Tid, Local<T>>, t: Tid, l: Local<T>, p: Local<T> -> bool)
    requires t in threads
    ensures var before, after := Members(threads, p), Members(threads[t := l], p);
            after - {t} == before - {t} && (t in before) == p(threads[t]) && (t in after) == p(l)
  {
  }

  lemma WithOrWithout(xs: set<Tid>, t: Tid)
    ensures |xs| == |xs - {t}| + Bit(t in xs)
  {
    if t !in xs {
      assert xs - {t} == xs;
    }
  }

  lemma CountSubset<T>(threads: map<Tid, Local<T>>, p: Local<T> -> bool, q: Local<T> -> bool)
    requires forall t :: t in threads && p(threads[t]) ==> q(threads[t])
    ensures Count(threads, p) <= Count(threads, q)
  {
    FifoSpec.SubsetSize(Members(threads, p), Members(threads, q));
  }

  lemma CountStep<T>(g: Config, s: State<T>, w: View, t: Tid, c: Choice<T>, p: Local<T> -> bool)
    requires Inv(s, w) && Enabled(g, s, t, c) && Safe(s.sh, s.threads[t])
    ensures var l, s' := s.threads[t], Step(g, s, t, c);
            Count(s'.threads, p) + Bit(p(l)) + Bit(l.PushWake? && w.idle != [] && p(PopWaiting))
            == Count(s.threads, p) + Bit(p(s'.threads[t])) + Bit(l.PushWake? && w.idle != [] && p(PopWoken))
  {
    var l, s' := s.threads[t], Step(g, s, t, c);
    assert LocalInv(s.sh, w, t, l);
    if l.PushWake? && w.idle != [] {
      var u := w.idle[0];
      assert u in w.idle && LocalInv(s.sh, w, u, s.threads[u]);
      CountUpdate(s.threads, u, PopWoken, p);
      CountUpdate(s.threads[u := PopWoken], t, s'.threads[t], p);
    } else {
      CountUpdate(s.threads, t, s'.threads[t], p);
    }
  }

  /** A consumer inside pop that is awake and has not taken an item yet. */
  predicate Seeking<T>(l: Local<T>) {
    (l.DeqLock? && l.wait) || (l.DeqRead? && l.wait) || (l.DeqVersion? && l.wait) || (l.DeqCopy? && l.wait)
    || (l.DeqMove? && l.wait) || l.PopLock? || l.PopCheck? || l.PopUnlock? || l.PopWoken?
  }

  /** A producer that has linked its node but not woken anybody yet. */
  predicate Announcing<T>(l: Local<T>) { l.PushTail? || l.PushSize? || l.PushWake? }

  /** Linked but not counted, and unlinked but still counted. */
  predicate Uncounted<T>(l: Local<T>) { l.PushTail? || l.PushSize? }
  predicate Overcounted<T>(l: Local<T>) { l.DeqUnlock? || l.DeqDestroy? || l.DeqDec? || l.ClearDec? }

  /** A producer that has passed the size check and not incremented the counter yet. */
  predicate Committed<T>(l: Local<T>) {
    l.PushCreate? || l.PushLock? || l.PushVersion? || l.PushLink? || l.PushTail? || l.PushSize?
  }

  predicate Pushing<T>(l: Local<T>) { l.PushCheck? || Committed(l) }

  // ---------------------------------------------------------------- the accounting invariant

  ghost predicate Accounting<T>(g: Config, s: State<T>, w: View) {
    && s.sh.size == |w.live| - 1 - Count(s.threads, Uncounted) + Count(s.threads, Overcounted)
    && (forall t :: t in s.threads && Pushing(s.threads[t]) ==> t in g.producers)
    && (g.maxSize > 0 ==> s.sh.size + Count(s.threads, Committed) <= g.maxSize - 1 + |g.producers|)
    && (w.idle != [] ==> |w.live| - 1 <= Count(s.threads, Seeking) + Count(s.threads, Announcing))
  }

  lemma SizeDelta<T>(g: Config, sh: Shared<T>, w: View, t: Tid, l: Local<T>, c: Choice<T>)
    requires StepPre(sh, w, t, l, c)
    ensures var l' := LocalStep(g, sh, l, c);
            ShStep(sh, t, l, c).size - sh.size
            == |ViewStep(sh, w, t, l).live| - |w.live| - Bit(Uncounted(l')) + Bit(Uncounted(l))
               + Bit(Overcounted(l')) - Bit(Overcounted(l))
  {
  }

  lemma SizeKept<T>(g: Config, s: State<T>, w: View, t: Tid, c: Choice<T>)
    requires Inv(s, w) && Accounting(g, s, w) && Enabled(g, s, t, c) && Safe(s.sh, s.threads[t])
    ensures var s', w' := Step(g, s, t, c), ViewStep(s.sh, w, t, s.threads[t]);
            s'.sh.size == |w'.live| - 1 - Count(s'.threads, Uncounted) + Count(s'.threads, Overcounted)
  {
    StepReady(g, s, w, t, c);
    SizeDelta(g, s.sh, w, t, s.threads[t], c);
    CountStep(g, s, w, t, c, Uncounted);
    CountStep(g, s, w, t, c, Overcounted);
  }

  /** A step that leaves consumers idle adds at most as many items as it adds awake
      consumers or pending announcements; going to sleep happens on an empty queue. */
  lemma WakeupDelta<T>(g: Config, sh: Shared<T>, w: View, t: Tid, l: Local<T>, c: Choice<T>)
    requires StepPre(sh, w, t, l, c)
    ensures var l', w' := LocalStep(g, sh, l, c), ViewStep(sh, w, t, l);
            w'.idle != [] ==>
              || |w'.live| == 1
              || (w.idle != [] &&
                  |w'.live| - |w.live| <= Bit(Seeking(l')) - Bit(Seeking(l)) + Bit(Announcing(l')) - Bit(Announcing(l))
                                          + Bit(l.PushWake? && w.idle != []))
  {
  }

  lemma WakeupsKept<T>(g: Config, s: State<T>, w: View, t: Tid, c: Choice<T>)
    requires Inv(s, w) && Accounting(g, s, w) && Enabled(g, s, t, c) && Safe(s.sh, s.threads[t])
    ensures var s', w' := Step(g, s, t, c), ViewStep(s.sh, w, t, s.threads[t]);
            w'.idle != [] ==> |w'.live| - 1 <= Count(s'.threads, Seeking) + Count(s'.threads, Announcing)
  {
    StepReady(g, s, w, t, c);
    WakeupDelta(g, s.sh, w, t, s.threads[t], c);
    CountStep(g, s, w, t, c, Seeking);
    CountStep(g, s, w, t, c, Announcing);
  }

  lemma CapacityDelta<T>(g: Config, sh: Shared<T>, w: View, t: Tid, l: Local<T>, c: Choice<T>)
    requires StepPre(sh, w, t, l, c)
    ensures var l', size' := LocalStep(g, sh, l, c), ShStep(sh, t, l, c).size;
            || size' + Bit(Committed(l')) <= sh.size + Bit(Committed(l))
            || (HasRoom(g, sh.size) && size' == sh.size)
  {
  }

  lemma PushingStep<T>(g: Config, sh: Shared<T>, w: View, t: Tid, l: Local<T>, c: Choice<T>)
    requires StepPre(sh, w, t, l, c) && Pushing(LocalStep(g, sh, l, c))
    ensures Pushing(l) || (l.Idle? && c.Push?)
  {
  }

  lemma ProducersKept<T>(g: Config, s: State<T>, w: View, t: Tid, c: Choice<T>, u: Tid)
    requires Inv(s, w) && Enabled(g, s, t, c) && Safe(s.sh, s.threads[t])
    requires forall v :: v in s.threads && Pushing(s.threads[v]) ==> v in g.producers
    requires u in s.threads && Pushing(Step(g, s, t, c).threads[u])
    ensures u in g.producers
  {
    if u != t {
      ThreadsAfter(g, s, w, t, c, u);
    } else {
      StepReady(g, s, w, t, c);
      PushingStep(g, s.sh, w, t, s.threads[t], c);
    }
  }

  lemma CommittedAreProducers<T>(g: Config, threads: map<Tid, Local<T>>)
    requires forall u :: u in threads && Pushing(threads[u]) ==> u in g.producers
    ensures Count(threads, Committed) <= |g.producers|
  {
    FifoSpec.SubsetSize(Members(threads, Committed), g.producers);
  }

  lemma CapacityKept<T>(g: Config, s: State<T>, w: View, t: Tid, c: Choice<T>)
    requires Inv(s, w) && Accounting(g, s, w) && Enabled(g, s, t, c) && Safe(s.sh, s.threads[t])
    requires forall u :: u in s.threads && Pushing(Step(g, s, t, c).threads[u]) ==> u in g.producers
    ensures var s' := Step(g, s, t, c);
            g.maxSize > 0 ==> s'.sh.size + Count(s'.threads, Committed) <= g.maxSize - 1 + |g.producers|
  {
    StepReady(g, s, w, t, c);
    CapacityDelta(g, s.sh, w, t, s.threads[t], c);
    CountStep(g, s, w, t, c, Committed);
    CommittedAreProducers(g, Step(g, s, t, c).threads);
  }

  lemma AccountingKept<T>(g: Config, s: State<T>, w: View, t: Tid, c: Choice<T>, s': State<T>)
    requires Inv(s, w) && Accounting(g, s, w) && Next(g, s, t, c, s')
    ensures Safe(s.sh, s.threads[t]) && Accounting(g, s', ViewStep(s.sh, w, t, s.threads[t]))
  {
    InvSafe(s, w, t);
    SizeKept(g, s, w, t, c);
    WakeupsKept(g, s, w, t, c);
    forall u | u in s'.threads && Pushing(s'.threads[u]) ensures u in g.producers {
      ProducersKept(g, s, w, t, c, u);
    }
    CapacityKept(g, s, w, t, c);
  }

  // ---------------------------------------------------------------- the queued values

  ghost function Queued<T>(heap: map<Addr, Node<T>>, live: seq<Addr>): seq<T>
    requires live != [] && VersionChain(heap, live)
  {
    seq(|live| - 1, i requires 0 <= i < |live| - 1 => heap[live[i + 1]].data)
  }

  /** The queued values change only by appending the pushed value or removing the first. */
  ghost predicate ItemsEffect<T>(sh: Shared<T>, w: View, t: Tid, l: Local<T>, c: Choice<T>)
    requires StepPre(sh, w, t, l, c)
    requires Shape(ShStep(sh, t, l, c), ViewStep(sh, w, t, l))
  {
    var items, items' := Queued(sh.heap, w.live), Queued(ShStep(sh, t, l, c).heap, ViewStep(sh, w, t, l).live);
    match l
    case PushLink(v, _) => items' == items + [v]
    case DeqMove(_, _, v) => items == [v] + items'
    case ClearLoop =>
      if sh.heap[sh.head].next == NULL then items' == items
      else sh.heap[sh.head].next in sh.heap && items == [sh.heap[sh.heap[sh.head].next].data] + items'
    case _ => items' == items
  }

  lemma ItemsAppended<T>(sh: Shared<T>, w: View, t: Tid, l: Local<T>, c: Choice<T>)
    requires StepPre(sh, w, t, l, c) && l.PushLink?
    requires Shape(ShStep(sh, t, l, c), ViewStep(sh, w, t, l))
    ensures ItemsEffect(sh, w, t, l, c)
  {
  }

  lemma ItemsShifted<T>(sh: Shared<T>, w: View, t: Tid, l: Local<T>, c: Choice<T>)
    requires StepPre(sh, w, t, l, c) && MovesHead(l)
    requires Shape(ShStep(sh, t, l, c), ViewStep(sh, w, t, l))
    ensures ItemsEffect(sh, w, t, l, c)
  {
  }

  lemma ItemsUntouched<T>(sh: Shared<T>, w: View, t: Tid, l: Local<T>, c: Choice<T>)
    requires StepPre(sh, w, t, l, c) && !l.PushLink? && !MovesHead(l)
    requires Shape(ShStep(sh, t, l, c), ViewStep(sh, w, t, l))
    ensures ItemsEffect(sh, w, t, l, c)
  {
  }

  lemma ItemsStep<T>(sh: Shared<T>, w: View, t: Tid, l: Local<T>, c: Choice<T>)
    requires StepPre(sh, w, t, l, c)
    requires Shape(ShStep(sh, t, l, c), ViewStep(sh, w, t, l))
    ensures ItemsEffect(sh, w, t, l, c)
  {
    if l.PushLink? {
      ItemsAppended(sh, w, t, l, c);
    } else if MovesHead(l) {
      ItemsShifted(sh, w, t, l, c);
    } else {
      ItemsUntouched(sh, w, t, l, c);
    }
  }

  ghost predicate Good<T>(g: Config, s: State<T>, w: View) {
    Inv(s, w) && Accounting(g, s, w)
  }

  // ---------------------------------------------------------------- runs

  /** A new queue: one dummy node of version 0, next version 1, nothing counted. */
  ghost predicate Init<T>(s: State<T>) {
    && s.sh.head == s.sh.tail && s.sh.head != NULL && s.sh.head in s.sh.heap
    && s.sh.heap[s.sh.head].next == NULL && s.sh.heap[s.sh.head].version == 0
    && s.sh.nextVersion == 1 && s.sh.size == 0 && s.sh.idle.None? && s.sh.headLock.None? && s.sh.tailLock.None?
    && forall t :: t in s.threads ==> s.threads[t].Idle?
  }

  ghost predicate Run<T>(g: Config, ss: seq<State<T>>, ts: seq<Tid>, cs: seq<Choice<T>>) {
    && |ss| == |ts| + 1 == |cs| + 1
    && Init(ss[0])
    && forall i :: 0 <= i < |ts| ==> Next(g, ss[i], ts[i], cs[i], ss[i + 1])
  }

  lemma InitGood<T>(g: Config, s: State<T>)
    requires Init(s)
    ensures Good(g, s, View([s.sh.head], []))
  {
    var w := View([s.sh.head], []);
    assert Members(s.threads, Uncounted) == {} == Members(s.threads, Overcounted);
    assert Members(s.threads, Committed) == {};
    assert Inv(s, w);
  }

  /** The lists after the first `k` steps of a run. */
  ghost function ViewAt<T>(ss: seq<State<T>>, ts: seq<Tid>, k: nat): View
    requires |ss| == |ts| + 1 && k <= |ts|
  {
    if k == 0 then View([ss[0].sh.head], [])
    else
      var s, t, w := ss[k - 1], ts[k - 1], ViewAt(ss, ts, k - 1);
      if t in s.threads && Safe(s.sh, s.threads[t]) then ViewStep(s.sh, w, t, s.threads[t]) else w
  }

  /** The invariant and the accounting hold at every point of every run. */
  lemma {:induction false} RunGood<T>(g: Config, ss: seq<State<T>>, ts: seq<Tid>, cs: seq<Choice<T>>, k: nat)
    requires Run(g, ss, ts, cs) && k <= |ts|
    ensures Good(g, ss[k], ViewAt(ss, ts, k))
  {
    hide Inv, Accounting, ViewStep, Safe;
    if k == 0 {
      InitGood(g, ss[0]);
    } else {
      var w := ViewAt(ss, ts, k - 1);
      RunGood(g, ss, ts, cs, k - 1);
      assert Next(g, ss[k - 1], ts[k - 1], cs[k - 1], ss[k - 1 + 1]);
      InvKept(g, ss[k - 1], w, ts[k - 1], cs[k - 1], ss[k]);
      AccountingKept(g, ss[k - 1], w, ts[k - 1], cs[k - 1], ss[k]);
    }
  }

  lemma NobodyAnnouncing<T>(s: State<T>, w: View)
    requires Inv(s, w) && s.sh.tailLock.None?
    ensures Count(s.threads, Announcing) == 0
  {
    forall t | t in s.threads ensures !Announcing(s.threads[t]) {
      assert LocalInv(s.sh, w, t, s.threads[t]);
    }
    assert Members(s.threads, Announcing) == {};
  }

  /** No lost wakeup: in every run, whenever the tail lock is free and some consumer
      sleeps, there are at least as many awake consumers still looking for an item as there
      are items in the queue. */
  lemma NoLostWakeup<T>(g: Config, ss: seq<State<T>>, ts: seq<Tid>, cs: seq<Choice<T>>, k: nat, t: Tid)
    requires Run(g, ss, ts, cs) && k <= |ts|
    requires ss[k].sh.tailLock.None? && t in ss[k].threads && ss[k].threads[t].PopWaiting?
    ensures Good(g, ss[k], ViewAt(ss, ts, k))
    ensures |Queued(ss[k].sh.heap, ViewAt(ss, ts, k).live)| <= Count(ss[k].threads, Seeking)
  {
    RunGood(g, ss, ts, cs, k);
    var w := ViewAt(ss, ts, k);
    NobodyAnnouncing(ss[k], w);
    assert LocalInv(ss[k].sh, w, t, ss[k].threads[t]);
  }

  /** With P producers the queue never holds more than MaxSize - 1 + P items. */
  lemma CapacityBound<T>(g: Config, ss: seq<State<T>>, ts: seq<Tid>, cs: seq<Choice<T>>, k: nat)
    requires Run(g, ss, ts, cs) && k <= |ts| && g.maxSize > 0
    ensures Good(g, ss[k], ViewAt(ss, ts, k))
    ensures |Queued(ss[k].sh.heap, ViewAt(ss, ts, k).live)| <= g.maxSize - 1 + |g.producers|
  {
    RunGood(g, ss, ts, cs, k);
    CountSubset(ss[k].threads, Uncounted, Committed);
  }

  /** A consumer goes to sleep only when the queue holds nothing. */
  lemma SleepsOnlyWhenEmpty<T>(g: Config, ss: seq<State<T>>, ts: seq<Tid>, cs: seq<Choice<T>>, k: nat)
    requires Run(g, ss, ts, cs) && k < |ts| && ts[k] in ss[k].threads && ss[k].threads[ts[k]].PopCheck?
    requires ts[k] in ss[k + 1].threads && ss[k + 1].threads[ts[k]].PopWaiting?
    ensures Good(g, ss[k], ViewAt(ss, ts, k))
    ensures Queued(ss[k].sh.heap, ViewAt(ss, ts, k).live) == []
  {
    RunGood(g, ss, ts, cs, k);
    var w := ViewAt(ss, ts, k);
    InvSafe(ss[k], w, ts[k]);
    assert Next(g, ss[k], ts[k], cs[k], ss[k + 1]);
    assert LocalInv(ss[k].sh, w, ts[k], ss[k].threads[ts[k]]);
  }

  /** A pop that will not wait reports "empty" only if the queue was empty when it looked. */
  lemma EmptyPopSawEmpty<T>(g: Config, ss: seq<State<T>>, ts: seq<Tid>, cs: seq<Choice<T>>, k: nat)
    requires Run(g, ss, ts, cs) && k < |ts| && ts[k] in ss[k].threads && ss[k].threads[ts[k]].DeqRead?
    requires ts[k] in ss[k + 1].threads
    ensures Good(g, ss[k], ViewAt(ss, ts, k))
    ensures ss[k + 1].threads[ts[k]].DeqVersion? <==> Queued(ss[k].sh.heap, ViewAt(ss, ts, k).live) == []
  {
    RunGood(g, ss, ts, cs, k);
    var w := ViewAt(ss, ts, k);
    InvSafe(ss[k], w, ts[k]);
    assert Next(g, ss[k], ts[k], cs[k], ss[k + 1]);
    assert |w.live| >= 2 ==> ss[k].sh.heap[w.live[0]].next == w.live[1];
    assert LocalInv(ss[k].sh, w, ts[k], ss[k].threads[ts[k]]);
  }
}
