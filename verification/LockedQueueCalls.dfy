/** What each call of the locked queue may do and answer, and that calls are answered. */
module LockedQueueCalls {
  import opened Wrappers
  import opened Sequences
  import opened Pointers
  import opened Sums
  import opened FifoSpec
  import opened LockedQueue
  import opened LockedQueueProof
  import opened LockedQueueTheorems
  import opened LockedQueueRefinement

  predicate IsReturn<T>(e: Event<T>) { e.RetEnq? || e.RetDeq? || e.RetEmpty? || e.RetClear? }

  // ---------------------------------------------------------------- the two kinds of pop

  /** Where a pop may be; `wait` tells pop(t, thread_info) from pop(t). */
  predicate InPop<T>(l: Local<T>, wait: bool) {
    match l
    case DeqLock(w) => w == wait
    case DeqRead(w) => w == wait
    case DeqVersion(w) => w == wait
    case DeqCopy(w, _) => w == wait
    case DeqMove(w, _, _) => w == wait
    case DeqUnlock(_, _) | DeqDestroy(_, _) | DeqDec(_) => true
    case PopReturn(result) => wait ==> result.Some?
    case PopLock(_) | PopCheck(_) | PopWaiting | PopWoken | PopUnlock => wait
    case _ => false
  }

  lemma InPopSelf<T>(g: Config, sh: Shared<T>, l: Local<T>, c: Choice<T>, wait: bool)
    requires Safe(sh, l) && InPop(l, wait) && !l.PopReturn?
    ensures InPop(LocalStep(g, sh, l, c), wait)
  {
  }

  /** Other threads can only wake a thread. */
  lemma OthersWake<T>(g: Config, s: State<T>, t: Tid, c: Choice<T>, u: Tid)
    requires Enabled(g, s, t, c) && Safe(s.sh, s.threads[t]) && u in s.threads && u != t
    ensures var s' := Step(g, s, t, c);
            u in s'.threads
            && (s'.threads[u] == s.threads[u] || (s.threads[u].PopWaiting? && s'.threads[u].PopWoken?))
  {
    hide ShStep, LocalStep;
  }

  /** At state `k` thread `t` is still inside the call it made at step `i`. */
  ghost predicate InCall<T>(ss: seq<State<T>>, ts: seq<Tid>, i: nat, k: nat, t: Tid)
    requires |ss| == |ts| + 1
  {
    && i < k < |ss| && ts[i] == t && t in ss[i].threads && ss[i].threads[t].Idle?
    && forall j :: i < j <= k ==> t in ss[j].threads && !ss[j].threads[t].Idle?
  }

  lemma StepAt<T>(g: Config, ss: seq<State<T>>, ts: seq<Tid>, cs: seq<Choice<T>>, k: nat)
    requires Run(g, ss, ts, cs) && k < |ts|
    ensures Enabled(g, ss[k], ts[k], cs[k]) && Safe(ss[k].sh, ss[k].threads[ts[k]])
    ensures ss[k + 1] == Step(g, ss[k], ts[k], cs[k]) && Inv(ss[k], ViewAt(ss, ts, k))
  {
    hide Inv, Accounting, Safe;
    RunGood(g, ss, ts, cs, k);
    assert Next(g, ss[k], ts[k], cs[k], ss[k + 1]);
    InvSafe(ss[k], ViewAt(ss, ts, k), ts[k]);
  }

  lemma {:induction false} PopPlaces<T>(g: Config, ss: seq<State<T>>, ts: seq<Tid>, cs: seq<Choice<T>>, i: nat,
      k: nat, t: Tid,
                                        wait: bool)
    requires Run(g, ss, ts, cs) && InCall(ss, ts, i, k, t) && cs[i] == Pop(wait)
    ensures InPop(ss[k].threads[t], wait)
    decreases k
  {
    hide Inv, Init, ShStep, LocalStep, Safe;
    StepAt(g, ss, ts, cs, k - 1);
    var s := ss[k - 1];
    if k == i + 1 {
      PopStarts(g, s.sh, s.threads[t], cs[i], wait);
    } else {
      PopPlaces(g, ss, ts, cs, i, k - 1, t, wait);
      if ts[k - 1] == t {
        if s.threads[t].PopReturn? {
          ReturnIsIdle(g, s.sh, s.threads[t], cs[k - 1]);
        } else {
          InPopSelf(g, s.sh, s.threads[t], cs[k - 1], wait);
        }
      } else {
        OthersWake(g, s, ts[k - 1], cs[k - 1], t);
      }
    }
  }

  lemma PopStarts<T>(g: Config, sh: Shared<T>, l: Local<T>, c: Choice<T>, wait: bool)
    requires Safe(sh, l) && l.Idle? && c == Pop(wait)
    ensures InPop(LocalStep(g, sh, l, c), wait)
  {
  }

  lemma ReturnIsIdle<T>(g: Config, sh: Shared<T>, l: Local<T>, c: Choice<T>)
    requires Safe(sh, l) && l.PopReturn?
    ensures LocalStep(g, sh, l, c).Idle?
  {
  }

  /** A pop that does not wait never holds the tail lock, is never among the idle consumers
      and never sleeps. */
  lemma PopNeverSleeps<T>(g: Config, ss: seq<State<T>>, ts: seq<Tid>, cs: seq<Choice<T>>, i: nat, k: nat, t: Tid)
    requires Run(g, ss, ts, cs) && InCall(ss, ts, i, k, t) && cs[i] == Pop(false)
    ensures ss[k].sh.tailLock != Some(t) && t !in ViewAt(ss, ts, k).idle && !ss[k].threads[t].PopWaiting?
  {
    hide VersionChain, IdleChain, Distinct, Accounting;
    PopPlaces(g, ss, ts, cs, i, k, t, false);
    RunGood(g, ss, ts, cs, k);
    assert LocalInv(ss[k].sh, ViewAt(ss, ts, k), t, ss[k].threads[t]);
  }

  /** A pop that waits never comes back without a value. */
  lemma WaitingPopReturnsValue<T>(g: Config, ss: seq<State<T>>, ts: seq<Tid>, cs: seq<Choice<T>>, i: nat, k: nat,
      t: Tid)
    requires Run(g, ss, ts, cs) && InCall(ss, ts, i, k, t) && cs[i] == Pop(true)
    requires k < |ts| && ts[k] == t && IsReturn(EventOf(ss[k].threads[t], t, cs[k]))
    ensures EventOf(ss[k].threads[t], t, cs[k]).RetDeq?
  {
    PopPlaces(g, ss, ts, cs, i, k, t, true);
  }

  // ---------------------------------------------------------------- what a pop answers

  /** What a pop carries that has seen `items` in the queue. */
  ghost predicate Carries<T>(sh: Shared<T>, l: Local<T>, items: seq<T>) {
    match l
    case DeqVersion(_) => items == []
    case PopReturn(None) => items == []
    case DeqCopy(_, n) => items != [] && n in sh.heap && sh.heap[n].data == items[0]
    case DeqMove(_, _, v) => items != [] && v == items[0]
    case DeqUnlock(v, _) => items != [] && v == items[0]
    case DeqDestroy(v, _) => items != [] && v == items[0]
    case DeqDec(v) => items != [] && v == items[0]
    case PopReturn(Some(v)) => items != [] && v == items[0]
    case _ => false
  }

  /** Past its look at the queue. */
  predicate HasLooked<T>(l: Local<T>) {
    l.DeqVersion? || l.DeqCopy? || l.DeqMove? || l.DeqUnlock? || l.DeqDestroy? || l.DeqDec? || l.PopReturn?
  }

  lemma LookCarries<T>(g: Config, s: State<T>, w: View, t: Tid, c: Choice<T>)
    requires Inv(s, w) && Enabled(g, s, t, c) && Safe(s.sh, s.threads[t]) && s.threads[t].DeqRead?
    ensures Carries(ShStep(s.sh, t, s.threads[t], c), LocalStep(g, s.sh, s.threads[t], c), Queued(s.sh.heap, w.live))
  {
    FirstQueued(s.sh, w);
    if |w.live| >= 2 {
      assert s.sh.heap[w.live[0]].next == w.live[1];
    }
  }

  lemma CarriesOn<T>(g: Config, sh: Shared<T>, t: Tid, l: Local<T>, c: Choice<T>, items: seq<T>)
    requires Safe(sh, l) && Carries(sh, l, items) && HasLooked(LocalStep(g, sh, l, c))
    ensures Carries(ShStep(sh, t, l, c), LocalStep(g, sh, l, c), items)
  {
  }

  /** Steps of others leave the node alone that a pop is about to copy. */
  lemma CarriesStill<T>(s: State<T>, w: View, t: Tid, c: Choice<T>, u: Tid, items: seq<T>)
    requires Inv(s, w) && t in s.threads && StepPre(s.sh, w, t, s.threads[t], c) && Safe(s.sh, s.threads[t])
    requires u in s.threads && u != t && Carries(s.sh, s.threads[u], items)
    ensures Carries(ShStep(s.sh, t, s.threads[t], c), s.threads[u], items)
  {
    hide IdleChain, Distinct;
    assert LocalInv(s.sh, w, t, s.threads[t]) && LocalInv(s.sh, w, u, s.threads[u]);
  }

  lemma QueuedIn<T>(s: State<T>, w: View) returns (items: seq<T>)
    requires Inv(s, w)
    ensures items == Queued(s.sh.heap, w.live)
  {
    items := Queued(s.sh.heap, w.live);
  }

  /** The step at which a pop last looked at the queue before state `k`. */
  lemma {:induction false} LastLook<T>(g: Config, ss: seq<State<T>>, ts: seq<Tid>, cs: seq<Choice<T>>, i: nat,
      k: nat, t: Tid,
                                       wait: bool)
    returns (j: nat, items: seq<T>)
    requires Run(g, ss, ts, cs) && InCall(ss, ts, i, k, t) && cs[i] == Pop(wait) && HasLooked(ss[k].threads[t])
    ensures i < j < k && ts[j] == t && ss[j].threads[t].DeqRead?
    ensures Inv(ss[j], ViewAt(ss, ts, j)) && items == Queued(ss[j].sh.heap, ViewAt(ss, ts, j).live)
    ensures Carries(ss[k].sh, ss[k].threads[t], items)
    decreases k
  {
    hide Inv, Init, ShStep, LocalStep, Safe, Queued, Carries;
    StepAt(g, ss, ts, cs, k - 1);
    var s, w := ss[k - 1], ViewAt(ss, ts, k - 1);
    if k == i + 1 {
      PopStarts(g, s.sh, s.threads[t], cs[i], wait);
      StartHasNotLooked(g, s.sh, s.threads[t], cs[i]);
      assert false;
    } else if ts[k - 1] == t {
      PopPlaces(g, ss, ts, cs, i, k - 1, t, wait);
      if s.threads[t].DeqRead? {
        j := k - 1;
        items := QueuedIn(s, w);
        LookCarries(g, s, w, t, cs[j]);
      } else {
        LookedBefore(g, s.sh, s.threads[t], cs[k - 1], wait);
        j, items := LastLook(g, ss, ts, cs, i, k - 1, t, wait);
        CarriesOn(g, s.sh, t, s.threads[t], cs[k - 1], items);
      }
    } else {
      OthersWake(g, s, ts[k - 1], cs[k - 1], t);
      j, items := LastLook(g, ss, ts, cs, i, k - 1, t, wait);
      StepReady(g, s, w, ts[k - 1], cs[k - 1]);
      CarriesStill(s, w, ts[k - 1], cs[k - 1], t, items);
    }
  }

  lemma StartHasNotLooked<T>(g: Config, sh: Shared<T>, l: Local<T>, c: Choice<T>)
    requires Safe(sh, l) && l.Idle? && c.Pop?
    ensures !HasLooked(LocalStep(g, sh, l, c))
  {
  }

  lemma LookedBefore<T>(g: Config, sh: Shared<T>, l: Local<T>, c: Choice<T>, wait: bool)
    requires Safe(sh, l) && InPop(l, wait) && HasLooked(LocalStep(g, sh, l, c)) && !l.DeqRead?
    ensures HasLooked(l)
  {
  }

  /** What a pop answers: it reports "empty" if and only if the queue held nothing at its last
      look, which happened within the call; otherwise it hands back the value that was first
      in the queue then. */
  lemma PopAnswer<T>(g: Config, ss: seq<State<T>>, ts: seq<Tid>, cs: seq<Choice<T>>, i: nat, k: nat, t: Tid, wait: bool)
    returns (j: nat)
    requires Run(g, ss, ts, cs) && InCall(ss, ts, i, k, t) && cs[i] == Pop(wait)
    requires k < |ts| && ts[k] == t && IsReturn(EventOf(ss[k].threads[t], t, cs[k]))
    ensures i < j < k && ts[j] == t && ss[j].threads[t].DeqRead? && Inv(ss[j], ViewAt(ss, ts, j))
    ensures var items := Queued(ss[j].sh.heap, ViewAt(ss, ts, j).live);
            EventOf(ss[k].threads[t], t, cs[k]) == if items == [] then RetEmpty(t) else RetDeq(t, items[0])
  {
    hide Queued, Inv, Run;
    PopPlaces(g, ss, ts, cs, i, k, t, wait);
    var items;
    j, items := LastLook(g, ss, ts, cs, i, k, t, wait);
  }

  // ---------------------------------------------------------------- a pop alone

  /** The steps a pop that does not wait has left. */
  function PopSteps<T>(l: Local<T>): nat {
    match l
    case DeqLock(_) => 7
    case DeqRead(_) => 6
    case DeqCopy(_, _) => 5
    case DeqMove(_, _, _) => 4
    case DeqUnlock(_, _) => 3
    case DeqDestroy(_, _) => 2
    case DeqDec(_) | DeqVersion(_) => 1
    case _ => 0
  }

  lemma PopStepUsed<T>(g: Config, sh: Shared<T>, l: Local<T>, c: Choice<T>)
    requires Safe(sh, l) && InPop(l, false) && !l.PopReturn?
    ensures PopSteps(LocalStep(g, sh, l, c)) < PopSteps(l)
  {
  }

  /** A pop that does not wait can always go on, except while another thread holds the head
      lock. */
  lemma PopGoesOn<T>(g: Config, s: State<T>, w: View, t: Tid)
    requires Inv(s, w) && t in s.threads && InPop(s.threads[t], false)
             && (s.sh.headLock.None? || s.sh.headLock == Some(t))
    ensures Enabled(g, s, t, Go)
  {
    hide VersionChain, IdleChain, Distinct;
    assert LocalInv(s.sh, w, t, s.threads[t]);
  }

  /** A pop that does not wait returns within eight of its own steps. */
  lemma {:induction false} PopReturnsSoon<T>(g: Config, ss: seq<State<T>>, ts: seq<Tid>, cs: seq<Choice<T>>, i: nat,
      k: nat, n: nat, t: Tid)
    returns (j: nat)
    requires Run(g, ss, ts, cs) && InCall(ss, ts, i, k, t) && cs[i] == Pop(false)
    requires PopSteps(ss[k].threads[t]) <= n && k + n < |ts| && forall m :: k <= m <= k + n ==> ts[m] == t
    ensures k <= j <= k + n && t in ss[j].threads && IsReturn(EventOf(ss[j].threads[t], t, cs[j]))
    decreases n
  {
    hide Inv, Init, ShStep, LocalStep, Safe;
    PopPlaces(g, ss, ts, cs, i, k, t, false);
    if ss[k].threads[t].PopReturn? {
      j := k;
    } else {
      StepAt(g, ss, ts, cs, k);
      PopStepUsed(g, ss[k].sh, ss[k].threads[t], cs[k]);
      InPopSelf(g, ss[k].sh, ss[k].threads[t], cs[k], false);
      j := PopReturnsSoon(g, ss, ts, cs, i, k + 1, n - 1, t);
    }
  }
}
