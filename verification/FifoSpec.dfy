/** The FIFO object that both concurrent queues are measured against.

    A call is invoked, takes effect at one instant, and returns.  A dequeue may return
    "empty" only if the queue was empty at some instant of that call.  A clear takes out
    every value at once. */
module FifoSpec {

  type Tid = nat

  /** What the object knows about the call a thread has in progress. */
  datatype Call<T> =
    | NoCall
    | EnqPending(value: T)
    | EnqDone
    | DeqPending(sawEmpty: bool)
    | DeqDone(value: T)
    | ClearPending
    | ClearDone

  /** `enqueued` and `dequeued` record every value that ever entered or left, in order. */
  datatype Fifo<T> = Fifo(items: seq<T>, calls: map<Tid, Call<T>>, enqueued: seq<T>, dequeued: seq<T>)

  datatype Event<T> =
    | Internal
    | CallEnq(t: Tid, v: T)
    | RetEnq(t: Tid)
    | CallDeq(t: Tid)
    | RetDeq(t: Tid, v: T)
    | RetEmpty(t: Tid)
    | CallClear(t: Tid)
    | RetClear(t: Tid)

  /** Every dequeue in progress remembers that the queue has been empty. */
  function MarkEmpty<T>(calls: map<Tid, Call<T>>): (r: map<Tid, Call<T>>)
    ensures r.Keys == calls.Keys
  {
    map t | t in calls :: if calls[t].DeqPending? then DeqPending(true) else calls[t]
  }

  function CommitEnq<T>(a: Fifo<T>, t: Tid): Fifo<T>
    requires t in a.calls && a.calls[t].EnqPending?
  {
    var v := a.calls[t].value;
    Fifo(a.items + [v], a.calls[t := EnqDone], a.enqueued + [v], a.dequeued)
  }

  function CommitDeq<T>(a: Fifo<T>, t: Tid): Fifo<T>
    requires t in a.calls && a.calls[t].DeqPending? && a.items != []
  {
    var v := a.items[0];
    var calls := a.calls[t := DeqDone(v)];
    Fifo(a.items[1..], if |a.items| == 1 then MarkEmpty(calls) else calls, a.enqueued, a.dequeued + [v])
  }

  /** A clear takes out all the values. */
  function CommitClear<T>(a: Fifo<T>, t: Tid): Fifo<T>
    requires t in a.calls && a.calls[t].ClearPending?
  {
    Fifo([], MarkEmpty(a.calls[t := ClearDone]), a.enqueued, a.dequeued + a.items)
  }

  /** The dequeues in progress have been marked if the queue is empty right now. */
  ghost predicate Marked<T>(a: Fifo<T>) {
    a.items == [] ==> forall t :: t in a.calls && a.calls[t].DeqPending? ==> a.calls[t].sawEmpty
  }

  predicate InternalStep<T(==)>(a: Fifo<T>, a': Fifo<T>)
  {
    || a' == a
    || (exists t | t in a.calls :: a.calls[t].EnqPending? && a' == CommitEnq(a, t))
    || (exists t | t in a.calls :: a.calls[t].DeqPending? && a.items != [] && a' == CommitDeq(a, t))
    || (exists t | t in a.calls :: a.calls[t].ClearPending? && a' == CommitClear(a, t))
  }

  predicate SpecStep<T(==)>(a: Fifo<T>, e: Event<T>, a': Fifo<T>)
  {
    match e
    case Internal => InternalStep(a, a')
    case CallEnq(t, v) => t in a.calls && a.calls[t].NoCall? && a' == a.(calls := a.calls[t := EnqPending(v)])
    case RetEnq(t) => t in a.calls && a.calls[t].EnqDone? && a' == a.(calls := a.calls[t := NoCall])
    case CallDeq(t) => t in a.calls && a.calls[t].NoCall? && a' == a.(calls := a.calls[t := DeqPending(a.items == [])])
    case RetDeq(t, v) => t in a.calls && a.calls[t] == DeqDone(v) && a' == a.(calls := a.calls[t := NoCall])
    case RetEmpty(t) => t in a.calls && a.calls[t] == DeqPending(true) && a' == a.(calls := a.calls[t := NoCall])
    case CallClear(t) => t in a.calls && a.calls[t].NoCall? && a' == a.(calls := a.calls[t := ClearPending])
    case RetClear(t) => t in a.calls && a.calls[t].ClearDone? && a' == a.(calls := a.calls[t := NoCall])
  }

  ghost predicate SpecInit<T>(a: Fifo<T>) {
    a.items == [] && a.enqueued == [] && a.dequeued == [] && forall t :: t in a.calls ==> a.calls[t] == NoCall
  }

  /** A run: `|states| == |events| + 1`, each consecutive pair related by its event. */
  ghost predicate SpecRun<T>(states: seq<Fifo<T>>, events: seq<Event<T>>) {
    && |states| == |events| + 1
    && SpecInit(states[0])
    && forall i :: 0 <= i < |events| ==> SpecStep(states[i], events[i], states[i + 1])
  }

  lemma StepKeepsOrder<T>(a: Fifo<T>, e: Event<T>, a': Fifo<T>)
    requires SpecStep(a, e, a')
    requires a.dequeued + a.items == a.enqueued
    ensures a'.dequeued + a'.items == a'.enqueued
  {
    if e.Internal? && a' != a {
      if t :| t in a.calls && a.calls[t].EnqPending? && a' == CommitEnq(a, t) {
        assert a.dequeued + (a.items + [a.calls[t].value]) == (a.dequeued + a.items) + [a.calls[t].value];
      } else if t :| t in a.calls && a.calls[t].ClearPending? && a' == CommitClear(a, t) {
        assert a'.dequeued + [] == a'.dequeued;
      } else {
        assert a.items == [a.items[0]] + a.items[1..];
      }
    }
  }

  /** First in, first out, nothing lost and nothing duplicated: at every point of every
      run the values handed out, followed by those still queued, are exactly the
      values put in, in order. */
  lemma {:induction false} FifoOrder<T>(states: seq<Fifo<T>>, events: seq<Event<T>>, k: nat)
    requires SpecRun(states, events) && k < |states|
    ensures states[k].dequeued + states[k].items == states[k].enqueued
  {
    if k > 0 {
      FifoOrder(states, events, k - 1);
      assert SpecStep(states[k - 1], events[k - 1], states[k - 1 + 1]);
      StepKeepsOrder(states[k - 1], events[k - 1], states[k]);
    }
  }

  /** One step back from a mark on a queue that is not empty: it was there before. */
  lemma MarkWasThere<T>(a: Fifo<T>, e: Event<T>, a': Fifo<T>, t: Tid)
    requires SpecStep(a, e, a') && a'.items != [] && t in a'.calls && a'.calls[t] == DeqPending(true)
    ensures t in a.calls && a.calls[t] == DeqPending(true)
  {
  }

  /** A dequeue marked as having seen the queue empty did see it empty, within the same call. */
  lemma {:induction false} MarkMeansEmpty<T>(states: seq<Fifo<T>>, events: seq<Event<T>>, k: nat, t: Tid)
    returns (i: nat)
    requires SpecRun(states, events) && k < |states|
    requires t in states[k].calls && states[k].calls[t] == DeqPending(true)
    ensures i <= k && states[i].items == []
    ensures forall j :: i <= j <= k ==> t in states[j].calls && states[j].calls[t].DeqPending?
  {
    hide SpecStep;
    if states[k].items == [] {
      i := k;
    } else {
      assert k > 0;
      assert SpecStep(states[k - 1], events[k - 1], states[k - 1 + 1]);
      MarkWasThere(states[k - 1], events[k - 1], states[k], t);
      i := MarkMeansEmpty(states, events, k - 1, t);
    }
  }

  /** "Empty" is only ever answered when the queue was empty during that call. */
  lemma EmptyAnswerIsTrue<T>(states: seq<Fifo<T>>, events: seq<Event<T>>, k: nat) returns (i: nat)
    requires SpecRun(states, events) && k < |events| && events[k].RetEmpty?
    ensures i <= k && states[i].items == []
    ensures forall j :: i <= j <= k ==> events[k].t in states[j].calls && states[j].calls[events[k].t].DeqPending?
  {
    assert SpecStep(states[k], events[k], states[k + 1]);
    i := MarkMeansEmpty(states, events, k, events[k].t);
  }

  /** One step back from a clear that has taken effect: it had before, or does now. */
  lemma ClearWasDone<T>(a: Fifo<T>, e: Event<T>, a': Fifo<T>, t: Tid)
    requires SpecStep(a, e, a') && t in a'.calls && a'.calls[t].ClearDone?
    ensures t in a.calls
            && (a.calls[t].ClearDone?
                || (a.calls[t].ClearPending? && a'.items == [] && a'.dequeued == a.dequeued + a.items))
  {
  }

  lemma {:induction false} ClearDoneAt<T>(states: seq<Fifo<T>>, events: seq<Event<T>>, k: nat, t: Tid)
    returns (i: nat)
    requires SpecRun(states, events) && k < |states| && t in states[k].calls && states[k].calls[t].ClearDone?
    ensures i < k && t in states[i].calls && states[i].calls[t].ClearPending?
    ensures states[i + 1].items == [] && states[i + 1].dequeued == states[i].dequeued + states[i].items
    ensures forall j :: i < j <= k ==> t in states[j].calls && states[j].calls[t].ClearDone?
  {
    hide SpecStep;
    assert k > 0;
    assert SpecStep(states[k - 1], events[k - 1], states[k - 1 + 1]);
    ClearWasDone(states[k - 1], events[k - 1], states[k], t);
    if states[k - 1].calls[t].ClearDone? {
      i := ClearDoneAt(states, events, k - 1, t);
    } else {
      i := k - 1;
    }
  }

  /** A clear returns only after one step of its call that took out every value there was. */
  lemma ClearTookAll<T>(states: seq<Fifo<T>>, events: seq<Event<T>>, k: nat) returns (i: nat)
    requires SpecRun(states, events) && k < |events| && events[k].RetClear?
    ensures i < k && events[k].t in states[i].calls && states[i].calls[events[k].t].ClearPending?
    ensures states[i + 1].items == [] && states[i + 1].dequeued == states[i].dequeued + states[i].items
    ensures forall j :: i < j <= k ==> events[k].t in states[j].calls && states[j].calls[events[k].t].ClearDone?
  {
    assert SpecStep(states[k], events[k], states[k + 1]);
    i := ClearDoneAt(states, events, k, events[k].t);
  }

  lemma {:induction false} SubsetSize<A>(xs: set<A>, ys: set<A>)
    requires xs <= ys
    ensures |xs| <= |ys|
  {
    if x :| x in xs {
      SubsetSize(xs - {x}, ys - {x});
    }
  }

  /** A relation that every step can re-establish, by advancing the abstract side, holds
      along the whole run. */
  lemma LiftSimulation<S, A(!new), E>(ss: seq<S>, es: seq<E>, rel: (S, A) -> bool, step: (A, E, A) -> bool,
                                      advance: (nat, A) -> A, a0: A)
    returns (as': seq<A>)
    requires |ss| == |es| + 1 && rel(ss[0], a0)
    requires forall i: nat, a {:trigger advance(i, a)} :: i < |es| && rel(ss[i], a) ==>
               rel(ss[i + 1], advance(i, a)) && step(a, es[i], advance(i, a))
    ensures |as'| == |ss| && as'[0] == a0
    ensures forall i :: 0 <= i < |ss| ==> rel(ss[i], as'[i])
    ensures forall i :: 0 <= i < |es| ==> step(as'[i], es[i], as'[i + 1])
  {
    as' := [a0];
    for k := 0 to |es|
      invariant |as'| == k + 1 && as'[0] == a0
      invariant forall i :: 0 <= i <= k ==> rel(ss[i], as'[i])
      invariant forall i :: 0 <= i < k ==> step(as'[i], es[i], as'[i + 1])
    {
      as' := as' + [advance(k, as'[k])];
    }
  }
}
