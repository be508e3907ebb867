/** PionLockedQueue: the two-lock queue with version numbers and a list of idle consumers,
    as a system of atomic steps.  Threads push, pop without waiting, pop with waiting, and
    clear, in any interleaving.  Version numbers are unbounded; nobody calls stop() and the
    condition variable has no spurious wakeups. */
module LockedQueue {
  import opened Wrappers
  import opened Sequences
  import opened Pointers

  type Tid = nat

  datatype Node<T> = Node(data: T, next: Addr, version: nat)

  /** A thread's program counter and local variables.  `wait` tells pop(t, thread_info)
      from the pop(t) that never waits. */
  datatype Local<T> =
    | Idle
    // push
    | PushCheck(v: T)
    | PushCreate(v: T)
    | PushLock(v: T, n: Addr)
    | PushVersion(v: T, n: Addr)
    | PushLink(v: T, n: Addr)
    | PushTail(n: Addr)
    | PushSize
    | PushWake
    | PushUnlock
    // dequeue, under the head lock
    | DeqLock(wait: bool)
    | DeqRead(wait: bool)
    | DeqVersion(wait: bool)
    | DeqCopy(wait: bool, n: Addr)
    | DeqMove(wait: bool, n: Addr, v: T)
    | DeqUnlock(v: T, n: Addr)
    | DeqDestroy(v: T, n: Addr)
    | DeqDec(v: T)
    | PopReturn(result: Option<T>)
    // pop, under the tail lock, when the queue looked empty
    | PopLock(version: nat)
    | PopCheck(version: nat)
    | PopWaiting
    | PopWoken
    | PopUnlock
    // clear
    | ClearTailLock
    | ClearHeadLock
    | ClearLoop
    | ClearDec
    | ClearUnlock

  /** m_next_ptr of every ConsumerThread is in `links`; the list starts at `idle`. */
  datatype Shared<T> = Shared(heap: map<Addr, Node<T>>, head: Addr, tail: Addr, idle: Option<Tid>,
                              links: map<Tid, Option<Tid>>, headLock: Option<Tid>, tailLock: Option<Tid>,
                              nextVersion: nat, size: int)

  datatype State<T> = State(sh: Shared<T>, threads: map<Tid, Local<T>>)

  /** MaxSize (0 = no limit) and the threads that are allowed to push. */
  datatype Config = Config(maxSize: nat, producers: set<Tid>)

  datatype Choice<T> = Push(v: T) | Pop(wait: bool) | Clear | Fresh(n: Addr) | Go

  /** The counter as size() reports it: a negative value becomes a huge unsigned one. */
  predicate HasRoom(g: Config, size: int) {
    g.maxSize == 0 || 0 <= size < g.maxSize
  }

  predicate Enabled<T>(g: Config, s: State<T>, t: Tid, c: Choice<T>) {
    t in s.threads &&
    match s.threads[t]
    case Idle => (c.Push? && t in g.producers) || c.Pop? || c.Clear?
    case PushCreate(_) => c.Fresh? && c.n != NULL && c.n !in s.sh.heap
    case PushLock(_, _) => c.Go? && s.sh.tailLock.None?
    case DeqLock(_) => c.Go? && s.sh.headLock.None?
    case PopLock(_) => c.Go? && s.sh.tailLock.None?
    case PopWoken => c.Go? && s.sh.tailLock.None?
    case ClearTailLock => c.Go? && s.sh.tailLock.None?
    case ClearHeadLock => c.Go? && s.sh.headLock.None?
    case PopWaiting => false
    case _ => c.Go?
  }

  /** The dereferences of the next step hit allocated nodes. */
  predicate Safe<T>(sh: Shared<T>, l: Local<T>) {
    match l
    case PushVersion(_, n) => n in sh.heap
    case PushLink(_, _) => sh.tail in sh.heap
    case DeqRead(_) => sh.head in sh.heap
    case DeqVersion(_) => sh.head in sh.heap
    case DeqCopy(_, n) => n in sh.heap
    case DeqDestroy(_, n) => n in sh.heap
    case PopCheck(_) => sh.tail in sh.heap
    case PushWake => sh.idle.Some? ==> sh.idle.value in sh.links
    case ClearLoop => sh.head in sh.heap
    case _ => true
  }

  function ShStep<T>(sh: Shared<T>, t: Tid, l: Local<T>, c: Choice<T>): Shared<T>
    requires Safe(sh, l)
  {
    match l
    case PushCreate(v) => if c.Fresh? then sh.(heap := sh.heap[c.n := Node(v, NULL, 0)]) else sh
    case PushLock(_, _) => sh.(tailLock := Some(t))
    case PushVersion(_, n) =>
      sh.(nextVersion := sh.nextVersion + 2, heap := sh.heap[n := sh.heap[n].(version := sh.nextVersion + 2)])
    case PushLink(_, n) => sh.(heap := sh.heap[sh.tail := sh.heap[sh.tail].(next := n)])
    case PushTail(n) => sh.(tail := n)
    case PushSize => sh.(size := sh.size + 1)
    case PushWake => if sh.idle.Some? then sh.(idle := sh.links[sh.idle.value]) else sh
    case PushUnlock => sh.(tailLock := None)
    case DeqLock(_) => sh.(headLock := Some(t))
    case DeqVersion(_) => sh.(headLock := None)
    case DeqMove(_, n, _) => sh.(head := n)
    case DeqUnlock(_, _) => sh.(headLock := None)
    case DeqDestroy(_, n) => sh.(heap := sh.heap - {n})
    case DeqDec(_) => sh.(size := sh.size - 1)
    case PopLock(_) => sh.(tailLock := Some(t))
    case PopCheck(version) =>
      if sh.heap[sh.tail].version == version
      then sh.(links := sh.links[t := sh.idle], idle := Some(t), tailLock := None) else sh
    case PopWoken => sh.(tailLock := Some(t))
    case PopUnlock => sh.(tailLock := None)
    case ClearTailLock => sh.(tailLock := Some(t))
    case ClearHeadLock => sh.(headLock := Some(t))
    case ClearLoop =>
      if sh.heap[sh.head].next == NULL then sh.(tail := sh.head)
      else sh.(tail := sh.head, head := sh.heap[sh.head].next, heap := sh.heap - {sh.head})
    case ClearDec => sh.(size := sh.size - 1)
    case ClearUnlock => sh.(headLock := None, tailLock := None)
    case _ => sh
  }

  function LocalStep<T(==)>(g: Config, sh: Shared<T>, l: Local<T>, c: Choice<T>): Local<T>
    requires Safe(sh, l)
  {
    match l
    case Idle => (match c case Push(v) => PushCheck(v) case Pop(w) => DeqLock(w) case _ => ClearTailLock)
    case PushCheck(v) => if HasRoom(g, sh.size) then PushCreate(v) else PushCheck(v)
    case PushCreate(v) => if c.Fresh? then PushLock(v, c.n) else l
    case PushLock(v, n) => PushVersion(v, n)
    case PushVersion(v, n) => PushLink(v, n)
    case PushLink(_, n) => PushTail(n)
    case PushTail(_) => PushSize
    case PushSize => PushWake
    case PushWake => PushUnlock
    case PushUnlock => Idle
    case DeqLock(w) => DeqRead(w)
    case DeqRead(w) => if sh.heap[sh.head].next == NULL then DeqVersion(w) else DeqCopy(w, sh.heap[sh.head].next)
    case DeqVersion(w) => if w then PopLock(sh.heap[sh.head].version) else PopReturn(None)
    case DeqCopy(w, n) => DeqMove(w, n, sh.heap[n].data)
    case DeqMove(_, _, v) => DeqUnlock(v, sh.head)
    case DeqUnlock(v, n) => DeqDestroy(v, n)
    case DeqDestroy(v, _) => DeqDec(v)
    case DeqDec(v) => PopReturn(Some(v))
    case PopReturn(_) => Idle
    case PopLock(version) => PopCheck(version)
    case PopCheck(version) => if sh.heap[sh.tail].version == version then PopWaiting else PopUnlock
    case PopWaiting => l
    case PopWoken => PopUnlock
    case PopUnlock => DeqLock(true)
    case ClearTailLock => ClearHeadLock
    case ClearHeadLock => ClearLoop
    case ClearLoop => if sh.heap[sh.head].next == NULL then ClearUnlock else ClearDec
    case ClearDec => ClearLoop
    case ClearUnlock => Idle
  }

  /** notify_one: the first idle consumer, if any, wakes up. */
  function Wake<T>(s: State<T>, l: Local<T>): map<Tid, Local<T>> {
    if l.PushWake? && s.sh.idle.Some? && s.sh.idle.value in s.threads && s.threads[s.sh.idle.value].PopWaiting?
    then s.threads[s.sh.idle.value := PopWoken] else s.threads
  }

  function Step<T(==)>(g: Config, s: State<T>, t: Tid, c: Choice<T>): State<T>
    requires t in s.threads && Safe(s.sh, s.threads[t])
  {
    var l := s.threads[t];
    State(ShStep(s.sh, t, l, c), Wake(s, l)[t := LocalStep(g, s.sh, l, c)])
  }

  /** One step; after a wild dereference anything may follow. */
  predicate Next<T(==)>(g: Config, s: State<T>, t: Tid, c: Choice<T>, s': State<T>) {
    Enabled(g, s, t, c) && (Safe(s.sh, s.threads[t]) ==> s' == Step(g, s, t, c))
  }

  // ---------------------------------------------------------------- the invariant

  /** The nodes in the list (dummy first) and the consumers in the idle list. */
  datatype View = View(live: seq<Addr>, idle: seq<Tid>)

  ghost predicate VersionChain<T>(heap: map<Addr, Node<T>>, xs: seq<Addr>) {
    && (forall i :: 0 <= i < |xs| ==> xs[i] != NULL && xs[i] in heap)
    && (forall i, j :: 0 <= i < j < |xs| && j == i + 1 ==> heap[xs[i]].next == xs[j])
    && (xs != [] ==> heap[xs[|xs| - 1]].next == NULL)
    && (forall i, j :: 0 <= i < j < |xs| ==> heap[xs[i]].version < heap[xs[j]].version)
  }

  ghost predicate IdleChain<T>(sh: Shared<T>, idle: seq<Tid>) {
    && sh.idle == (if idle == [] then None else Some(idle[0]))
    && (forall i :: 0 <= i < |idle| ==> idle[i] in sh.links)
    && (forall i, j :: 0 <= i < j < |idle| && j == i + 1 ==> sh.links[idle[i]] == Some(idle[j]))
    && (idle != [] ==> sh.links[idle[|idle| - 1]] == None)
  }

  /** Program points at which the tail lock, respectively the head lock, is held. */
  predicate HoldsTail<T>(l: Local<T>) {
    l.PushVersion? || l.PushLink? || l.PushTail? || l.PushSize? || l.PushWake? || l.PushUnlock? || l.PopCheck?
        || l.PopUnlock?
    || l.ClearHeadLock? || l.ClearLoop? || l.ClearDec? || l.ClearUnlock?
  }

  predicate HoldsHead<T>(l: Local<T>) {
    l.DeqRead? || l.DeqVersion? || l.DeqCopy? || l.DeqMove? || l.DeqUnlock? || l.ClearLoop? || l.ClearDec?
        || l.ClearUnlock?
  }

  /** Program points at which the tail pointer does not point at the last node. */
  predicate TailUnset<T>(l: Local<T>) { l.PushTail? || l.ClearLoop? || l.ClearDec? }

  /** The node a thread holds privately, if any. */
  function Own<T>(l: Local<T>): Addr {
    match l
    case PushLock(_, n) => n
    case PushVersion(_, n) => n
    case PushLink(_, n) => n
    case DeqUnlock(_, n) => n
    case DeqDestroy(_, n) => n
    case _ => NULL
  }

  ghost predicate Private<T>(sh: Shared<T>, w: View, n: Addr) {
    n != NULL && n in sh.heap && n !in w.live
  }

  /** `version` was the version of the last node when the queue was seen empty. */
  ghost predicate EmptyVersion<T>(sh: Shared<T>, w: View, version: nat)
    requires w.live != [] && VersionChain(sh.heap, w.live)
  {
    var last := sh.heap[Last(w.live)].version;
    version <= last && (version == last ==> |w.live| == 1)
  }

  ghost predicate LocalInv<T>(sh: Shared<T>, w: View, t: Tid, l: Local<T>)
    requires w.live != [] && VersionChain(sh.heap, w.live)
  {
    && (HoldsTail(l) <==> sh.tailLock == Some(t))
    && (HoldsHead(l) <==> sh.headLock == Some(t))
    && (l.PopWaiting? <==> t in w.idle)
    && (HoldsTail(l) && !TailUnset(l) ==> sh.tail == Last(w.live))
    && match l
       case PushLock(v, n) => Private(sh, w, n) && sh.heap[n].data == v && sh.heap[n].next == NULL
       case PushVersion(v, n) => Private(sh, w, n) && sh.heap[n].data == v && sh.heap[n].next == NULL
       case PushLink(v, n) =>
         && Private(sh, w, n) && sh.heap[n].data == v && sh.heap[n].next == NULL
         && sh.heap[Last(w.live)].version < sh.heap[n].version == sh.nextVersion
       case PushTail(n) => n == Last(w.live)
       case DeqCopy(_, n) => |w.live| >= 2 && n == w.live[1]
       case DeqMove(_, n, v) => |w.live| >= 2 && n == w.live[1] && sh.heap[n].data == v
       case DeqUnlock(_, n) => Private(sh, w, n)
       case DeqDestroy(_, n) => Private(sh, w, n)
       case PopLock(version) => EmptyVersion(sh, w, version)
       case PopCheck(version) => EmptyVersion(sh, w, version)
       case _ => true
  }

  ghost predicate Shape<T>(sh: Shared<T>, w: View) {
    && w.live != [] && VersionChain(sh.heap, w.live) && Distinct(w.live)
    && IdleChain(sh, w.idle) && Distinct(w.idle)
    && sh.head == w.live[0]
    && sh.heap[Last(w.live)].version <= sh.nextVersion
    && (sh.tailLock.None? ==> sh.tail == Last(w.live))
  }

  ghost predicate Inv<T>(s: State<T>, w: View) {
    && Shape(s.sh, w)
    && (forall t :: t in s.threads ==> LocalInv(s.sh, w, t, s.threads[t]))
    && (forall t :: t in w.idle ==> t in s.threads)
    && (forall t, u :: t in s.threads && u in s.threads && t != u && Own(s.threads[t]) != NULL
                       ==> Own(s.threads[t]) != Own(s.threads[u]))
  }

  function ViewStep<T(==)>(sh: Shared<T>, w: View, t: Tid, l: Local<T>): View
    requires Safe(sh, l)
  {
    match l
    case PushLink(_, n) => w.(live := w.live + [n])
    case PushWake => if w.idle != [] then w.(idle := w.idle[1..]) else w
    case DeqMove(_, _, _) => if w.live != [] then w.(live := w.live[1..]) else w
    case PopCheck(version) => if sh.heap[sh.tail].version == version then w.(idle := [t] + w.idle) else w
    case ClearLoop => if sh.heap[sh.head].next != NULL && w.live != [] then w.(live := w.live[1..]) else w
    case _ => w
  }

  /** No step dereferences a node that has been freed, nor a missing consumer record. */
  lemma InvSafe<T>(s: State<T>, w: View, t: Tid)
    requires Inv(s, w) && t in s.threads
    ensures Safe(s.sh, s.threads[t])
  {
    assert LocalInv(s.sh, w, t, s.threads[t]);
  }
}
