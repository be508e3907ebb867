/** The Michael-Scott queue of boost/lockfree/fifo.hpp, with its nodes recycled through
    the lock-free caching_freelist, as a system of atomic steps: every shared read, write
    or compare-and-swap of the source is one step of one thread, and any number of
    threads interleave freely.  Tags are unbounded. */
module LockFreeFifo {
  import opened Sequences
  import opened Pointers
  import opened FifoSpec

  datatype Node<T> = Node(next: Tagged, data: T)

  /** A thread's program counter together with its local variables. */
  datatype Local<T> =
    | Idle
    // enqueue: alloc_node(t), which is pool.allocate() followed by the node constructor
    | AllocRead(v: T)
    | AllocNext(v: T, pool: Tagged)
    | AllocCas(v: T, pool: Tagged, succ: Addr)
    | Construct(v: T, n: Addr)
    // enqueue: the retry loop
    | EnqTail(v: T, n: Addr)
    | EnqNext(v: T, n: Addr, tail: Tagged)
    | EnqCheck(v: T, n: Addr, tail: Tagged, next: Tagged)
    | EnqLink(v: T, n: Addr, tail: Tagged, next: Tagged)
    | EnqHelp(v: T, n: Addr, tail: Tagged, succ: Addr)
    | EnqSwing(n: Addr, tail: Tagged)
    | EnqReturn
    // dequeue: the retry loop
    | DeqHead
    | DeqTail(head: Tagged)
    | DeqNext(head: Tagged, tail: Tagged)
    | DeqCheck(head: Tagged, tail: Tagged, succ: Addr)
    | DeqHelp(tail: Tagged, succ: Addr)
    | DeqData(head: Tagged, succ: Addr)
    | DeqCas(v: T, head: Tagged, succ: Addr)
    | DeqEmpty
    // dequeue: dealloc_node(head), which is pool.deallocate()
    | FreeRead(v: T, n: Addr)
    | FreeLink(v: T, n: Addr, pool: Tagged)
    | FreeCas(v: T, n: Addr, pool: Tagged)
    | DeqReturn(v: T)

  datatype Shared<T> = Shared(heap: map<Addr, Node<T>>, head: Tagged, tail: Tagged, pool: Tagged)

  datatype State<T> = State(sh: Shared<T>, threads: map<Tid, Local<T>>)

  /** What the environment decides: the call an idle thread makes, and what the system
      allocator hands out when the pool is empty (an unused block with arbitrary contents). */
  datatype Choice<T> = Enqueue(v: T) | Dequeue | Fresh(n: Addr, garbage: Node<T>) | Go

  predicate Enabled<T>(s: State<T>, t: Tid, c: Choice<T>) {
    t in s.threads &&
    match s.threads[t]
    case Idle => c.Enqueue? || c.Dequeue?
    case AllocRead(_) => if s.sh.pool.ptr == NULL then c.Fresh? && c.n != NULL && c.n !in s.sh.heap else c.Go?
    case _ => c.Go?
  }

  /** The node a step is about to dereference. */
  function Target<T>(l: Local<T>): Addr {
    match l
    case AllocNext(_, pool) => pool.ptr
    case Construct(_, n) => n
    case EnqNext(_, _, tail) => tail.ptr
    case EnqLink(_, _, tail, _) => tail.ptr
    case DeqNext(head, _) => head.ptr
    case DeqData(_, succ) => succ
    case FreeLink(_, n, _) => n
    case _ => NULL
  }

  /** The dereference of the next step, if any, hits a node. */
  predicate Safe<T>(sh: Shared<T>, l: Local<T>) {
    (l.AllocNext? || l.Construct? || l.EnqNext? || l.EnqLink? || l.DeqNext? || l.DeqData? || l.FreeLink?)
    ==> Target(l) in sh.heap
  }

  function SetNext<T>(heap: map<Addr, Node<T>>, a: Addr, next: Tagged): map<Addr, Node<T>>
    requires a in heap
  {
    heap[a := heap[a].(next := next)]
  }

  /** The shared state after a step of a thread whose local state is `l`. */
  function ShStep<T>(sh: Shared<T>, l: Local<T>, c: Choice<T>): Shared<T>
    requires Safe(sh, l)
  {
    match l
    case AllocRead(_) => if sh.pool.ptr == NULL && c.Fresh? then sh.(heap := sh.heap[c.n := c.garbage]) else sh
    case AllocCas(_, pool, succ) => sh.(pool := Cas(sh.pool, pool, succ))
    case Construct(v, n) => sh.(heap := sh.heap[n := Node(Tagged(NULL, sh.heap[n].next.tag + 1), v)])
    case EnqLink(_, n, tail, next) =>
      sh.(heap := SetNext(sh.heap, tail.ptr, Cas(sh.heap[tail.ptr].next, next, n)))
    case EnqHelp(_, _, tail, succ) => sh.(tail := Cas(sh.tail, tail, succ))
    case EnqSwing(n, tail) => sh.(tail := Cas(sh.tail, tail, n))
    case DeqHelp(tail, succ) => sh.(tail := Cas(sh.tail, tail, succ))
    case DeqCas(_, head, succ) => sh.(head := Cas(sh.head, head, succ))
    case FreeLink(_, n, pool) => sh.(heap := SetNext(sh.heap, n, Tagged(pool.ptr, sh.heap[n].next.tag)))
    case FreeCas(_, n, pool) => sh.(pool := Cas(sh.pool, pool, n))
    case _ => sh
  }

  /** The thread's local state after that step. */
  function LocalStep<T(==)>(sh: Shared<T>, l: Local<T>, c: Choice<T>): Local<T>
    requires Safe(sh, l)
  {
    match l
    case Idle => if c.Enqueue? then AllocRead(c.v) else DeqHead
    case AllocRead(v) =>
      if sh.pool.ptr != NULL then AllocNext(v, sh.pool) else if c.Fresh? then Construct(v, c.n) else l
    case AllocNext(v, pool) => AllocCas(v, pool, sh.heap[pool.ptr].next.ptr)
    case AllocCas(v, pool, _) => if sh.pool == pool then Construct(v, pool.ptr) else AllocRead(v)
    case Construct(v, n) => EnqTail(v, n)
    case EnqTail(v, n) => EnqNext(v, n, sh.tail)
    case EnqNext(v, n, tail) => EnqCheck(v, n, tail, sh.heap[tail.ptr].next)
    case EnqCheck(v, n, tail, next) =>
      if tail != sh.tail then EnqTail(v, n)
      else if next.ptr == NULL then EnqLink(v, n, tail, next) else EnqHelp(v, n, tail, next.ptr)
    case EnqLink(v, n, tail, next) => if sh.heap[tail.ptr].next == next then EnqSwing(n, tail) else EnqTail(v, n)
    case EnqHelp(v, n, _, _) => EnqTail(v, n)
    case EnqSwing(_, _) => EnqReturn
    case EnqReturn => Idle
    case DeqHead => DeqTail(sh.head)
    case DeqTail(head) => DeqNext(head, sh.tail)
    case DeqNext(head, tail) => DeqCheck(head, tail, sh.heap[head.ptr].next.ptr)
    case DeqCheck(head, tail, succ) =>
      if head != sh.head then DeqHead
      else if head.ptr == tail.ptr then (if succ == NULL then DeqEmpty else DeqHelp(tail, succ))
      else DeqData(head, succ)
    case DeqHelp(_, _) => DeqHead
    case DeqData(head, succ) => DeqCas(sh.heap[succ].data, head, succ)
    case DeqCas(v, head, _) => if sh.head == head then FreeRead(v, head.ptr) else DeqHead
    case DeqEmpty => Idle
    case FreeRead(v, n) => FreeLink(v, n, sh.pool)
    case FreeLink(v, n, pool) => FreeCas(v, n, pool)
    case FreeCas(v, n, pool) => if sh.pool == pool then DeqReturn(v) else FreeRead(v, n)
    case DeqReturn(_) => Idle
  }

  /** What the outside sees of a step: calls and returns. */
  function EventOf<T>(l: Local<T>, t: Tid, c: Choice<T>): Event<T> {
    match l
    case Idle => if c.Enqueue? then CallEnq(t, c.v) else CallDeq(t)
    case EnqReturn => RetEnq(t)
    case DeqReturn(v) => RetDeq(t, v)
    case DeqEmpty => RetEmpty(t)
    case _ => Internal
  }

  /** One step of the system.  Dereferencing a block that is not a node is undefined: then
      anything may follow, and nothing can be concluded from such a run. */
  predicate Next<T(==)>(s: State<T>, t: Tid, c: Choice<T>, s': State<T>) {
    && Enabled(s, t, c)
    && (Safe(s.sh, s.threads[t]) ==>
          s' == State(ShStep(s.sh, s.threads[t], c), s.threads[t := LocalStep(s.sh, s.threads[t], c)]))
  }

  // ---------------------------------------------------------------- the invariant

  /** Where the live queue nodes (dummy first) and the pooled nodes are. */
  datatype View = View(live: seq<Addr>, free: seq<Addr>)

  /** `xs` is a null-terminated list in the heap. */
  ghost predicate Chain<T>(heap: map<Addr, Node<T>>, xs: seq<Addr>) {
    && (forall i :: 0 <= i < |xs| ==> xs[i] != NULL && xs[i] in heap)
    && (forall i, j :: 0 <= i < j < |xs| && j == i + 1 ==> heap[xs[i]].next.ptr == xs[j])
    && (xs != [] ==> heap[xs[|xs| - 1]].next.ptr == NULL)
  }

  /** The tail pointer lags one node behind. */
  ghost predicate Lagging<T>(sh: Shared<T>, live: seq<Addr>) {
    |live| >= 2 && sh.tail.ptr == live[|live| - 2]
  }

  ghost predicate Shape<T>(sh: Shared<T>, w: View) {
    && w.live != [] && NULL !in sh.heap
    && Chain(sh.heap, w.live) && Distinct(w.live)
    && Chain(sh.heap, w.free) && Distinct(w.free)
    && (forall i, j :: 0 <= i < |w.live| && 0 <= j < |w.free| ==> w.live[i] != w.free[j])
    && sh.head.ptr == w.live[0]
    && (sh.tail.ptr == Last(w.live) || Lagging(sh, w.live))
    && sh.pool.ptr == Nth(w.free, 0)
  }

  /** `k` was the tag of `a.next` when `a` was the last node and the tail pointed at it;
      the tag can only still be `k` if that has not changed. */
  ghost predicate LinkTag<T>(sh: Shared<T>, w: View, a: Addr, k: nat)
    requires w.live != [] && a in sh.heap
  {
    && k <= sh.heap[a].next.tag
    && (k == sh.heap[a].next.tag ==> a == Last(w.live) && sh.tail.ptr == a)
  }

  /** A tail swing from `tail` to `succ` can only succeed from the second-to-last node to the last. */
  ghost predicate SwingOk<T>(sh: Shared<T>, w: View, tail: Tagged, succ: Addr)
    requires w.live != []
  {
    Stale(tail, sh.tail) && (tail == sh.tail ==> Lagging(sh, w.live) && succ == Last(w.live))
  }

  /** The node a thread holds privately, if any. */
  function Own<T>(l: Local<T>): Addr {
    match l
    case Construct(_, n) => n
    case EnqTail(_, n) => n
    case EnqNext(_, n, _) => n
    case EnqCheck(_, n, _, _) => n
    case EnqLink(_, n, _, _) => n
    case EnqHelp(_, n, _, _) => n
    case FreeRead(_, n) => n
    case FreeLink(_, n, _) => n
    case FreeCas(_, n, _) => n
    case _ => NULL
  }

  ghost predicate Private<T>(sh: Shared<T>, w: View, n: Addr) {
    n != NULL && n in sh.heap && n !in w.live && n !in w.free
  }

  /** A private node that has been constructed for value `v`. */
  ghost predicate Ready<T>(sh: Shared<T>, w: View, n: Addr, v: T) {
    Private(sh, w, n) && sh.heap[n].next.ptr == NULL && sh.heap[n].data == v
  }

  /** What a thread may rely on at each program point. */
  ghost predicate LocalInv<T>(sh: Shared<T>, w: View, l: Local<T>)
    requires w.live != []
  {
    match l
    case AllocNext(_, pool) => pool.ptr in sh.heap && pool.ptr != NULL && Stale(pool, sh.pool)
    case AllocCas(_, pool, succ) =>
      && pool.ptr in sh.heap && pool.ptr != NULL && Stale(pool, sh.pool)
      && (pool == sh.pool ==> succ == Nth(w.free, 1))
    case Construct(_, n) => Private(sh, w, n)
    case EnqTail(v, n) => Ready(sh, w, n, v)
    case EnqNext(v, n, tail) => Ready(sh, w, n, v) && tail.ptr in sh.heap && Stale(tail, sh.tail)
    case EnqCheck(v, n, tail, next) =>
      && Ready(sh, w, n, v) && tail.ptr in sh.heap && Stale(tail, sh.tail)
      && (tail == sh.tail ==>
            if next.ptr == NULL then LinkTag(sh, w, tail.ptr, next.tag) else SwingOk(sh, w, tail, next.ptr))
    case EnqLink(v, n, tail, next) =>
      && Ready(sh, w, n, v) && tail.ptr in sh.heap && Stale(tail, sh.tail)
      && next.ptr == NULL && LinkTag(sh, w, tail.ptr, next.tag)
    case EnqHelp(v, n, tail, succ) => Ready(sh, w, n, v) && SwingOk(sh, w, tail, succ)
    case EnqSwing(n, tail) => SwingOk(sh, w, tail, n)
    case DeqTail(head) => head.ptr in sh.heap && Stale(head, sh.head)
    case DeqNext(head, tail) =>
      && head.ptr in sh.heap && Stale(head, sh.head) && Stale(tail, sh.tail)
      && (head == sh.head && head.ptr != tail.ptr ==> sh.tail.ptr != head.ptr)
    case DeqCheck(head, tail, succ) =>
      && head.ptr in sh.heap && Stale(head, sh.head) && Stale(tail, sh.tail)
      && (head == sh.head && head.ptr != tail.ptr ==> sh.tail.ptr != head.ptr && |w.live| >= 2 && succ == w.live[1])
      && (head == sh.head && succ != NULL ==> succ == Nth(w.live, 1))
    case DeqHelp(tail, succ) => SwingOk(sh, w, tail, succ)
    case DeqData(head, succ) =>
      && Stale(head, sh.head) && succ in sh.heap
      && (head == sh.head ==> sh.tail.ptr != head.ptr && |w.live| >= 2 && succ == w.live[1])
    case DeqCas(v, head, succ) =>
      && Stale(head, sh.head) && succ in sh.heap
      && (head == sh.head ==>
            sh.tail.ptr != head.ptr && |w.live| >= 2 && succ == w.live[1] && sh.heap[succ].data == v)
    case FreeRead(_, n) => Private(sh, w, n)
    case FreeLink(_, n, pool) => Private(sh, w, n) && Stale(pool, sh.pool)
    case FreeCas(_, n, pool) => Private(sh, w, n) && Stale(pool, sh.pool) && sh.heap[n].next.ptr == pool.ptr
    case _ => true
  }

  /** Lists well formed, every thread's expectations met, and no node in two places:
      queue, pool and the threads' private nodes do not overlap. */
  ghost predicate Inv<T>(s: State<T>, w: View) {
    && Shape(s.sh, w)
    && (forall t :: t in s.threads ==> LocalInv(s.sh, w, s.threads[t]))
    && (forall t, u :: t in s.threads && u in s.threads && t != u && Own(s.threads[t]) != NULL
                       ==> Own(s.threads[t]) != Own(s.threads[u]))
  }

  /** Some thread holds node `n`. */
  ghost predicate Owned<T>(s: State<T>, n: Addr) {
    exists t :: t in s.threads && Own(s.threads[t]) == n
  }

  /** Every node is in the queue, in the pool, or held by a thread. */
  ghost predicate NoLeak<T>(s: State<T>, w: View) {
    forall n :: n in s.sh.heap ==> n in w.live || n in w.free || Owned(s, n)
  }

  // ---------------------------------------------------------------- effect of each step on the view

  /** The view after a step of a thread whose local state is `l`. */
  function ViewStep<T(==)>(sh: Shared<T>, w: View, l: Local<T>): View
    requires Safe(sh, l)
  {
    match l
    case AllocCas(_, pool, _) => if sh.pool == pool && w.free != [] then w.(free := w.free[1..]) else w
    case EnqLink(_, n, tail, next) => if sh.heap[tail.ptr].next == next then w.(live := w.live + [n]) else w
    case DeqCas(_, head, _) => if sh.head == head && w.live != [] then w.(live := w.live[1..]) else w
    case FreeCas(_, n, pool) => if sh.pool == pool then w.(free := [n] + w.free) else w
    case _ => w
  }

  /** Memory safety: under the invariant no step dereferences anything but a node. */
  lemma InvSafe<T>(s: State<T>, w: View, t: Tid)
    requires Inv(s, w) && t in s.threads
    ensures Safe(s.sh, s.threads[t])
  {
    assert LocalInv(s.sh, w, s.threads[t]);
  }
}
