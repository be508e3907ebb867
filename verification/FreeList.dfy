/** caching_freelist by itself, under any clients: threads allocate and deallocate in any
    interleaving, hold any number of nodes, write what they like into them and hand them on.
    Every shared read, write or compare-and-swap is one step.  Tags are unbounded. */
module FreeList {
  import opened Sequences
  import opened Pointers

  type Tid = nat

  /** A thread's program counter together with its local variables. */
  datatype Local =
    | Idle
    // allocate
    | AllocRead
    | AllocNext(pool: Tagged)
    | AllocCas(pool: Tagged, succ: Addr)
    // deallocate
    | FreeRead(n: Addr)
    | FreeLink(n: Addr, pool: Tagged)
    | FreeCas(n: Addr, pool: Tagged)

  /** The heap has, for every node ever handed out, the word that deallocate uses as its link;
      between allocation and deallocation that word is the client's.  `owner` tells which
      thread has been given a node and has not given it back. */
  datatype State = State(heap: map<Addr, Tagged>, pool: Tagged, owner: map<Addr, Tid>, threads: map<Tid, Local>)

  /** What an idle thread does next, and what the system allocator hands out when the pool is
      empty: an unused block with arbitrary contents. */
  datatype Choice =
    | Allocate
    | Deallocate(n: Addr)
    | Write(n: Addr, word: Tagged)
    | Give(n: Addr, to: Tid)
    | Fresh(n: Addr, word: Tagged)
    | Go

  /** The node a thread is about to give back. */
  function Releasing(l: Local): Addr {
    match l
    case FreeRead(n) => n
    case FreeLink(n, _) => n
    case FreeCas(n, _) => n
    case _ => NULL
  }

  /** A node in use: it is owned, and its owner is not giving it back. */
  predicate InUse(s: State, n: Addr) {
    n in s.owner && s.owner[n] in s.threads && Releasing(s.threads[s.owner[n]]) != n
  }

  /** Clients obey one rule: a thread gives back, or hands on, only what it owns.  Any thread
      may write into any node in use, also another thread's. */
  predicate Enabled(s: State, t: Tid, c: Choice) {
    t in s.threads &&
    match s.threads[t]
    case Idle =>
      (match c
       case Allocate => true
       case Deallocate(n) => n in s.owner && s.owner[n] == t
       case Write(n, _) => InUse(s, n)
       case Give(n, to) => n in s.owner && s.owner[n] == t && to in s.threads
       case _ => false)
    case AllocRead => if s.pool.ptr == NULL then c.Fresh? && c.n != NULL && c.n !in s.heap else c.Go?
    case _ => c.Go?
  }

  /** The dereference of the next step, if any, hits a node. */
  predicate Safe(s: State, l: Local) {
    match l
    case AllocNext(pool) => pool.ptr in s.heap
    case FreeLink(n, _) => n in s.heap
    case _ => true
  }

  /** One step of thread `t`; a compare-and-swap compares pointer and tag and bumps the tag. */
  function Step(s: State, t: Tid, c: Choice): State
    requires Enabled(s, t, c) && Safe(s, s.threads[t])
  {
    match s.threads[t]
    case Idle =>
      (match c
       case Allocate => s.(threads := s.threads[t := AllocRead])
       case Deallocate(n) => s.(threads := s.threads[t := FreeRead(n)])
       case Write(n, word) => s.(heap := s.heap[n := word])
       case Give(n, to) => s.(owner := s.owner[n := to])
       case _ => s)
    case AllocRead =>
      if s.pool.ptr == NULL
      then s.(heap := s.heap[c.n := c.word], owner := s.owner[c.n := t], threads := s.threads[t := Idle])
      else s.(threads := s.threads[t := AllocNext(s.pool)])
    case AllocNext(pool) => s.(threads := s.threads[t := AllocCas(pool, s.heap[pool.ptr].ptr)])
    case AllocCas(pool, succ) =>
      if s.pool == pool
      then s.(pool := Cas(s.pool, pool, succ), owner := s.owner[pool.ptr := t], threads := s.threads[t := Idle])
      else s.(threads := s.threads[t := AllocRead])
    case FreeRead(n) => s.(threads := s.threads[t := FreeLink(n, s.pool)])
    case FreeLink(n, pool) =>
      s.(heap := s.heap[n := Tagged(pool.ptr, s.heap[n].tag)], threads := s.threads[t := FreeCas(n, pool)])
    case FreeCas(n, pool) =>
      if s.pool == pool
      then s.(pool := Cas(s.pool, pool, n), owner := s.owner - {n}, threads := s.threads[t := Idle])
      else s.(threads := s.threads[t := FreeRead(n)])
  }

  /** After a wild dereference anything may follow. */
  predicate Next(s: State, t: Tid, c: Choice, s': State) {
    Enabled(s, t, c) && (Safe(s, s.threads[t]) ==> s' == Step(s, t, c))
  }

  // ---------------------------------------------------------------- the invariant

  /** `free` is the null-terminated list that starts at the pool pointer, without repetition. */
  ghost predicate ListFrom(s: State, free: seq<Addr>) {
    && s.pool.ptr == Nth(free, 0) && Distinct(free)
    && (forall i :: 0 <= i < |free| ==> free[i] != NULL && free[i] in s.heap)
    && (forall i, j :: 0 <= i < j < |free| && j == i + 1 ==> s.heap[free[i]].ptr == free[j])
    && (free != [] ==> s.heap[free[|free| - 1]].ptr == NULL)
  }

  /** Every node is on the list, or owned by one thread, and not both. */
  ghost predicate OnePlace(s: State, free: seq<Addr>) {
    && NULL !in s.heap
    && (forall n :: n in s.heap <==> n in free || n in s.owner)
    && (forall n :: n in free ==> n !in s.owner)
    && (forall n :: n in s.owner ==> s.owner[n] in s.threads)
  }

  /** What a thread may rely on at each program point. */
  ghost predicate Knows(s: State, free: seq<Addr>, t: Tid, l: Local) {
    match l
    case Idle => true
    case AllocRead => true
    case AllocNext(pool) => pool.ptr in s.heap && Stale(pool, s.pool)
    case AllocCas(pool, succ) =>
      pool.ptr in s.heap && Stale(pool, s.pool) && (pool == s.pool ==> succ == Nth(free, 1))
    case FreeRead(n) => n in s.owner && s.owner[n] == t
    case FreeLink(n, pool) => n in s.owner && s.owner[n] == t && Stale(pool, s.pool)
    case FreeCas(n, pool) =>
      n in s.owner && s.owner[n] == t && n in s.heap && s.heap[n].ptr == pool.ptr && Stale(pool, s.pool)
  }

  ghost predicate Inv(s: State, free: seq<Addr>) {
    ListFrom(s, free) && OnePlace(s, free) && forall t :: t in s.threads ==> Knows(s, free, t, s.threads[t])
  }

  /** The list after a step. */
  function ListStep(s: State, free: seq<Addr>, l: Local): seq<Addr> {
    match l
    case AllocCas(pool, _) => if s.pool == pool && free != [] then free[1..] else free
    case FreeCas(n, pool) => if s.pool == pool then [n] + free else free
    case _ => free
  }

  lemma InvSafe(s: State, free: seq<Addr>, t: Tid)
    requires Inv(s, free) && t in s.threads
    ensures Safe(s, s.threads[t])
  {
    assert Knows(s, free, t, s.threads[t]);
  }

  lemma PlacesKept(s: State, free: seq<Addr>, t: Tid, c: Choice)
    requires Inv(s, free) && Enabled(s, t, c) && Safe(s, s.threads[t])
    ensures OnePlace(Step(s, t, c), ListStep(s, free, s.threads[t]))
  {
    assert Knows(s, free, t, s.threads[t]);
    var l := s.threads[t];
    assert free != [] ==> forall n :: n in free <==> n == free[0] || n in free[1..];
  }

  lemma ListKept(s: State, free: seq<Addr>, t: Tid, c: Choice)
    requires Inv(s, free) && Enabled(s, t, c) && Safe(s, s.threads[t])
    ensures ListFrom(Step(s, t, c), ListStep(s, free, s.threads[t]))
  {
    assert Knows(s, free, t, s.threads[t]);
    var l, s' := s.threads[t], Step(s, t, c);
    assert forall i :: 0 <= i < |free| ==> free[i] in s'.heap && s'.heap[free[i]] == s.heap[free[i]];
  }

  lemma SelfKnows(s: State, free: seq<Addr>, t: Tid, c: Choice)
    requires Inv(s, free) && Enabled(s, t, c) && Safe(s, s.threads[t])
    ensures var s' := Step(s, t, c); t in s'.threads && Knows(s', ListStep(s, free, s.threads[t]), t, s'.threads[t])
  {
    assert Knows(s, free, t, s.threads[t]);
    assert |free| >= 2 ==> s.heap[free[0]].ptr == free[1];
  }

  /** What thread `u` knows is still true after a step of thread `t`. */
  ghost predicate KeepsOther(s: State, free: seq<Addr>, t: Tid, c: Choice, u: Tid)
    requires Enabled(s, t, c) && Safe(s, s.threads[t])
  {
    var s' := Step(s, t, c);
    u in s'.threads && Knows(s', ListStep(s, free, s.threads[t]), u, s'.threads[u])
  }

  lemma ClientKeepsOther(s: State, free: seq<Addr>, t: Tid, c: Choice, u: Tid)
    requires Inv(s, free) && Enabled(s, t, c) && u in s.threads && u != t && s.threads[t].Idle?
    ensures KeepsOther(s, free, t, c, u)
  {
    hide ListFrom;
    assert Knows(s, free, u, s.threads[u]);
  }

  lemma AllocateKeepsOther(s: State, free: seq<Addr>, t: Tid, c: Choice, u: Tid)
    requires Inv(s, free) && Enabled(s, t, c) && Safe(s, s.threads[t]) && u in s.threads && u != t
    requires s.threads[t].AllocRead? || s.threads[t].AllocNext? || s.threads[t].AllocCas?
    ensures KeepsOther(s, free, t, c, u)
  {
    hide ListFrom;
    PoolNotOwned(s, free);
    assert Knows(s, free, u, s.threads[u]);
  }

  lemma DeallocateKeepsOther(s: State, free: seq<Addr>, t: Tid, c: Choice, u: Tid)
    requires Inv(s, free) && Enabled(s, t, c) && Safe(s, s.threads[t]) && u in s.threads && u != t
    requires s.threads[t].FreeRead? || s.threads[t].FreeLink? || s.threads[t].FreeCas?
    ensures KeepsOther(s, free, t, c, u)
  {
    hide ListFrom;
    assert Knows(s, free, t, s.threads[t]) && Knows(s, free, u, s.threads[u]);
  }

  lemma OtherKnows(s: State, free: seq<Addr>, t: Tid, c: Choice, u: Tid)
    requires Inv(s, free) && Enabled(s, t, c) && Safe(s, s.threads[t]) && u in s.threads && u != t
    ensures KeepsOther(s, free, t, c, u)
  {
    hide Inv, KeepsOther;
    match s.threads[t] {
      case Idle => ClientKeepsOther(s, free, t, c, u);
      case AllocRead | AllocNext(_) | AllocCas(_, _) => AllocateKeepsOther(s, free, t, c, u);
      case FreeRead(_) | FreeLink(_, _) | FreeCas(_, _) => DeallocateKeepsOther(s, free, t, c, u);
    }
  }

  lemma PoolNotOwned(s: State, free: seq<Addr>)
    requires ListFrom(s, free) && OnePlace(s, free)
    ensures s.pool.ptr !in s.owner
  {
  }

  /** Every step of every thread keeps the invariant and dereferences only nodes. */
  lemma InvKept(s: State, free: seq<Addr>, t: Tid, c: Choice, s': State)
    requires Inv(s, free) && Next(s, t, c, s')
    ensures t in s.threads && Safe(s, s.threads[t]) && Inv(s', ListStep(s, free, s.threads[t]))
  {
    hide ListFrom, OnePlace, Knows, ListStep;
    InvSafe(s, free, t);
    PlacesKept(s, free, t, c);
    ListKept(s, free, t, c);
    ThreadsKept(s, t, c);
    forall u | u in s'.threads
      ensures Knows(s', ListStep(s, free, s.threads[t]), u, s'.threads[u])
    {
      if u == t {
        SelfKnows(s, free, t, c);
      } else {
        OtherKnows(s, free, t, c, u);
      }
    }
  }

  lemma ThreadsKept(s: State, t: Tid, c: Choice)
    requires Enabled(s, t, c) && Safe(s, s.threads[t])
    ensures Step(s, t, c).threads.Keys == s.threads.Keys
  {
  }

  // ---------------------------------------------------------------- runs

  /** A list that has just been constructed: every node is on it, and no thread is using it. */
  ghost predicate Init(s: State) {
    && (exists free :: ListFrom(s, free) && OnePlace(s, free))
    && s.owner == map[] && forall t :: t in s.threads ==> s.threads[t].Idle?
  }

  /** A run: in step `i` thread `ts[i]` moves from `ss[i]` to `ss[i + 1]`. */
  ghost predicate Run(ss: seq<State>, ts: seq<Tid>, cs: seq<Choice>) {
    && |ss| == |ts| + 1 == |cs| + 1
    && Init(ss[0])
    && forall i :: 0 <= i < |ts| ==> Next(ss[i], ts[i], cs[i], ss[i + 1])
  }

  /** Free-list ownership: at every point of every run the free list is acyclic and
      null-terminated from the pool pointer, every node is on it once or owned by exactly one
      thread, and nothing is lost. */
  lemma {:induction false} Ownership(ss: seq<State>, ts: seq<Tid>, cs: seq<Choice>, k: nat) returns (free: seq<Addr>)
    requires Run(ss, ts, cs) && k < |ss|
    ensures ListFrom(ss[k], free) && OnePlace(ss[k], free) && Inv(ss[k], free)
    decreases k
  {
    hide ListFrom, OnePlace, Next;
    if k == 0 {
      free :| ListFrom(ss[0], free) && OnePlace(ss[0], free);
    } else {
      var before := Ownership(ss, ts, cs, k - 1);
      assert Next(ss[k - 1], ts[k - 1], cs[k - 1], ss[k - 1 + 1]);
      InvKept(ss[k - 1], before, ts[k - 1], cs[k - 1], ss[k]);
      free := ListStep(ss[k - 1], before, ss[k - 1].threads[ts[k - 1]]);
    }
  }

  /** The successful compare-and-swap of allocate: over every run it installs the current
      successor of the node it takes, although that was read before, and the list loses
      exactly its first node. */
  lemma PopTakesSuccessor(ss: seq<State>, ts: seq<Tid>, cs: seq<Choice>, k: nat) returns (free: seq<Addr>)
    requires Run(ss, ts, cs) && k < |ts| && ts[k] in ss[k].threads
    requires ss[k].threads[ts[k]].AllocCas? && ss[k].pool == ss[k].threads[ts[k]].pool
    ensures free != [] && ListFrom(ss[k], free) && ss[k].pool.ptr == free[0]
    ensures ss[k].threads[ts[k]].succ == ss[k].heap[free[0]].ptr
    ensures ListFrom(ss[k + 1], free[1..]) && free[0] in ss[k + 1].owner && ss[k + 1].owner[free[0]] == ts[k]
  {
    free := Ownership(ss, ts, cs, k);
    var s, t := ss[k], ts[k];
    assert Next(s, t, cs[k], ss[k + 1]);
    InvKept(s, free, t, cs[k], ss[k + 1]);
    assert Knows(s, free, t, s.threads[t]);
    assert |free| >= 2 ==> s.heap[free[0]].ptr == free[1];
  }

  /** The node that allocate returns: one that nobody owned. */
  predicate Returns(s: State, t: Tid, c: Choice, n: Addr) {
    t in s.threads
    && ((s.threads[t].AllocRead? && s.pool.ptr == NULL && c.Fresh? && n == c.n)
        || (s.threads[t].AllocCas? && s.pool == s.threads[t].pool && n == s.pool.ptr))
  }

  /** Over every run, allocate returns a node that no thread owned, and from then on exactly
      the calling thread owns it: to its clients the list is an allocator of unused nodes. */
  lemma AllocatedIsUnused(ss: seq<State>, ts: seq<Tid>, cs: seq<Choice>, k: nat, n: Addr)
    requires Run(ss, ts, cs) && k < |ts| && Returns(ss[k], ts[k], cs[k], n)
    ensures n != NULL && n !in ss[k].owner && ss[k + 1].owner == ss[k].owner[n := ts[k]]
            && ss[k + 1].threads[ts[k]].Idle?
  {
    var free := Ownership(ss, ts, cs, k);
    var s, t := ss[k], ts[k];
    assert Next(s, t, cs[k], ss[k + 1]);
    InvSafe(s, free, t);
    assert Knows(s, free, t, s.threads[t]);
  }

  /** Over every run, a step of the list itself never writes into a node in use: what a client
      stores there stays until a client changes it. */
  lemma ContentsKept(ss: seq<State>, ts: seq<Tid>, cs: seq<Choice>, k: nat, n: Addr)
    requires Run(ss, ts, cs) && k < |ts| && InUse(ss[k], n) && !(cs[k].Write? && cs[k].n == n)
    ensures n in ss[k].heap && n in ss[k + 1].heap && ss[k + 1].heap[n] == ss[k].heap[n]
  {
    var free := Ownership(ss, ts, cs, k);
    var s, t := ss[k], ts[k];
    assert Next(s, t, cs[k], ss[k + 1]);
    InvSafe(s, free, t);
    assert Knows(s, free, t, s.threads[t]);
  }

  /** The constructor with `initial` nodes: each is fresh from the system and deallocated. */
  method Construct(initial: nat, word: nat -> Tagged, threads: set<Tid>) returns (s: State)
    ensures Init(s) && (forall a :: a in s.heap <==> 1 <= a <= initial) && s.threads.Keys == threads
  {
    var heap: map<Addr, Tagged>, pool := map[], Tagged(NULL, 0);
    for i := 0 to initial
      invariant pool.ptr == i
      invariant forall a :: a in heap <==> 1 <= a <= i
      invariant forall a :: a in heap ==> heap[a].ptr == a - 1
    {
      heap := heap[i + 1 := Tagged(pool.ptr, word(i + 1).tag)];
      pool := Tagged(i + 1, pool.tag + 1);
    }
    s := State(heap, pool, map[], map t | t in threads :: Idle);
    Counted(s, initial);
  }

  lemma Counted(s: State, n: nat)
    requires s.pool.ptr == n && s.owner == map[]
    requires forall a :: a in s.heap <==> 1 <= a <= n
    requires forall a :: a in s.heap ==> s.heap[a].ptr == a - 1
    ensures exists free :: ListFrom(s, free) && OnePlace(s, free)
  {
    var free := seq(n, i requires 0 <= i < n => n - i);
    forall a | 1 <= a <= n
      ensures a in free
    {
      assert free[n - a] == a;
    }
    assert ListFrom(s, free) && OnePlace(s, free);
  }
}
