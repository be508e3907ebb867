/** What the scan and max_cache_size settings of FileService promise, over every run. */
module FileCacheSettings {
  import opened Wrappers
  import opened Bytes
  import opened FileCache

  /** The cache after a history of requests, from whatever the start of the service left. */
  function After(g: Service, cache: Cache, history: History): Cache
    decreases |history|
  {
    if history == [] then cache else After(g, Serve(g, cache, history[0].0, history[0].1).1, history[1..])
  }

  // ---------------------------------------------------------------- no new files

  predicate NoNewFiles(g: Service) { g.scan == 1 || g.scan == 3 }

  /** With scan=1 or scan=3 no file is ever added: over every run the cache has entries for
      exactly the files found at the start, and all others are answered as not found. */
  lemma {:induction false} NoFileAdded(g: Service, cache: Cache, history: History, disk: Disk, q: Query)
    requires NoNewFiles(g)
    ensures After(g, cache, history).Keys == cache.Keys
    ensures q.path !in cache ==>
              Serve(g, After(g, cache, history), disk, q) == (NotFound, After(g, cache, history))
    decreases |history|
  {
    if history != [] {
      var (d, r) := history[0];
      NoFileAdded(g, Serve(g, cache, d, r).1, history[1..], disk, q);
    }
  }

  /** With scan=1 and no cache an entry is only a name: the file is answered as it is now. */
  lemma NamesOnly(g: Service, cache: Cache, disk: Disk, q: Query)
    requires g.cache == 0 && g.scan > 0 && q.path in cache && cache[q.path].mime == g.mime(q.path)
    ensures Serve(g, cache, disk, q) == (if q.path in disk then Current(g, disk[q.path], q) else ServerError, cache)
  {
    if q.path in disk {
      WholeContent(disk[q.path]);
    }
  }

  /** The entry of a file that has not been looked at since the start. */
  predicate Placeholder(g: Service, cache: Cache, p: Path) {
    p in cache && cache[p].mime == g.mime(p) && cache[p].mtime == 0
  }

  /** The first request fills such an entry in, and is answered with the file as it is. */
  lemma PlaceholderFilled(g: Service, cache: Cache, disk: Disk, q: Query)
    requires g.cache > 0 && Placeholder(g, cache, q.path) && q.path in disk
    requires disk[q.path].readable || !SmallEnough(g, |disk[q.path].content|)
    ensures var file, (r, after) := disk[q.path], Serve(g, cache, disk, q);
            && r == Current(g, file, q) && after.Keys == cache.Keys
            && (forall p :: p in cache && p != q.path ==> after[p] == cache[p])
            && after[q.path] == DiskFile(if SmallEnough(g, |file.content|) then Some(file.content) else None,
                                         |file.content|, file.mtime, g.mime(q.path))
  {
    WholeContent(disk[q.path]);
  }

  // ---------------------------------------------------------------- max_cache_size

  /** No content larger than max_cache_size is held in memory. */
  predicate WithinLimit(g: Service, cache: Cache) {
    forall p :: p in cache && cache[p].content.Some? ==> SmallEnough(g, |cache[p].content.value|)
  }

  /** The request finds a cached file changed and now larger than max_cache_size. */
  predicate Outgrows(g: Service, cache: Cache, disk: Disk, q: Query) {
    && g.cache == 1 && q.path in cache && q.path in disk && cache[q.path].mtime != 0
    && (cache[q.path].mtime != disk[q.path].mtime || cache[q.path].size != |disk[q.path].content|)
    && !SmallEnough(g, |disk[q.path].content|)
  }

  /** A request keeps within the limit exactly if it does not find a cached file grown beyond
      it: checkUpdated reads the new contents whatever their size. */
  lemma LimitKept(g: Service, cache: Cache, disk: Disk, q: Query)
    requires g.cache <= 2 && WithinLimit(g, cache)
    ensures WithinLimit(g, Serve(g, cache, disk, q).1) <==> !Outgrows(g, cache, disk, q)
  {
    var after := Serve(g, cache, disk, q).1;
    if Outgrows(g, cache, disk, q) {
      assert after[q.path].content.Some? && |after[q.path].content.value| == |disk[q.path].content|;
    } else {
      forall p | p in after && after[p].content.Some?
        ensures SmallEnough(g, |after[p].content.value|)
      {
        if p != q.path {
          assert p in cache && cache[p] == after[p];
        }
      }
    }
  }

  /** Request `i` of a run finds a cached file grown beyond the limit. */
  predicate OutgrowsAt(g: Service, cache: Cache, history: History, i: nat)
    requires i < |history|
  {
    Outgrows(g, After(g, cache, history[..i]), history[i].0, history[i].1)
  }

  /** Before request `i` the limit is kept. */
  predicate WithinAt(g: Service, cache: Cache, history: History, i: nat)
    requires i <= |history|
  {
    WithinLimit(g, After(g, cache, history[..i]))
  }

  lemma {:induction false} AfterOne(g: Service, cache: Cache, history: History)
    requires history != []
    ensures var n := |history| - 1;
            After(g, cache, history) == Serve(g, After(g, cache, history[..n]), history[n].0, history[n].1).1
    decreases |history|
  {
    hide Serve;
    var n := |history| - 1;
    if n == 0 {
      assert history[1..] == [] && history[..0] == [];
    } else {
      AfterOne(g, Serve(g, cache, history[0].0, history[0].1).1, history[1..]);
      assert history[1..][..n - 1] == history[..n][1..];
    }
  }

  /** Over every run the limit is kept until a cached file is found grown beyond it, and
      broken then; with cache=2 or no cache it is always kept. */
  lemma {:induction false} LimitOverRuns(g: Service, cache: Cache, history: History)
    requires g.cache <= 2 && WithinLimit(g, cache)
    ensures (forall i :: 0 <= i <= |history| ==> WithinAt(g, cache, history, i))
            <==> (forall i :: 0 <= i < |history| ==> !OutgrowsAt(g, cache, history, i))
    ensures g.cache != 1 ==> WithinLimit(g, After(g, cache, history))
    decreases |history|
  {
    hide Serve, After, WithinLimit, Outgrows;
    var n := |history|;
    assert history[..n] == history;
    if n == 0 {
      assert WithinLimit(g, After(g, cache, [])) by { AfterNothing(g, cache); }
    } else {
      var h := history[..n - 1];
      LimitOverRuns(g, cache, h);
      assert forall i :: 0 <= i < n ==> h[..i] == history[..i];
      assert forall i :: 0 <= i < n ==> WithinAt(g, cache, h, i) == WithinAt(g, cache, history, i);
      assert forall i :: 0 <= i < n - 1 ==> OutgrowsAt(g, cache, h, i) == OutgrowsAt(g, cache, history, i);
      AfterOne(g, cache, history);
      if WithinAt(g, cache, history, n - 1) {
        LimitKept(g, After(g, cache, h), history[n - 1].0, history[n - 1].1);
        assert WithinAt(g, cache, history, n) <==> !OutgrowsAt(g, cache, history, n - 1);
      }
      if g.cache != 1 {
        NeverOutgrows(g, After(g, cache, h), history[n - 1].0, history[n - 1].1);
      }
    }
  }

  lemma AfterNothing(g: Service, cache: Cache)
    ensures After(g, cache, []) == cache
  {
  }

  lemma NeverOutgrows(g: Service, cache: Cache, disk: Disk, q: Query)
    requires g.cache != 1
    ensures !Outgrows(g, cache, disk, q)
  {
  }
}
