/** The GET and HEAD branch of FileService with its cache of disk files. */
module FileCache {
  import opened Wrappers
  import opened Bytes

  type Path = bytes

  /** A file as the file system has it; one that is not readable cannot be opened. */
  datatype File = File(mtime: nat, content: bytes, readable: bool)

  type Disk = map<Path, File>

  /** DiskFile: content only if there is a buffer for it in memory. */
  datatype DiskFile = DiskFile(content: Option<bytes>, size: nat, mtime: nat, mime: bytes)

  type Cache = map<Path, DiskFile>

  /** The options; `mime` is findMIMEType, `date` is get_date_string, and `junk(i)` is what
      byte `i` of a newly allocated buffer happens to contain. */
  datatype Service = Service(cache: nat, scan: nat, maxCacheSize: nat, mime: Path -> bytes, date: nat -> bytes,
      junk: nat -> byte)

  datatype Query = Query(path: Path, head: bool, ifModifiedSince: bytes)

  /** `ServerError` is an exception on the way, `NoReply` a file that cannot be opened when it
      is to be sent, `Incomplete` one that turns out shorter than recorded. */
  datatype Reply =
    | NotFound
    | NotModified(mime: bytes, date: bytes)
    | HeadOk(mime: bytes, date: bytes)
    | Content(mime: bytes, date: bytes, body: bytes)
    | ServerError
    | NoReply
    | Incomplete

  // ---------------------------------------------------------------- DiskFile

  /** update: the file's size and time of modification are taken. */
  function Updated(f: DiskFile, file: File): DiskFile { f.(size := |file.content|, mtime := file.mtime) }

  /** A buffer fresh from the allocator. */
  function Fresh(g: Service, n: nat): bytes { seq<byte>(n, i requires 0 <= i < n => g.junk(i)) }

  /** read: the buffer is replaced before the file is opened, so that a file that cannot be
      read leaves a fresh buffer behind.  The second component tells whether it was read. */
  function ReadIn(g: Service, f: DiskFile, file: File): (DiskFile, bool)
    requires f.size == |file.content|
  {
    (f.(content := Some(if file.readable then file.content else Fresh(g, f.size))), file.readable)
  }

  /** checkUpdated: size and time are replaced before the new contents are read. */
  function Rechecked(g: Service, f: DiskFile, file: File): (DiskFile, bool) {
    if file.mtime == f.mtime && |file.content| == f.size then (f, true) else ReadIn(g, Updated(f, file), file)
  }

  /** The reply made from a disk file: what is not in memory is streamed from the disk, and
      nothing is opened for a file recorded as empty. */
  function ReplyFrom(g: Service, f: DiskFile, disk: Disk, q: Query): Reply {
    if g.date(f.mtime) == q.ifModifiedSince then NotModified(f.mime, g.date(f.mtime))
    else if q.head then HeadOk(f.mime, g.date(f.mtime))
    else match f.content
      case Some(body) => Content(f.mime, g.date(f.mtime), body)
      case None =>
        if f.size == 0 then Content(f.mime, g.date(f.mtime), [])
        else if q.path !in disk || !disk[q.path].readable then NoReply
        else if f.size <= |disk[q.path].content| then Content(f.mime, g.date(f.mtime), disk[q.path].content[..f.size])
        else Incomplete
  }

  predicate SmallEnough(g: Service, size: nat) { g.maxCacheSize == 0 || size <= g.maxCacheSize }

  /** A request answered without a cache entry; an entry is made only once the file has
      been read. */
  function Uncached(g: Service, cache: Cache, disk: Disk, q: Query): (Reply, Cache) {
    if q.path !in disk then (NotFound, cache)
    else
      var file := disk[q.path];
      var f := DiskFile(None, |file.content|, file.mtime, g.mime(q.path));
      if g.date(f.mtime) == q.ifModifiedSince || q.head || g.cache == 0 then (ReplyFrom(g, f, disk, q), cache)
      else if SmallEnough(g, f.size) then
        var (f', ok) := ReadIn(g, f, file);
        if ok then (ReplyFrom(g, f', disk, q), cache[q.path := f']) else (ServerError, cache)
      else (ReplyFrom(g, f, disk, q), cache[q.path := f])
  }

  /** What becomes of a cache entry when it is used, and whether that succeeds. */
  function Refreshed(g: Service, f: DiskFile, disk: Disk, path: Path): (DiskFile, bool) {
    if f.mtime == 0 then
      if path !in disk then (f, false)
      else
        var f1 := Updated(f, disk[path]);
        if SmallEnough(g, f1.size) then ReadIn(g, f1, disk[path]) else (f1.(content := None), true)
    else if g.cache == 1 then
      if path !in disk then (f, false) else Rechecked(g, f, disk[path])
    else (f, true)
  }

  /** The reply to one request, and the cache after it. */
  function Serve(g: Service, cache: Cache, disk: Disk, q: Query): (Reply, Cache) {
    if g.cache == 0 && g.scan == 0 then Uncached(g, cache, disk, q)
    else if q.path !in cache then
      if g.scan == 1 || g.scan == 3 then (NotFound, cache) else Uncached(g, cache, disk, q)
    else if g.cache == 0 then
      if q.path !in disk then (ServerError, cache)
      else (ReplyFrom(g, Updated(cache[q.path].(content := None), disk[q.path]), disk, q), cache)
    else
      var (f, ok) := Refreshed(g, cache[q.path], disk, q.path);
      (if ok then ReplyFrom(g, f, disk, q) else ServerError, cache[q.path := f])
  }

  /** FileService with its cache map. */
  class FileService {
    const g: Service
    var cache: Cache

    constructor (g: Service)
      ensures this.g == g && cache == map[]
    {
      this.g := g;
      cache := map[];
    }

    /** read on the cache entry, which is changed whether or not the file can be read. */
    method ReadEntry(path: Path, file: File) returns (ok: bool)
      requires path in cache && cache[path].size == |file.content|
      modifies this`cache
      ensures path in cache && (cache[path], ok) == ReadIn(g, old(cache[path]), file)
      ensures cache == old(cache)[path := cache[path]]
    {
      var entry := cache[path];
      cache := cache[path := entry.(content := Some(Fresh(g, entry.size)))];
      if !file.readable {
        return false;
      }
      cache := cache[path := entry.(content := Some(file.content))];
      ok := true;
    }

    /** The cache branch: the entry is brought up to date in place. */
    method RefreshEntry(disk: Disk, path: Path) returns (ok: bool)
      requires path in cache
      modifies this`cache
      ensures path in cache && (cache[path], ok) == Refreshed(g, old(cache[path]), disk, path)
      ensures cache == old(cache)[path := cache[path]]
    {
      var entry := cache[path];
      ok := true;
      if entry.mtime == 0 {
        if path !in disk {
          return false;
        }
        cache := cache[path := Updated(entry, disk[path])];
        if g.maxCacheSize == 0 || cache[path].size <= g.maxCacheSize {
          ok := ReadEntry(path, disk[path]);
        } else {
          cache := cache[path := cache[path].(content := None)];
        }
      } else if g.cache == 1 {
        if path !in disk {
          return false;
        }
        if disk[path].mtime != entry.mtime || |disk[path].content| != entry.size {
          cache := cache[path := Updated(entry, disk[path])];
          ok := ReadEntry(path, disk[path]);
        }
      }
    }

    /** The GET and HEAD branch of the request handler. */
    method Respond(disk: Disk, q: Query) returns (r: Reply)
      modifies this`cache
      ensures (r, cache) == Serve(g, old(cache), disk, q)
    {
      if g.cache > 0 || g.scan > 0 {
        if q.path !in cache {
          if g.scan == 1 || g.scan == 3 {
            return NotFound;
          }
        } else if g.cache == 0 {
          if q.path !in disk {
            return ServerError;
          }
          var response := Updated(cache[q.path].(content := None), disk[q.path]);
          return ReplyFrom(g, response, disk, q);
        } else {
          var ok := RefreshEntry(disk, q.path);
          return if ok then ReplyFrom(g, cache[q.path], disk, q) else ServerError;
        }
      }
      if q.path !in disk {
        return NotFound;
      }
      var file := disk[q.path];
      var response := DiskFile(None, |file.content|, file.mtime, g.mime(q.path));
      if g.date(response.mtime) != q.ifModifiedSince && !q.head && g.cache != 0 {
        if g.maxCacheSize == 0 || response.size <= g.maxCacheSize {
          if !file.readable {
            return ServerError;
          }
          response := response.(content := Some(file.content));
        }
        cache := cache[q.path := response];
      }
      r := ReplyFrom(g, response, disk, q);
    }
  }

  // ---------------------------------------------------------------- the reply a file calls for

  /** The file can be sent: an empty one is not even opened. */
  predicate Deliverable(file: File) { file.readable || file.content == [] }

  /** The reply the file as it is now calls for. */
  function Current(g: Service, file: File, q: Query): Reply {
    if g.date(file.mtime) == q.ifModifiedSince then NotModified(g.mime(q.path), g.date(file.mtime))
    else if q.head then HeadOk(g.mime(q.path), g.date(file.mtime))
    else if Deliverable(file) then Content(g.mime(q.path), g.date(file.mtime), file.content)
    else NoReply
  }

  lemma WholeContent(file: File)
    ensures file.content[..|file.content|] == file.content
  {
  }

  /** Without a cache every reply is current, and a missing file is not found. */
  lemma NoCacheIsCurrent(g: Service, cache: Cache, disk: Disk, q: Query)
    requires g.cache == 0 && g.scan == 0
    ensures Serve(g, cache, disk, q) == (if q.path in disk then Current(g, disk[q.path], q) else NotFound, cache)
  {
    if q.path in disk {
      WholeContent(disk[q.path]);
    }
  }

  // ---------------------------------------------------------------- exact agreement, for any cache

  /** Different times print differently. */
  ghost predicate DistinctDates(g: Service) { forall a, b :: g.date(a) == g.date(b) ==> a == b }

  /** The entry has the type its path calls for. */
  predicate Typed(g: Service, cache: Cache) { forall p :: p in cache ==> cache[p].mime == g.mime(p) }

  /** No content is asked for. */
  predicate HeadersOnly(g: Service, file: File, q: Query) { q.head || g.date(file.mtime) == q.ifModifiedSince }

  /** The content an entry stands for: in memory, or on the disk as far as it was recorded. */
  predicate Holds(f: DiskFile, file: File) {
    if f.content.Some? then Deliverable(file) && f.content.value == file.content else f.size == |file.content|
  }

  /** When an entry that is used as it is gives the current reply: its time is the file's
      and, if content is asked for, it holds the file's content.  (With nothing in memory, a
      file that cannot be opened goes unanswered under any recorded time.) */
  predicate UsedAsIs(g: Service, f: DiskFile, file: File, q: Query) {
    if f.content.None? && f.size > 0 && !file.readable && !q.head && g.date(f.mtime) != q.ifModifiedSince
    then g.date(file.mtime) != q.ifModifiedSince && file.content != []
    else f.mtime == file.mtime && (HeadersOnly(g, file, q) || Holds(f, file))
  }

  /** When a request is answered as it would be without a cache. */
  predicate Agrees(g: Service, entry: Option<DiskFile>, file: File, q: Query) {
    match entry
    case None => HeadersOnly(g, file, q) || file.readable || !SmallEnough(g, |file.content|)
    case Some(f) =>
      if f.mtime == 0 then file.readable || !SmallEnough(g, |file.content|)
      else if g.cache == 2 then UsedAsIs(g, f, file, q)
      else if f.mtime == file.mtime && f.size == |file.content| then HeadersOnly(g, file, q) || Holds(f, file)
      else file.readable
  }

  function Entry(cache: Cache, p: Path): Option<DiskFile> { if p in cache then Some(cache[p]) else None }

  lemma NewEntryAgrees(g: Service, cache: Cache, disk: Disk, q: Query)
    requires (g.cache == 1 || g.cache == 2) && g.scan == 0 && q.path in disk && q.path !in cache
    ensures Serve(g, cache, disk, q).0 == Current(g, disk[q.path], q) <==> Agrees(g, None, disk[q.path], q)
  {
    WholeContent(disk[q.path]);
  }

  lemma ReadEntryAgrees(g: Service, cache: Cache, disk: Disk, q: Query)
    requires (g.cache == 1 || g.cache == 2) && g.scan == 0 && q.path in disk && q.path in cache
             && cache[q.path].mime == g.mime(q.path)
    requires cache[q.path].mtime == 0 || g.cache == 1
    ensures Serve(g, cache, disk, q).0 == Current(g, disk[q.path], q)
            <==> Agrees(g, Some(cache[q.path]), disk[q.path], q)
  {
    WholeContent(disk[q.path]);
  }

  lemma OldEntryAgrees(g: Service, cache: Cache, disk: Disk, q: Query)
    requires g.cache == 2 && g.scan == 0 && DistinctDates(g)
    requires q.path in disk && q.path in cache && cache[q.path].mime == g.mime(q.path) && cache[q.path].mtime != 0
    ensures Serve(g, cache, disk, q).0 == Current(g, disk[q.path], q) <==> UsedAsIs(g, cache[q.path], disk[q.path], q)
  {
    WholeContent(disk[q.path]);
    assert g.date(cache[q.path].mtime) == g.date(disk[q.path].mtime) ==> cache[q.path].mtime == disk[q.path].mtime;
  }

  /** One request with the cache on, for whatever the cache holds: the reply for a file that
      exists is the current one if and only if the entry and the file agree. */
  lemma ServeAgrees(g: Service, cache: Cache, disk: Disk, q: Query)
    requires (g.cache == 1 || g.cache == 2) && g.scan == 0 && DistinctDates(g) && q.path in disk
    requires q.path in cache ==> cache[q.path].mime == g.mime(q.path)
    ensures Serve(g, cache, disk, q).0 == Current(g, disk[q.path], q)
            <==> Agrees(g, Entry(cache, q.path), disk[q.path], q)
  {
    hide UsedAsIs, DistinctDates;
    if q.path !in cache {
      NewEntryAgrees(g, cache, disk, q);
    } else if cache[q.path].mtime == 0 || g.cache == 1 {
      ReadEntryAgrees(g, cache, disk, q);
    } else {
      OldEntryAgrees(g, cache, disk, q);
    }
  }

  lemma ServeTyped(g: Service, cache: Cache, disk: Disk, q: Query)
    requires Typed(g, cache)
    ensures Typed(g, Serve(g, cache, disk, q).1)
  {
  }

  // ---------------------------------------------------------------- agreement while files can be read

  /** What the content of a file with this path, time and size is. */
  type Truth = (Path, nat, nat) -> bytes

  /** At this path, time and size determine the content. */
  predicate Determined(t: Truth, disk: Disk, p: Path) {
    p in disk ==> disk[p].content == t(p, disk[p].mtime, |disk[p].content|)
  }

  /** The cache entry at this path, if any, was true of its file when it was made. */
  predicate Truthful(g: Service, t: Truth, cache: Cache, p: Path) {
    p in cache ==>
      && cache[p].mime == g.mime(p)
      && (cache[p].content.Some? ==>
            cache[p].content.value == t(p, cache[p].mtime, cache[p].size) && |cache[p].content.value| == cache[p].size)
  }

  /** A request for another file, or for one that can be read, leaves the entry truthful. */
  lemma TruthKept(g: Service, t: Truth, cache: Cache, disk: Disk, q: Query, p: Path)
    requires Truthful(g, t, cache, p)
    requires q.path == p ==> Determined(t, disk, p) && (p in disk ==> disk[p].readable)
    ensures Truthful(g, t, Serve(g, cache, disk, q).1, p)
  {
  }

  /** A true entry becomes current when it is checked. */
  lemma RefreshedIsCurrent(g: Service, t: Truth, f: DiskFile, disk: Disk, path: Path)
    requires g.cache == 1 && path in disk && disk[path].readable && Determined(t, disk, path)
    requires f.mime == g.mime(path) && (f.content.Some? ==> f.content.value == t(path, f.mtime, f.size))
    ensures var (r, ok) := Refreshed(g, f, disk, path);
            && ok && r.mime == f.mime && r.mtime == disk[path].mtime && r.size == |disk[path].content|
            && (r.content.Some? ==> r.content.value == disk[path].content)
  {
  }

  /** With cache=1 every reply is current while files can be read. */
  lemma CachedIsCurrent(g: Service, t: Truth, cache: Cache, disk: Disk, q: Query)
    requires g.cache == 1 && g.scan == 0 && Truthful(g, t, cache, q.path) && Determined(t, disk, q.path)
    requires q.path in disk ==> disk[q.path].readable
    ensures Serve(g, cache, disk, q).0
            == if q.path in disk then Current(g, disk[q.path], q) else if q.path in cache then ServerError else NotFound
  {
    if q.path in disk {
      WholeContent(disk[q.path]);
      if q.path in cache {
        RefreshedIsCurrent(g, t, cache[q.path], disk, q.path);
      }
    }
  }

  /** When an entry that is never checked again still gives the current reply. */
  predicate StillTrue(g: Service, entry: Option<DiskFile>, file: File, q: Query) {
    || entry.None? || entry.value.mtime == 0
    || (entry.value.mtime == file.mtime && (HeadersOnly(g, file, q) || entry.value.size == |file.content|))
  }

  /** With cache=2, which ignores updates, a reply is current if and only if the path is not
      cached, or has no time recorded, or was recorded with the file's time and, where content
      is asked for, with its size. */
  lemma IgnoringUpdates(g: Service, t: Truth, cache: Cache, disk: Disk, q: Query)
    requires g.cache == 2 && g.scan == 0 && DistinctDates(g)
    requires Truthful(g, t, cache, q.path) && Determined(t, disk, q.path) && q.path in disk && disk[q.path].readable
    ensures Serve(g, cache, disk, q).0 == Current(g, disk[q.path], q)
            <==> StillTrue(g, Entry(cache, q.path), disk[q.path], q)
  {
    hide Serve, DistinctDates;
    ServeAgrees(g, cache, disk, q);
  }

  // ---------------------------------------------------------------- histories

  /** A history of requests, each with the disk as it was at the time. */
  type History = seq<(Disk, Query)>

  /** The cache when request `i` comes. */
  function CacheAt(g: Service, history: History, i: nat): Cache
    requires i <= |history|
  {
    if i == 0 then map[] else Serve(g, CacheAt(g, history, i - 1), history[i - 1].0, history[i - 1].1).1
  }

  /** The replies, starting with an empty cache. */
  function Replies(g: Service, history: History): (r: seq<Reply>)
    ensures |r| == |history|
  {
    seq(|history|, i requires 0 <= i < |history| => Serve(g, CacheAt(g, history, i), history[i].0, history[i].1).0)
  }

  /** The requested file exists at that time. */
  predicate Exists(history: History, i: nat)
    requires i < |history|
  {
    history[i].1.path in history[i].0
  }

  function FileAt(history: History, i: nat): File
    requires i < |history| && Exists(history, i)
  {
    history[i].0[history[i].1.path]
  }

  /** Every request before `i` for this path finds its content determined by time and size,
      and, if the file exists, finds it readable. */
  predicate Undisturbed(t: Truth, history: History, i: nat, p: Path)
    requires i <= |history|
  {
    forall k :: 0 <= k < i && history[k].1.path == p ==>
      Determined(t, history[k].0, p) && (p in history[k].0 ==> history[k].0[p].readable)
  }

  lemma {:induction false} TypedAt(g: Service, history: History, i: nat)
    requires i <= |history|
    ensures Typed(g, CacheAt(g, history, i))
  {
    hide Serve;
    if i > 0 {
      TypedAt(g, history, i - 1);
      ServeTyped(g, CacheAt(g, history, i - 1), history[i - 1].0, history[i - 1].1);
    }
  }

  lemma {:induction false} TruthfulAt(g: Service, t: Truth, history: History, i: nat, p: Path)
    requires i <= |history| && Undisturbed(t, history, i, p)
    ensures Truthful(g, t, CacheAt(g, history, i), p)
  {
    hide Serve;
    if i > 0 {
      TruthfulAt(g, t, history, i - 1, p);
      TruthKept(g, t, CacheAt(g, history, i - 1), history[i - 1].0, history[i - 1].1, p);
    }
  }

  /** What an entry records is the time and size of its file at an earlier request. */
  ghost predicate RecordedAt(history: History, i: nat, p: Path, f: DiskFile)
    requires i <= |history|
  {
    exists j :: 0 <= j < i && Exists(history, j) && history[j].1.path == p
                && f.mtime == FileAt(history, j).mtime && f.size == |FileAt(history, j).content|
  }

  /** The entry after a request is the one before it, or records the file as it is now. */
  lemma EntryAfter(g: Service, cache: Cache, disk: Disk, q: Query, p: Path)
    requires p in Serve(g, cache, disk, q).1
    ensures var f := Serve(g, cache, disk, q).1[p];
            || (p in cache && cache[p].mtime == f.mtime && cache[p].size == f.size)
            || (p == q.path && p in disk && f.mtime == disk[p].mtime && f.size == |disk[p].content|)
  {
  }

  lemma {:induction false} EntriesRecorded(g: Service, history: History, i: nat, p: Path)
    requires i <= |history| && p in CacheAt(g, history, i)
    ensures RecordedAt(history, i, p, CacheAt(g, history, i)[p])
  {
    hide Serve;
    if i > 0 {
      var before := CacheAt(g, history, i - 1);
      var (disk, q) := history[i - 1];
      EntryAfter(g, before, disk, q, p);
      if p in before && before[p].mtime == CacheAt(g, history, i)[p].mtime
          && before[p].size == CacheAt(g, history, i)[p].size {
        EntriesRecorded(g, history, i - 1, p);
        var j :| 0 <= j < i - 1 && Exists(history, j) && history[j].1.path == p
                 && before[p].mtime == FileAt(history, j).mtime && before[p].size == |FileAt(history, j).content|;
      } else {
        assert Exists(history, i - 1) && FileAt(history, i - 1) == disk[p];
      }
    }
  }

  /** The replies of the service without a cache. */
  lemma UncachedReply(g: Service, history: History, i: nat)
    requires g.scan == 0 && i < |history| && Exists(history, i)
    ensures Replies(g.(cache := 0), history)[i] == Current(g, FileAt(history, i), history[i].1)
  {
    hide Serve;
    var g0 := g.(cache := 0);
    NoCacheIsCurrent(g0, CacheAt(g0, history, i), history[i].0, history[i].1);
  }

  /** Over every history, whatever becomes of the files: with cache=1 or cache=2 a reply for
      a file that exists is the one given without a cache if and only if the entry left by
      the earlier requests agrees with the file. */
  lemma ExactAgreement(g: Service, history: History, i: nat)
    requires (g.cache == 1 || g.cache == 2) && g.scan == 0 && DistinctDates(g) && i < |history| && Exists(history, i)
    ensures Replies(g, history)[i] == Replies(g.(cache := 0), history)[i]
            <==> Agrees(g, Entry(CacheAt(g, history, i), history[i].1.path), FileAt(history, i), history[i].1)
  {
    hide Serve, CacheAt, Agrees, DistinctDates;
    TypedAt(g, history, i);
    ServeAgrees(g, CacheAt(g, history, i), history[i].0, history[i].1);
    UncachedReply(g, history, i);
  }

  /** Cache agreement: with cache=1, over every history of requests and file edits, a reply for
      a file that exists is the one given without a cache, if time and size have determined
      the content of this file, and it could be read, whenever it was asked for. */
  lemma CacheAgreement(g: Service, t: Truth, history: History, i: nat)
    requires g.cache == 1 && g.scan == 0 && i < |history| && Exists(history, i)
    requires Undisturbed(t, history, i + 1, history[i].1.path)
    ensures Replies(g, history)[i] == Replies(g.(cache := 0), history)[i]
  {
    hide Serve, CacheAt, Truthful;
    TruthfulAt(g, t, history, i, history[i].1.path);
    CachedIsCurrent(g, t, CacheAt(g, history, i), history[i].0, history[i].1);
    UncachedReply(g, history, i);
  }

  /** The same with cache=2: agreement if and only if what was recorded is still true. */
  lemma AgreementIgnoringUpdates(g: Service, t: Truth, history: History, i: nat)
    requires g.cache == 2 && g.scan == 0 && DistinctDates(g) && i < |history| && Exists(history, i)
    requires Undisturbed(t, history, i + 1, history[i].1.path)
    ensures Replies(g, history)[i] == Replies(g.(cache := 0), history)[i]
            <==> StillTrue(g, Entry(CacheAt(g, history, i), history[i].1.path), FileAt(history, i), history[i].1)
  {
    hide Serve, CacheAt, Truthful, StillTrue, DistinctDates;
    TruthfulAt(g, t, history, i, history[i].1.path);
    IgnoringUpdates(g, t, CacheAt(g, history, i), history[i].0, history[i].1);
    UncachedReply(g, history, i);
  }

  // ---------------------------------------------------------------- instances

  /** A GET request for a file small enough puts it into the cache. */
  lemma FirstRequest(g: Service, history: History, p: Path, since: bytes, file: File)
    requires g.cache > 0 && g.scan == 0 && g.maxCacheSize == 0 && file.readable && g.date(file.mtime) != since
    requires history != [] && history[0] == (map[p := file], Query(p, false, since))
    ensures CacheAt(g, history, 1) == map[p := DiskFile(Some(file.content), |file.content|, file.mtime, g.mime(p))]
  {
    assert CacheAt(g, history, 0) == map[];
  }

  /** With cache=2 an edited file is still answered with its old content and date. */
  lemma OldContentServed(g: Service, p: Path, a: File, b: File, since: bytes)
    requires g.cache == 2 && g.scan == 0 && g.maxCacheSize == 0 && DistinctDates(g)
    requires a.readable && b.readable && 0 < a.mtime != b.mtime && g.date(a.mtime) != since
    ensures var q := Query(p, false, since);
            var history := [(map[p := a], q), (map[p := b], q)];
            && Replies(g, history)[1] == Content(g.mime(p), g.date(a.mtime), a.content)
            && Replies(g, history)[1] != Replies(g.(cache := 0), history)[1]
  {
    var q := Query(p, false, since);
    var history := [(map[p := a], q), (map[p := b], q)];
    FirstRequest(g, history, p, since, a);
    ExactAgreement(g, history, 1);
  }

  /** With cache=1 a read that fails leaves a fresh buffer under the new time and size, so
      that the next request, when the file can be read again, is answered from that buffer. */
  lemma JunkServed(g: Service, p: Path, a: File, content: bytes, mtime: nat, since: bytes)
    requires g.cache == 1 && g.scan == 0 && g.maxCacheSize == 0
    requires a.readable && 0 < a.mtime != mtime && g.date(a.mtime) != since && g.date(mtime) != since && mtime > 0
    ensures var q := Query(p, false, since);
            var history := [(map[p := a], q), (map[p := File(mtime, content, false)], q),
                (map[p := File(mtime, content, true)], q)];
            && Replies(g, history)[1] == ServerError
            && Replies(g, history)[2] == Content(g.mime(p), g.date(mtime), Fresh(g, |content|))
            && Replies(g.(cache := 0), history)[2] == Content(g.mime(p), g.date(mtime), content)
  {
    var q := Query(p, false, since);
    var history := [(map[p := a], q), (map[p := File(mtime, content, false)], q),
        (map[p := File(mtime, content, true)], q)];
    FirstRequest(g, history, p, since, a);
    FailedRead(g, history, p, content, mtime, since);
    UncachedReply(g, history, 2);
  }

  lemma FailedRead(g: Service, history: History, p: Path, content: bytes, mtime: nat, since: bytes)
    requires g.cache == 1 && g.scan == 0 && |history| >= 2
    requires p in CacheAt(g, history, 1) && 0 < CacheAt(g, history, 1)[p].mtime != mtime
    requires history[1] == (map[p := File(mtime, content, false)], Query(p, false, since))
    ensures Replies(g, history)[1] == ServerError
    ensures p in CacheAt(g, history, 2)
    ensures CacheAt(g, history, 2)[p]
            == CacheAt(g, history, 1)[p].(content := Some(Fresh(g, |content|)), size := |content|, mtime := mtime)
  {
  }
}
