/** max_content_length only cuts what is stored: it changes nothing else about parsing,
    whatever the bytes are. */
module HttpLimits {
  import opened Wrappers
  import opened Bytes
  import opened HttpForms
  import opened HttpParser
  import opened HttpSegments
  import opened HttpPhases
  import opened HttpChunks
  import HttpMissing

  // ---------------------------------------------------------------- chunks

  /** The byte is one of the chunk's data. */
  predicate IsData(k: Chunk) { k.state.Data? && k.got < k.size }

  /** The data bytes among `s`, whatever the syntax around them. */
  function DataIn(k: Chunk, s: bytes): bytes
    requires ChunkOk(k)
    decreases |s|
  {
    if s == [] then []
    else match ChunkStep(0, k, s[0])
      case CMore(k') => (if IsData(k) then [s[0]] else []) + DataIn(k', s[1..])
      case _ => []
  }

  /** The same step with another limit and another cache. */
  lemma StepWithLimit(max: nat, k: Chunk, cache: bytes, c: byte)
    requires ChunkOk(k) && |k.cache| <= max
    ensures var out := ChunkStep(max, k, c);
            var other := ChunkStep(0, k.(cache := cache), c);
            && (out.CMore? <==> other.CMore?) && (out.CFail? <==> other.CFail?)
            && (out.CMore? ==> other.k == out.k.(cache := other.k.cache) && ChunkOk(other.k))
            && (out.CMore? ==> out.k.cache == if IsData(k) then Take(k.cache + [c], max) else k.cache)
  {
    hide ParseHex;
  }

  /** The data found does not depend on the cache. */
  lemma {:induction false} DataWithCache(k: Chunk, cache: bytes, s: bytes)
    requires ChunkOk(k)
    ensures DataIn(k.(cache := cache), s) == DataIn(k, s)
    decreases |s|
  {
    hide ChunkStep;
    if s != [] {
      StepsAlike(k, cache, s[0]);
      var out, other := ChunkStep(0, k, s[0]), ChunkStep(0, k.(cache := cache), s[0]);
      if out.CMore? {
        DataWithCache(out.k, other.k.cache, s[1..]);
      }
    }
  }

  lemma StepsAlike(k: Chunk, cache: bytes, c: byte)
    requires ChunkOk(k)
    ensures var out, other := ChunkStep(0, k, c), ChunkStep(0, k.(cache := cache), c);
            (out.CMore? <==> other.CMore?) && (out.CMore? ==>
                other.k == out.k.(cache := other.k.cache) && ChunkOk(out.k))
  {
    hide ParseHex;
  }

  /** For every byte string, whatever chunk syntax it uses: the chunk cache holds the first
      max_content_length bytes of the data in it. */
  lemma {:induction false} ChunkDataStored(max: nat, k: Chunk, s: bytes)
    requires ChunkOk(k) && |k.cache| <= max
    ensures ChunkRun(max, k, s).k.cache == Take(k.cache + DataIn(k, s), max)
    decreases |s|
  {
    hide ChunkStep, Take;
    if s == [] {
      assert k.cache + [] == k.cache;
      TakeAll(k.cache, max);
    } else {
      StepWithLimit(max, k, k.cache, s[0]);
      assert k.(cache := k.cache) == k;
      var out, other := ChunkStep(max, k, s[0]), ChunkStep(0, k, s[0]);
      if out.CMore? {
        var data := if IsData(k) then [s[0]] else [];
        assert |out.k.cache| <= max by { TakeFits(k.cache + [s[0]], max); }
        ChunkDataStored(max, out.k, s[1..]);
        DataWithCache(out.k, other.k.cache, s[1..]);
        assert out.k.cache == Take(k.cache + data, max) by {
          TakeAll(k.cache, max);
          assert k.cache + [] == k.cache;
        }
        TakeJoins(k.cache, data, DataIn(out.k, s[1..]), max);
      } else {
        NoMoreData(max, k, s[0]);
        assert k.cache + [] == k.cache;
        TakeAll(k.cache, max);
      }
    }
  }

  lemma NoMoreData(max: nat, k: Chunk, c: byte)
    requires ChunkOk(k)
    ensures ChunkStep(max, k, c).CDone? ==> ChunkStep(max, k, c).k == k
  {
  }

  /** For every byte string that completes a chunked body, in every parser that bytes and gaps
      can lead to: the content is what was cached followed by the data in these bytes, cut at
      max_content_length. */
  lemma ChunkedContent(g: Config, p: Parser, s: bytes)
    requires HttpMissing.Sound(g, p) && p.state.Chunks?
    ensures Ok(p) && var t := Run(g, p, s);
                     && (t.verdict.Done? ==> t.p.msg.content == Take(p.chunk.cache + DataIn(p.chunk, s), g.maxContent))
                     && (t.verdict.More? ==> t.p.chunk.cache == Take(p.chunk.cache + DataIn(p.chunk, s), g.maxContent))
  {
    hide Run, ChunkRun, DataIn, Take, Finished;
    if s == [] {
      RunNothing(g, p);
      NoData(p.chunk);
      assert p.chunk.cache + [] == p.chunk.cache;
      TakeAll(p.chunk.cache, g.maxContent);
    } else {
      MarkFirst(g, p, s);
      RunIsChunkRun(g, Mark(p), s);
      ChunkDataStored(g.maxContent, p.chunk, s);
      var r := ChunkRun(g.maxContent, p.chunk, s);
      FinishedContent(g, p.head, Joined(r.k, Mark(p).msg));
    }
  }

  lemma NoData(k: Chunk)
    requires ChunkOk(k)
    ensures DataIn(k, []) == []
  {
  }

  // ---------------------------------------------------------------- whole messages

  function Least(a: nat, b: nat): nat { if a <= b then a else b }

  /** A parser with what it has stored cut at `max`. */
  function Cut(max: nat, p: Parser): Parser {
    p.(chunk := p.chunk.(cache := Take(p.chunk.cache, max)),
       msg := p.msg.(content := Take(p.msg.content, max), contentLength := Least(p.msg.contentLength, max)))
  }

  /** Without the query parameters, which a form that has been cut may lack. */
  function NoParams(p: Parser): Parser { p.(msg := p.msg.(queryParams := [])) }

  /** `p` and `p'` stand for the same parser under a smaller and a larger limit. */
  ghost predicate Alike(max: nat, p: Parser, p': Parser, v: Verdict) {
    if v.More? then p == Cut(max, p') else NoParams(p) == NoParams(Cut(max, p'))
  }

  ghost predicate SameStep(g: Config, g': Config, r: (Parser, bool, Verdict), r': (Parser, bool, Verdict)) {
    r.1 == r'.1 && r.2 == r'.2 && Alike(g.maxContent, r.0, r'.0, r.2)
  }

  /** The same set-up with a limit at least as large. */
  ghost predicate Roomier(g: Config, g': Config) {
    g' == g.(maxContent := g'.maxContent) && g.maxContent <= g'.maxContent
  }

  lemma CompleteAlike(g: Config, g': Config, p: Parser, p': Parser)
    requires Roomier(g, g') && p == Cut(g.maxContent, p')
    ensures Complete(g, p).1 == Complete(g', p').1 == Done
    ensures NoParams(Complete(g, p).0) == NoParams(Cut(g.maxContent, Complete(g', p').0))
  {
    hide ParseQuery;
  }

  lemma FailedAlike(max: nat, p: Parser, p': Parser)
    requires p == Cut(max, p')
    ensures Failed(p).1 == Failed(p').1 == Error && NoParams(Failed(p).0) == NoParams(Cut(max, Failed(p').0))
  {
  }

  lemma FreshAlike(g: Config, g': Config, n: nat)
    requires Roomier(g, g')
    ensures Fresh(g, Least(n, g.maxContent)) == Take(Fresh(g', Least(n, g'.maxContent)), g.maxContent)
  {
  }

  /** The headers do not depend on what is stored. */
  lemma HeadMessageAlike(g: Config, g': Config, h: Head, m: Message, m': Message)
    requires Roomier(g, g')
    requires m == m'.(content := Take(m'.content, g.maxContent), contentLength := Least(m'.contentLength, g.maxContent))
    ensures HeadMessage(g, h, m) == HeadMessage(g', h, m').(content := Take(m'.content, g.maxContent))
    ensures HeadMessage(g', h, m').content == m'.content && HeadMessage(g', h, m').contentLength == 0
    ensures BodyOf(g, h, HeadMessage(g, h, m)) == BodyOf(g', h, HeadMessage(g', h, m'))
  {
    hide AllCookies, ParseQuery, Find, ParseSize, Trim;
  }

  lemma HeadersAlike(g: Config, g': Config, p: Parser, p': Parser)
    requires Roomier(g, g') && p == Cut(g.maxContent, p')
    ensures var (q, v) := HeadersComplete(g, p);
            var (q', v') := HeadersComplete(g', p');
            v == v' && Alike(g.maxContent, q, q', v)
  {
    hide HeadMessage, BodyOf, Complete, Failed, Fresh, NoParams;
    var m, m' := HeadMessage(g, p.head, p.msg), HeadMessage(g', p'.head, p'.msg);
    HeadMessageAlike(g, g', p.head, p.msg, p'.msg);
    var p1 := p.(remaining := 0, got := 0, msg := m.(content := []));
    var p1' := p'.(remaining := 0, got := 0, msg := m'.(content := []));
    assert Take(m'.content[..0], g.maxContent) == [];
    match BodyOf(g, p.head, m)
    case Chunked =>
    case NoBody =>
      assert p1 == Cut(g.maxContent, p1');
      CompleteAlike(g, g', p1, p1');
    case BadLength =>
      assert p1.(msg := m) == Cut(g.maxContent, p1'.(msg := m'));
      FailedAlike(g.maxContent, p1.(msg := m), p1'.(msg := m'));
    case Sized(n) =>
      FreshAlike(g, g', n);
    case ToEof =>
  }

  lemma HeaderByteAlike(g: Config, g': Config, p: Parser, p': Parser, c: byte)
    requires Roomier(g, g') && Ok(p) && Ok(p') && p == Cut(g.maxContent, p') && p.state.Headers?
    ensures SameStep(g, g', HeaderByte(g, p, c), HeaderByte(g', p', c))
  {
    hide HeadSwitch, HeadersComplete, Failed, NoParams;
    var out := HeadStep(g, p.head, c);
    assert out == HeadStep(g', p'.head, c);
    match out
    case HMore(h) =>
    case HFail => FailedAlike(g.maxContent, p, p');
    case HDone(h, used) =>
      var n := if used then 1 else 0;
      HeadersAlike(g, g', p.(head := h, used := p.used + n), p'.(head := h, used := p'.used + n));
  }

  lemma StoreAlike(g: Config, g': Config, p: Parser, p': Parser, c: byte)
    requires Roomier(g, g') && p == Cut(g.maxContent, p') && |p'.msg.content| <= g'.maxContent
    ensures Store(g, p, c) == Cut(g.maxContent, Store(g', p', c))
  {
    var content, content' := p.msg.content, p'.msg.content;
    if p.got < g.maxContent && p.got < |content| {
      assert Take(content'[p.got := c], g.maxContent) == content[p.got := c];
    } else if p.got < |content'| {
      assert Take(content'[p.got := c], g.maxContent) == content;
    }
  }

  lemma ChunkByteAlike(max: nat, max': nat, k: Chunk, k': Chunk, c: byte)
    requires ChunkOk(k) && ChunkOk(k') && max <= max' && k == k'.(cache := Take(k'.cache, max)) && |k'.cache| <= max'
    ensures var out, out' := ChunkStep(max, k, c), ChunkStep(max', k', c);
            && (out.CMore? <==> out'.CMore?) && (out.CFail? <==> out'.CFail?)
            && (out.CMore? ==> out.k == out'.k.(cache := Take(out'.k.cache, max)))
  {
    hide ParseHex;
    assert Take(k'.cache + [c], max) == if |k.cache| < max then k.cache + [c] else k.cache;
  }

  lemma ChunksAlike(g: Config, g': Config, p: Parser, p': Parser, c: byte)
    requires Roomier(g, g') && Ok(p) && Ok(p') && p == Cut(g.maxContent, p') && p.state.Chunks?
    requires Marked(p) && |p'.chunk.cache| <= g'.maxContent
    ensures SameStep(g, g', Step(g, p, c), Step(g', p', c))
  {
    hide ChunkStep, Complete, Failed, NoParams, Take;
    ChunkByteAlike(g.maxContent, g'.maxContent, p.chunk, p'.chunk, c);
    var out := ChunkStep(g.maxContent, p.chunk, c);
    if out.CFail? {
      FailedAlike(g.maxContent, p, p');
    } else if out.CDone? {
      var q := p.(used := p.used + 1, msg := Joined(p.chunk, p.msg));
      var q' := p'.(used := p'.used + 1, msg := Joined(p'.chunk, p'.msg));
      assert |Take(p'.chunk.cache, g.maxContent)| == Least(|p'.chunk.cache|,
          g.maxContent) by { TakeLength(p'.chunk.cache, g.maxContent); }
      CompleteAlike(g, g', q, q');
    }
  }

  lemma TakeLength(s: bytes, max: nat)
    ensures |Take(s, max)| == Least(|s|, max)
  {
  }

  lemma ContentAlike(g: Config, g': Config, p: Parser, p': Parser, c: byte)
    requires Roomier(g, g') && Ok(p) && Ok(p') && p == Cut(g.maxContent, p') && (p.state.Content? || p.state.End?)
    requires Marked(p) && (p.state.Content? ==> |p'.msg.content| <= g'.maxContent)
    ensures SameStep(g, g', Step(g, p, c), Step(g', p', c))
  {
    hide Complete, NoParams, Store, Take;
    if p.state.End? || p.remaining == 0 {
      CompleteAlike(g, g', p, p');
    } else {
      StoreAlike(g, g', p, p', c);
      CompleteAlike(g, g', Store(g, p, c), Store(g', p', c));
    }
  }

  lemma EofAlike(g: Config, g': Config, p: Parser, p': Parser, c: byte)
    requires Roomier(g, g') && Ok(p) && Ok(p') && p == Cut(g.maxContent, p') && p.state.ContentNoLength?
    requires Marked(p) && |p'.chunk.cache| <= g'.maxContent
    ensures SameStep(g, g', Step(g, p, c), Step(g', p', c))
  {
    assert Take(p'.chunk.cache + [c], g.maxContent)
           == if |p.chunk.cache| < g.maxContent then p.chunk.cache + [c] else p.chunk.cache;
    EofByte(g, p, c);
    EofByte(g', p', c);
  }

  lemma MarkAlike(max: nat, p: Parser, p': Parser)
    requires p == Cut(max, p')
    ensures Mark(p) == Cut(max, Mark(p')) && Marked(Mark(p)) && Marked(Mark(p')) && Ok(Mark(p)) == Ok(p)
  {
  }

  lemma StepMarked(g: Config, p: Parser, c: byte)
    requires Ok(p)
    ensures Ok(Mark(p)) && Step(g, p, c) == Step(g, Mark(p), c)
  {
    hide HeaderByte, ChunkStep, Complete, Failed, Store;
  }

  lemma HeadersStep(g: Config, p: Parser, c: byte)
    requires Ok(p) && Marked(p) && (p.state.Start? || p.state.Headers?)
    ensures Step(g, p, c) == HeaderByte(g, p.(state := Headers), c)
  {
    hide HeaderByte, ChunkStep, Complete, Failed, Store;
  }

  /** One byte, under two limits. */
  lemma StepAlike(g: Config, g': Config, p: Parser, p': Parser, c: byte)
    requires Roomier(g, g') && Ok(p) && HttpMissing.Sound(g', p') && p == Cut(g.maxContent, p')
    ensures SameStep(g, g', Step(g, p, c), Step(g', p', c))
  {
    hide Step, SameStep, Cut;
    var q, q' := Mark(p), Mark(p');
    MarkAlike(g.maxContent, p, p');
    StepMarked(g, p, c);
    StepMarked(g', p', c);
    StatesAlike(g.maxContent, q, q');
    match p'.state
    case Start | Headers =>
      HeadersStep(g, q, c);
      HeadersStep(g', q', c);
      HeaderByteAlike(g, g', q.(state := Headers), q'.(state := Headers), c);
    case Chunks => ChunksAlike(g, g', q, q', c);
    case Content | End => ContentAlike(g, g', q, q', c);
    case ContentNoLength => EofAlike(g, g', q, q', c);
  }

  lemma StatesAlike(max: nat, p: Parser, p': Parser)
    requires p == Cut(max, p')
    ensures p.state == p'.state && p.(state := Headers) == Cut(max, p'.(state := Headers))
  {
  }

  /** max_content_length only cuts what is stored: for every byte string, a parser with a
      larger limit gives the same verdict, consumes the same bytes and has the same state,
      headers and flags, and what the smaller limit has stored is the beginning of what the
      larger one has.  (A form that has been cut may yield fewer query parameters.) */
  lemma {:induction false} LimitOnlyCuts(g: Config, g': Config, p: Parser, p': Parser, s: bytes)
    requires Roomier(g, g') && Ok(p) && HttpMissing.Sound(g', p') && p == Cut(g.maxContent, p')
    ensures Ok(p')
    ensures var r, r' := Run(g, p, s), Run(g', p', s);
            r.verdict == r'.verdict && r.rest == r'.rest && Alike(g.maxContent, r.p, r'.p, r.verdict)
    decreases |s|, InHead(p)
  {
    hide Step, Cut, NoParams, HttpMissing.Sound;
    assert Ok(p') by { HttpMissing.SoundOk(g', p'); }
    if s != [] {
      StepAlike(g, g', p, p', s[0]);
      HttpMissing.StepSound(g', p', s[0]);
      var (q, used, v) := Step(g, p, s[0]);
      if v.More? {
        LimitOnlyCuts(g, g', q, Step(g', p', s[0]).0, if used then s[1..] else s);
      }
    }
  }

  /** For every byte string and every message, however its body is delimited: what is stored
      under a limit is the beginning of what is stored under any larger one. */
  lemma StoredIsPrefix(g: Config, g': Config, s: bytes)
    requires Roomier(g, g')
    ensures var r, r' := Run(g, NewParser(g, EMPTY_MESSAGE), s), Run(g', NewParser(g', EMPTY_MESSAGE), s);
            && r.verdict == r'.verdict && r.rest == r'.rest && r.p.used == r'.p.used && r.p.head == r'.p.head
            && r.p.state == r'.p.state && r.p.msg.content == Take(r'.p.msg.content, g.maxContent)
            && r.p.chunk.cache == Take(r'.p.chunk.cache, g.maxContent)
  {
    hide Run;
    var p := NewParser(g, EMPTY_MESSAGE);
    HttpMissing.NewIsSound(g', EMPTY_MESSAGE);
    LimitOnlyCuts(g, g', p, p, s);
  }
}
