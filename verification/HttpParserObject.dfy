/** The HTTPParser object: read buffer, counters, block copies and the parse loop, proved
    to do to the message exactly what the byte-at-a-time machine does. */
module HttpParserObject {
  import opened Bytes
  import opened HttpForms
  import opened HttpParser
  import opened HttpSegments
  import opened HttpPhases
  import opened HttpChunks
  import opened HttpMissing

  // ---------------------------------------------------------------- what each phase owes

  /** What becomes of the headers does not depend on the content buffer. */
  lemma ContentIrrelevant(g: Config, h: Head, m: Message, content: bytes)
    ensures HeadMessage(g, h, m.(content := content)) == HeadMessage(g, h, m).(content := content)
    ensures BodyOf(g, h, m.(content := content)) == BodyOf(g, h, m)
    ensures (m.missing ==> m.dataAfterMissing) == (HeadMessage(g, h, m).missing ==>
            HeadMessage(g, h, m).dataAfterMissing)
  {
  }

  lemma HeadFacts(g: Config, h: Head, m: Message)
    ensures var m' := HeadMessage(g, h, m);
            var body := BodyOf(g, h, m');
            m'.contentLength == 0 && (body.Chunked? <==> m'.isChunked) && (body.Sized? ==> body.n > 0)
  {
  }

  /** What finishHeaderParsing leaves for parse to do with its answer. */
  ghost predicate Answers(g: Config, r: (Parser, Verdict), rc: Verdict, p: Parser) {
    && rc == r.1
    && r.0 == match rc { case More => p case Done => Complete(g, p).0 case Error => Failed(p).0 }
  }

  /** finishHeaderParsing on the parser `p`, before parse acts on the answer. */
  function Plan(g: Config, p: Parser, m: Message, body: Body): (Parser, Verdict) {
    var p1 := p.(remaining := 0, got := 0, msg := m.(content := []));
    match body
    case Chunked => (p1.(state := Chunks), More)
    case NoBody => (p1.(state := End), Done)
    case BadLength => (p1.(msg := m), Error)
    case Sized(n) =>
      (p1.(state := Content, remaining := n, msg := m.(contentLength := Min(n, g.maxContent),
                                                       content := Fresh(g, Min(n, g.maxContent)))), More)
    case ToEof => (p1.(state := ContentNoLength, chunk := p1.chunk.(cache := [])), More)
  }

  lemma PlanAnswers(g: Config, p: Parser, m: Message, body: Body)
    requires m == HeadMessage(g, p.head, p.msg) && body == BodyOf(g, p.head, m)
    ensures Answers(g, HeadersComplete(g, p), Plan(g, p, m, body).1, Plan(g, p, m, body).0)
  {
  }

  lemma HeadersKeepMark(g: Config, p: Parser)
    requires Marked(p)
    ensures Marked(HeadersComplete(g, p).0)
  {
  }

  /** What completing and failing do to the parser. */
  lemma Verdicts(g: Config, p: Parser, lost: nat)
    ensures Complete(g, p).1 == Done && Failed(p).1 == Error && Ok(Complete(g, p).0) == Ok(p)
    ensures Failed(p.(used := p.used + lost)).0
            == p.(used := p.used + lost, msg := p.msg.(status := StatusFor(p.msg, false)))
  {
  }

  /** What one phase owes: it has brought parsing on, or to its end; `lost` are the bytes a
      failing phase read without counting them. */
  ghost predicate Phase(g: Config, p: Parser, s: bytes, rc: Verdict, p': Parser, s': bytes, lost: nat) {
    && Ok(p) && Ok(p')
    && Run(g, p, s) == match rc
                       case More => Run(g, p', s')
                       case Done => Result(Complete(g, p').0, s', Done)
                       case Error => Result(Failed(p'.(used := p'.used + lost)).0, s', Error)
  }

  lemma MarkPhase(g: Config, p: Parser, s: bytes)
    requires Ok(p) && s != []
    ensures Phase(g, p, s, More, Mark(p), s, 0)
  {
    hide Run;
    MarkFirst(g, p, s);
  }

  lemma PhaseGoesOn(g: Config, p0: Parser, s0: bytes, p: Parser, s: bytes, rc: Verdict, p': Parser, s': bytes,
      lost: nat)
    requires Phase(g, p0, s0, More, p, s, 0) && Phase(g, p, s, rc, p', s', lost)
    ensures Phase(g, p0, s0, rc, p', s', if rc.More? then 0 else lost)
  {
    hide Run;
  }

  /** The header phase: parseHeaders, then finishHeaderParsing if the headers are complete. */
  lemma HeadPhase(g: Config, p0: Parser, s: bytes, r: HeadResult, rc: Verdict, p': Parser)
    requires Ok(p0) && Marked(p0) && s != [] && (p0.state.Start? || p0.state.Headers?) && Ok(p')
    requires r == HeadRun(g, p0.head, s)
    requires var q := p0.(state := Headers, head := r.h, used := p0.used + r.n);
             match r.verdict
             case More => rc.More? && p' == q
             case Error => rc.Error? && p' == q.(used := p0.used)
             case Done => Answers(g, HeadersComplete(g, q), rc, p')
    ensures Phase(g, p0, s, rc, p', s[r.n..], if r.verdict.Error? then r.n else 0)
  {
    hide Run, HeadRun, HeadersComplete, Complete, Failed;
    RunNothing(g, p');
    assert s[|s|..] == [];
    StartIsHeaders(g, p0, s);
    var p := p0.(state := Headers);
    RunIsHeadRun(g, p, s);
  }

  /** The content phase: the bytes at hand, up to the end of the body. */
  lemma ConsumedPhase(g: Config, p: Parser, s: bytes, n: nat)
    requires Ok(p) && Marked(p) && p.state.Content? && p.remaining > 0 && |p.msg.content| <= g.maxContent
    requires n == Min(|s|, p.remaining)
    ensures Phase(g, p, s, if |s| >= p.remaining then Done else More,
                  Stored(p, n, Overwrite(p.msg.content, p.got, s[..n])), s[n..], 0)
  {
    hide Run, Complete, Failed, Overwrite;
    var q := Stored(p, n, Overwrite(p.msg.content, p.got, s[..n]));
    assert s == s[..n] + s[n..];
    if |s| >= p.remaining {
      FullContent(g, p, s[..n], s[n..]);
    } else {
      assert s[..n] == s && s[n..] == [];
      PartialContent(g, p, s);
      RunNothing(g, q);
    }
  }

  // ---------------------------------------------------------------- the objects

  /** The bytes in a content buffer, without the one that ends it; a buffer of length 0 stands
      for none at all. */
  ghost function Held(content: array<byte>): bytes
    reads content
  {
    if content.Length == 0 then [] else content[..content.Length - 1]
  }

  /** A content buffer ends with a zero byte. */
  ghost predicate Terminated(content: array<byte>)
    reads content
  {
    content.Length > 0 ==> content[content.Length - 1] == 0
  }

  /** HTTPMessage, with the content bytes in a buffer of their own. */
  class MessageObject {
    var fields: Message
    var content: array<byte>

    constructor ()
      ensures Abs() == EMPTY_MESSAGE && fresh(content) && Terminated(content)
    {
      fields := EMPTY_MESSAGE;
      content := new byte[0];
    }

    ghost function Abs(): Message
      reads this, content
    {
      fields.(content := Held(content))
    }

    /** createContentBuffer: the new buffer contains whatever memory held, and one byte more
        that ends it. */
    method CreateContentBuffer(junk: nat -> byte)
      modifies this
      ensures fresh(content) && fields == old(fields) && content.Length == fields.contentLength + 1
              && Terminated(content)
      ensures forall i :: 0 <= i < fields.contentLength ==> content[i] == junk(i)
    {
      content := new byte[fields.contentLength + 1](i => junk(i));
      content[fields.contentLength] := 0;
    }

    /** concatenateChunks */
    method ConcatenateChunks(cache: bytes)
      modifies this
      ensures fresh(content) && fields == old(fields).(contentLength := |cache|) && Held(content) == cache
              && Terminated(content)
    {
      fields := fields.(contentLength := |cache|);
      CreateContentBuffer(i => 0);
      forall i | 0 <= i < |cache| {
        content[i] := cache[i];
      }
    }
  }

  class ParserObject {
    const g: Config
    var buffer: bytes
    var pos: nat
    var state: MessageState
    var head: Head
    var chunk: Chunk
    var remaining: nat
    var contentRead: nat
    var lastRead: nat
    var totalRead: nat

    constructor (g: Config)
      ensures this.g == g && buffer == [] && pos == 0 && Valid0()
      ensures forall msg: MessageObject :: !msg.fields.isChunked ==> Abs(msg) == NewParser(g, msg.Abs())
    {
      this.g := g;
      buffer, pos, state, lastRead := [], 0, Start, 0;
      var fresh_ := NewParser(g, EMPTY_MESSAGE);
      head, chunk, remaining, contentRead, totalRead := fresh_.head, fresh_.chunk, 0, 0, 0;
    }

    ghost predicate Valid0()
      reads this
    {
      ChunkOk(chunk) && pos <= |buffer|
    }

    /** The content buffer is as long as the part of the body that will be kept. */
    ghost predicate Valid(msg: MessageObject)
      reads this, msg
    {
      && Valid0()
      && (state.Content? ==>
            !msg.fields.isChunked && remaining > 0
                && msg.content.Length == Min(contentRead + remaining, g.maxContent) + 1)
      && (state.Chunks? ==> msg.fields.isChunked)
      && (state.ContentNoLength? ==> !msg.fields.isChunked && |chunk.cache| <= g.maxContent)
    }

    /** The machine this object stands for.  The body counter of chunked bodies, which the
        parser never uses, is left out. */
    ghost function Abs(msg: MessageObject): Parser
      reads this, msg, msg.content
    {
      Parser(state, head, chunk, remaining, if msg.fields.isChunked then 0 else contentRead, totalRead, msg.Abs())
    }

    method SetReadBuffer(s: bytes)
      modifies this`buffer, this`pos
      ensures buffer == s && pos == 0
    {
      buffer, pos := s, 0;
    }

    /** parseHeaders */
    method ParseHeaders() returns (rc: Verdict)
      requires pos <= |buffer|
      modifies this`pos, this`head, this`lastRead, this`totalRead
      ensures var r := HeadRun(g, old(head), buffer[old(pos)..]);
              head == r.h && pos == old(pos) + r.n && rc == r.verdict && lastRead == if rc.Error? then 0 else r.n
      ensures totalRead == old(totalRead) + lastRead
    {
      hide HeadStep;
      var start := pos;
      lastRead := 0;
      while pos < |buffer|
        invariant start <= pos <= |buffer| && lastRead == 0 && totalRead == old(totalRead)
        invariant HeadRun(g, old(head), buffer[start..])
                  == var r := HeadRun(g, head, buffer[pos..]); r.(n := r.n + (pos - start))
      {
        assert buffer[pos..][1..] == buffer[pos + 1..];
        var out := HeadStep(g, head, buffer[pos]);
        if out.HFail? {
          return Error;
        }
        if out.HDone? {
          head := out.h;
          pos := pos + if out.used then 1 else 0;
          lastRead := pos - start;
          totalRead := totalRead + lastRead;
          return Done;
        }
        head := out.h;
        pos := pos + 1;
      }
      lastRead := pos - start;
      totalRead := totalRead + lastRead;
      rc := More;
    }

    /** parseChunks; the body counter moves only when the chunks are not finished. */
    method ParseChunks() returns (rc: Verdict)
      requires Valid0()
      modifies this`pos, this`chunk, this`lastRead, this`totalRead, this`contentRead
      ensures var r := ChunkRun(g.maxContent, old(chunk), buffer[old(pos)..]);
              chunk == r.k && pos == old(pos) + r.n && rc == r.verdict && lastRead == if rc.Error? then 0 else r.n
      ensures totalRead == old(totalRead) + lastRead
      ensures contentRead == old(contentRead) + if rc.More? then lastRead else 0
    {
      hide ChunkStep;
      var start := pos;
      lastRead := 0;
      while pos < |buffer|
        invariant start <= pos <= |buffer| && lastRead == 0 && totalRead == old(totalRead)
                  && contentRead == old(contentRead)
        invariant ChunkOk(chunk)
        invariant ChunkRun(g.maxContent, old(chunk), buffer[start..])
                  == var r := ChunkRun(g.maxContent, chunk, buffer[pos..]); r.(n := r.n + (pos - start))
      {
        assert buffer[pos..][1..] == buffer[pos + 1..];
        var out := ChunkStep(g.maxContent, chunk, buffer[pos]);
        if out.CFail? {
          return Error;
        }
        chunk := out.k;
        pos := pos + 1;
        if out.CDone? {
          lastRead := pos - start;
          totalRead := totalRead + lastRead;
          return Done;
        }
      }
      lastRead := pos - start;
      totalRead := totalRead + lastRead;
      contentRead := contentRead + lastRead;
      rc := More;
    }

    /** The branches of finishHeaderParsing, and the allocation of the content buffer. */
    method PrepareBody(msg: MessageObject, body: Body) returns (rc: Verdict)
      requires Valid0() && msg.fields.contentLength == 0 && (body.Chunked? <==> msg.fields.isChunked)
      requires body.Sized? ==> body.n > 0
      requires Terminated(msg.content)
      modifies this`state, this`remaining, this`contentRead, this`chunk, msg
      ensures Terminated(msg.content)
      ensures (Abs(msg), rc) == Plan(g, old(Abs(msg)), old(msg.Abs()), body)
      ensures msg.content == old(msg.content) || fresh(msg.content)
      ensures rc.More? ==> Valid(msg) && !state.Headers? && !state.Start?
      ensures Valid0()
    {
      remaining, contentRead, rc := 0, 0, More;
      match body {
        case Chunked => state := Chunks;
        case NoBody => state, rc := End, Done;
        case BadLength => return Error;
        case Sized(n) =>
          state, remaining := Content, n;
          msg.fields := msg.fields.(contentLength := Min(n, g.maxContent));
        case ToEof =>
          chunk := chunk.(cache := []);
          state := ContentNoLength;
      }
      msg.CreateContentBuffer(g.junk);
      assert Held(msg.content) == Fresh(g, msg.fields.contentLength);
    }

    /** finishHeaderParsing; completing or failing the message is left to parse. */
    method FinishHeaderParsing(msg: MessageObject) returns (rc: Verdict)
      requires Valid0() && state.Headers?
      requires Terminated(msg.content)
      modifies this`state, this`remaining, this`contentRead, this`chunk, msg
      ensures Terminated(msg.content)
      ensures Answers(g, HeadersComplete(g, old(Abs(msg))), rc, Abs(msg))
      ensures msg.content == old(msg.content) || fresh(msg.content)
      ensures rc.More? ==> Valid(msg) && !state.Headers? && !state.Start?
      ensures Valid0()
    {
      hide HeadMessage, BodyOf, Answers, HeadersComplete, Terminated, Held;
      ghost var p := Abs(msg);
      ContentIrrelevant(g, head, msg.fields, Held(msg.content));
      HeadFacts(g, head, msg.fields);
      var m := HeadMessage(g, head, msg.fields);
      var body := BodyOf(g, head, m);
      ContentIrrelevant(g, head, m, Held(msg.content));
      msg.fields := m;
      PlanAnswers(g, p, msg.Abs(), body);
      rc := PrepareBody(msg, body);
    }

    ghost predicate Marked0(msg: MessageObject)
      reads msg
    {
      msg.fields.missing ==> msg.fields.dataAfterMissing
    }

    /** consumeContent: one block copy, cut at the end of the content buffer. */
    method ConsumeContent(msg: MessageObject) returns (rc: Verdict)
      requires Valid(msg) && state.Content?
      requires Terminated(msg.content)
      modifies this`pos, this`remaining, this`contentRead, this`lastRead, this`totalRead, msg.content
      ensures Terminated(msg.content)
      ensures lastRead == Min(|buffer| - old(pos), old(remaining))
      ensures rc == if |buffer| - old(pos) >= old(remaining) then Done else More
      ensures pos == old(pos) + lastRead && remaining == old(remaining) - lastRead
      ensures contentRead == old(contentRead) + lastRead && totalRead == old(totalRead) + lastRead
      ensures Held(msg.content) == Overwrite(old(Held(msg.content)), old(contentRead),
              buffer[old(pos)..old(pos) + lastRead])
    {
      hide Overwrite;
      var available := |buffer| - pos;
      var n := Min(available, remaining);
      rc := if available >= remaining then Done else More;
      remaining := remaining - n;
      var length := if contentRead < g.maxContent then Min(n, g.maxContent - contentRead) else 0;
      CopyBlock(msg.content, contentRead, buffer[pos..pos + n], length);
      pos := pos + n;
      contentRead := contentRead + n;
      totalRead := totalRead + n;
      lastRead := n;
    }

    /** consumeContentAsNextChunk */
    method ConsumeContentAsNextChunk()
      requires Valid0() && |chunk.cache| <= g.maxContent
      modifies this`pos, this`chunk, this`contentRead, this`lastRead, this`totalRead
      ensures pos == |buffer| && lastRead == |buffer| - old(pos)
      ensures contentRead == old(contentRead) + lastRead && totalRead == old(totalRead) + lastRead
      ensures chunk == old(chunk).(cache := Take(old(chunk.cache) + buffer[old(pos)..], g.maxContent))
    {
      hide Take;
      lastRead := |buffer| - pos;
      var start := pos;
      ghost var cache := chunk.cache;
      NothingTaken(cache, buffer, start, g.maxContent);
      while pos < |buffer|
        invariant start <= pos <= |buffer| && lastRead == |buffer| - start
        invariant totalRead == old(totalRead) && contentRead == old(contentRead)
        invariant chunk == old(chunk).(cache := Take(cache + buffer[start..pos], g.maxContent))
      {
        SliceGrows(buffer, start, pos);
        TakeGrows(cache, buffer[start..pos], buffer[pos], g.maxContent);
        if |chunk.cache| < g.maxContent {
          chunk := chunk.(cache := chunk.cache + [buffer[pos]]);
        }
        pos := pos + 1;
      }
      totalRead := totalRead + lastRead;
      contentRead := contentRead + lastRead;
      assert buffer[start..pos] == buffer[start..];
    }

    ghost predicate Kept(msg: MessageObject, rc: Verdict)
      reads this, msg
    {
      rc.More? ==> Valid(msg) && Marked0(msg)
    }

    /** PARSE_START and PARSE_HEADERS */
    method HeadersPhase(msg: MessageObject) returns (rc: Verdict, ghost lost: nat)
      requires Valid(msg) && pos < |buffer| && Marked0(msg) && (state.Start? || state.Headers?)
      requires Terminated(msg.content)
      modifies this, msg, msg.content
      ensures Terminated(msg.content)
      ensures Valid0() && buffer == old(buffer) && pos >= old(pos)
      ensures Phase(g, old(Abs(msg)), buffer[old(pos)..], rc, Abs(msg), buffer[pos..], lost)
      ensures Kept(msg, rc)
      ensures rc.More? && pos < |buffer| ==> old(state.Start? || state.Headers?) && !state.Start? && !state.Headers?
      ensures msg.content == old(msg.content) || fresh(msg.content)
      ensures !rc.Error? ==> lastRead == pos - old(pos)
    {
      hide HeadRun, Run, HeadersComplete, Complete, Failed;
      ghost var p0, s := Abs(msg), buffer[pos..];
      state := Headers;
      ghost var p, r := Abs(msg), HeadRun(g, head, s);
      rc := ParseHeaders();
      lost := if rc.Error? then r.n else 0;
      assert s[r.n..] == buffer[pos..];
      ghost var q := Abs(msg);
      if rc.Done? {
        HeadersKeepMark(g, q);
        rc := FinishHeaderParsing(msg);
      }
      HeadPhase(g, p0, s, r, rc, Abs(msg));
    }

    /** PARSE_CHUNKS */
    method ChunksPhase(msg: MessageObject) returns (rc: Verdict, ghost lost: nat)
      requires Valid(msg) && pos < |buffer| && Marked0(msg) && state.Chunks?
      requires Terminated(msg.content)
      modifies this, msg, msg.content
      ensures Terminated(msg.content)
      ensures Valid0() && buffer == old(buffer) && pos >= old(pos)
      ensures Phase(g, old(Abs(msg)), buffer[old(pos)..], rc, Abs(msg), buffer[pos..], lost)
      ensures Kept(msg, rc)
      ensures rc.More? && pos < |buffer| ==> old(state.Start? || state.Headers?) && !state.Start? && !state.Headers?
      ensures msg.content == old(msg.content) || fresh(msg.content)
      ensures !rc.Error? ==> lastRead == pos - old(pos)
    {
      hide Run, ChunkRun, Complete, Failed;
      ghost var p, s := Abs(msg), buffer[pos..];
      RunIsChunkRun(g, p, s);
      ghost var r := ChunkRun(g.maxContent, chunk, s);
      rc := ParseChunks();
      lost := if rc.Error? then r.n else 0;
      assert s[r.n..] == buffer[pos..];
      RunNothing(g, Abs(msg));
      if rc.Done? {
        msg.ConcatenateChunks(chunk.cache);
      }
    }

    /** PARSE_CONTENT */
    method ContentPhase(msg: MessageObject) returns (rc: Verdict, ghost lost: nat)
      requires Valid(msg) && pos < |buffer| && Marked0(msg) && state.Content?
      requires Terminated(msg.content)
      modifies this, msg, msg.content
      ensures Terminated(msg.content)
      ensures Valid0() && buffer == old(buffer) && pos >= old(pos)
      ensures Phase(g, old(Abs(msg)), buffer[old(pos)..], rc, Abs(msg), buffer[pos..], lost)
      ensures Kept(msg, rc)
      ensures rc.More? && pos < |buffer| ==> old(state.Start? || state.Headers?) && !state.Start? && !state.Headers?
      ensures msg.content == old(msg.content) || fresh(msg.content)
      ensures !rc.Error? ==> lastRead == pos - old(pos)
    {
      hide Phase, Overwrite;
      ghost var p, s := Abs(msg), buffer[pos..];
      lost := 0;
      rc := ConsumeContent(msg);
      assert s[..lastRead] == buffer[old(pos)..pos] && s[lastRead..] == buffer[pos..];
      ConsumedPhase(g, p, s, lastRead);
    }

    /** One turn of the do-while loop of parse. */
    method OnePhase(msg: MessageObject) returns (rc: Verdict, ghost lost: nat)
      requires Valid(msg) && pos < |buffer| && Marked0(msg)
      requires Terminated(msg.content)
      modifies this, msg, msg.content
      ensures Terminated(msg.content)
      ensures Valid0() && buffer == old(buffer) && pos >= old(pos)
      ensures Phase(g, old(Abs(msg)), buffer[old(pos)..], rc, Abs(msg), buffer[pos..], lost)
      ensures Kept(msg, rc)
      ensures rc.More? && pos < |buffer| ==> old(state.Start? || state.Headers?) && !state.Start? && !state.Headers?
      ensures msg.content == old(msg.content) || fresh(msg.content)
      ensures !rc.Error? ==> lastRead == pos - old(pos)
    {
      match state {
        case Start => rc, lost := HeadersPhase(msg);
        case Headers => rc, lost := HeadersPhase(msg);
        case Chunks => rc, lost := ChunksPhase(msg);
        case Content => rc, lost := ContentPhase(msg);
        case ContentNoLength =>
          UnboundedContent(g, Abs(msg), buffer[pos..]);
          ConsumeContentAsNextChunk();
          rc, lost := More, 0;
        case End =>
          lastRead := 0;
          rc, lost := Done, 0;
      }
    }

    /** finish, for a complete message. */
    method Finish(msg: MessageObject)
      requires Valid0()
      requires Terminated(msg.content)
      modifies this`state, msg
      ensures Terminated(msg.content)
      ensures Abs(msg) == Complete(g, old(Abs(msg))).0
      ensures msg.content == old(msg.content) && Valid0() && state.End?
    {
      hide Finished;
      FinishedContent(g, head, msg.Abs());
      state := End;
      var body := if msg.content.Length == 0 then [] else msg.content[..msg.content.Length - 1];
      var m := Finished(g, head, msg.fields.(content := body));
      msg.fields := m;
    }

    /** parse: the outcome, the message, the bytes left in the read buffer and the counters
        are those of the byte-at-a-time machine run on the read buffer.  (When parsing
        fails, the bytes read by the failing phase are not counted.) */
    method Parse(msg: MessageObject) returns (rc: Verdict)
      requires Valid(msg) && pos < |buffer|
      requires Terminated(msg.content)
      modifies this, msg, msg.content
      ensures Terminated(msg.content)
      ensures Valid0() && buffer == old(buffer) && pos >= old(pos)
      ensures var r := Run(g, old(Abs(msg)), buffer[old(pos)..]);
              && rc == r.verdict && buffer[pos..] == r.rest
              && Abs(msg).(used := r.p.used) == r.p
              && (!rc.Error? ==> Abs(msg) == r.p && lastRead == pos - old(pos))
      ensures rc.More? ==> Valid(msg) && pos == |buffer|
      ensures msg.content == old(msg.content) || fresh(msg.content)
    {
      hide Phase, Run;
      ghost var p0, s0 := Abs(msg), buffer[pos..];
      if msg.fields.missing {
        msg.fields := msg.fields.(dataAfterMissing := true);
      }
      MarkPhase(g, p0, s0);
      var start := pos;
      rc := More;
      ghost var lost := 0;
      var first := true;
      while first || (rc.More? && pos < |buffer|)
        invariant Valid0() && buffer == old(buffer) && start <= pos && (first ==> pos < |buffer| && rc.More?)
        invariant Phase(g, p0, s0, rc, Abs(msg), buffer[pos..], lost) && (rc.More? ==> lost == 0)
        invariant Kept(msg, rc)
        invariant (msg.content == old(msg.content) || fresh(msg.content)) && Terminated(msg.content)
        decreases |buffer| - pos, rc.More?, state.Start? || state.Headers?
      {
        ghost var p, s := Abs(msg), buffer[pos..];
        rc, lost := OnePhase(msg);
        PhaseGoesOn(g, p0, s0, p, s, rc, Abs(msg), buffer[pos..], lost);
        lost := if rc.More? then 0 else lost;
        first := false;
      }
      lastRead := pos - start;
      Conclude(msg, rc, p0, s0, lost);
    }

    /** The loops of parseMissingData that fill the chunk cache. */
    method PadCache(n: nat)
      modifies this`chunk
      ensures chunk == old(chunk).(cache := Padded(old(chunk.cache), n, g.maxContent))
    {
      ghost var before := chunk.cache;
      var i := 0;
      while i < n && |chunk.cache| < g.maxContent
        invariant 0 <= i <= n && chunk == old(chunk).(cache := before + Dummy(i))
        invariant |before| < g.maxContent ==> |before| + i <= g.maxContent
        invariant |before| >= g.maxContent ==> i == 0
      {
        assert before + Dummy(i) + [88] == before + Dummy(i + 1);
        chunk := chunk.(cache := chunk.cache + [88]);
        i := i + 1;
      }
      PaddedEnds(before, i, n, g.maxContent);
    }

    /** The gap in a body of known length; the writes stay within the content buffer. */
    method SkipContent(msg: MessageObject, n: nat) returns (rc: Verdict)
      requires Valid(msg) && state.Content? && n <= remaining
      requires Terminated(msg.content)
      modifies this`remaining, this`contentRead, this`lastRead, this`totalRead, msg.content
      ensures Terminated(msg.content)
      ensures Held(msg.content) == if old(contentRead) + n <= g.maxContent
                                 then Overwrite(old(Held(msg.content)), old(contentRead), Dummy(n))
                                     else old(Held(msg.content))
      ensures contentRead == old(contentRead) + n && totalRead == old(totalRead) + n && lastRead == n
      ensures remaining == old(remaining) - n && rc == if remaining == 0 then Done else More
    {
      hide Overwrite;
      if contentRead + n <= g.maxContent {
        ghost var before, start := Held(msg.content), contentRead;
        for i := 0 to n
          invariant contentRead == start + i && remaining == old(remaining) && totalRead == old(totalRead)
          invariant Terminated(msg.content)
          invariant forall j :: start <= j < start + i ==> msg.content[j] == 88
          invariant forall j :: 0 <= j < start || start + i <= j < |before| ==> msg.content[j] == before[j]
        {
          msg.content[contentRead] := 88;
          contentRead := contentRead + 1;
        }
        CopyIsOverwrite(before, start, Dummy(n), n, Held(msg.content));
      } else {
        contentRead := contentRead + n;
      }
      remaining := remaining - n;
      totalRead := totalRead + n;
      lastRead := n;
      rc := if remaining == 0 then Done else More;
    }

    /** The gap within a chunk. */
    method SkipInChunk(n: nat)
      requires ChunkOk(chunk) && InChunk(chunk, n)
      modifies this`chunk, this`contentRead, this`lastRead, this`totalRead
      ensures chunk == AfterData(old(chunk), n, Padded(old(chunk.cache), n, g.maxContent))
      ensures contentRead == old(contentRead) + n && totalRead == old(totalRead) + n && lastRead == n
    {
      hide Padded;
      PadCache(n);
      chunk := chunk.(got := chunk.got + n);
      lastRead, totalRead, contentRead := n, totalRead + n, contentRead + n;
      if chunk.got == chunk.size {
        chunk := chunk.(state := CrAfterData);
      }
    }

    /** The gap in a body of unknown length. */
    method SkipToEof(n: nat)
      requires |chunk.cache| <= g.maxContent
      modifies this`chunk, this`contentRead, this`lastRead, this`totalRead
      ensures chunk == old(chunk).(cache := Padded(old(chunk.cache), n, g.maxContent)) && |chunk.cache| <= g.maxContent
      ensures contentRead == old(contentRead) + n && totalRead == old(totalRead) + n && lastRead == n
    {
      hide Padded;
      PaddedFits(chunk.cache, n, g.maxContent);
      PadCache(n);
      lastRead, totalRead, contentRead := n, totalRead + n, contentRead + n;
    }

    /** The switch of parseMissingData. */
    method FillGap(msg: MessageObject, n: nat) returns (rc: Verdict)
      requires Valid(msg)
      requires Terminated(msg.content)
      modifies this`chunk, this`remaining, this`contentRead, this`lastRead, this`totalRead, msg`fields, msg.content
      ensures Terminated(msg.content)
      ensures (Abs(msg), rc) == Gap(g, old(Abs(msg)), n)
      ensures rc.More? ==> Valid(msg)
      ensures Valid0()
    {
      hide Overwrite, Padded, AfterData;
      assert ChunkOk(AfterData(chunk, n, Padded(chunk.cache, n, g.maxContent))) by { AfterDataOk(chunk, n,
          Padded(chunk.cache, n, g.maxContent)); }
      msg.fields := msg.fields.(missing := true);
      rc := More;
      match state {
        case Start => rc := Error;
        case Headers => rc := Error;
        case Chunks =>
          if InChunk(chunk, n) {
            SkipInChunk(n);
          } else {
            rc := Error;
          }
        case Content =>
          if remaining == 0 {
            rc := Done;
          } else if remaining < n {
            rc := Error;
          } else {
            rc := SkipContent(msg, n);
          }
        case ContentNoLength =>
          SkipToEof(n);
        case End => rc := Done;
      }
    }

    /** parseMissingData */
    method ParseMissingData(msg: MessageObject, n: nat) returns (rc: Verdict)
      requires Valid(msg)
      requires Terminated(msg.content)
      modifies this`state, this`chunk, this`remaining, this`contentRead, this`lastRead, this`totalRead, msg, msg.content
      ensures Terminated(msg.content)
      ensures (Abs(msg), rc) == Missing(g, old(Abs(msg)), n)
      ensures rc.More? ==> Valid(msg)
      ensures Valid0() && msg.content == old(msg.content)
    {
      hide Complete, Failed, Gap;
      rc := FillGap(msg, n);
      Verdicts(g, Abs(msg), 0);
      if rc.Done? {
        Finish(msg);
      } else if rc.Error? {
        msg.fields := msg.fields.(status := StatusFor(msg.fields, false));
      }
    }

    /** What parse does once a phase has answered. */
    method Conclude(msg: MessageObject, rc: Verdict, ghost p0: Parser, ghost s0: bytes, ghost lost: nat)
      requires Valid0() && Ok(p0) && Phase(g, p0, s0, rc, Abs(msg), buffer[pos..], lost)
      requires Kept(msg, rc) && (rc.More? ==> pos == |buffer|)
      requires Terminated(msg.content)
      modifies this`state, msg
      ensures Terminated(msg.content)
      ensures Valid0() && msg.content == old(msg.content)
      ensures var r := Run(g, p0, s0);
              && rc == r.verdict && buffer[pos..] == r.rest
              && Abs(msg).(used := r.p.used) == r.p
              && (!rc.Error? ==> Abs(msg) == r.p)
      ensures rc.More? ==> Valid(msg)
    {
      hide Run, Complete, Failed;
      Verdicts(g, Abs(msg), lost);
      if rc.Done? {
        Finish(msg);
      } else if rc.Error? {
        msg.fields := msg.fields.(status := StatusFor(msg.fields, false));
      } else {
        assert buffer[pos..] == [];
        RunNothing(g, Abs(msg));
      }
    }
  }

  /** A block copy of the first `length` bytes, where the buffer ends. */
  lemma CopyIsOverwrite(before: bytes, at: nat, piece: bytes, length: nat, after: bytes)
    requires |after| == |before| && length <= |piece| && (length > 0 ==> at + length <= |before|)
    requires length < |piece| ==> at + length >= |before|
    requires forall i :: 0 <= i < length ==> after[at + i] == piece[i]
    requires forall i :: 0 <= i < |before| && !(at <= i < at + length) ==> after[i] == before[i]
    ensures after == Overwrite(before, at, piece)
  {
    if at < |before| {
      forall i | at <= i < at + length
        ensures after[i] == piece[i - at]
      {
        assert after[at + (i - at)] == piece[i - at];
      }
    }
  }

  /** memcpy into the content buffer; the byte that ends it is not touched. */
  method CopyBlock(content: array<byte>, at: nat, piece: bytes, length: nat)
    requires content.Length > 0
    requires length <= |piece| && (length > 0 ==> at + length < content.Length)
    requires length < |piece| ==> at + length >= content.Length - 1
    modifies content
    ensures Held(content) == Overwrite(old(Held(content)), at, piece)
    ensures content[content.Length - 1] == old(content[content.Length - 1])
  {
    hide Overwrite;
    ghost var before := Held(content);
    forall i | 0 <= i < length {
      content[at + i] := piece[i];
    }
    CopyIsOverwrite(before, at, piece, length, Held(content));
  }

  lemma PaddedEnds(before: bytes, i: nat, n: nat, max: nat)
    requires i <= n && (|before| >= max ==> i == 0) && (|before| < max ==> |before| + i <= max)
    requires i == n || |before| + i >= max
    ensures before + Dummy(i) == Padded(before, n, max)
  {
    if |before| < max && |before| + n > max {
      assert (before + Dummy(n))[..max] == before + Dummy(i);
    }
  }

  lemma AfterDataOk(k: Chunk, n: nat, cache: bytes)
    requires ChunkOk(k)
    ensures ChunkOk(AfterData(k, n, cache))
  {
  }

  lemma PaddedFits(cache: bytes, n: nat, max: nat)
    requires |cache| <= max
    ensures |Padded(cache, n, max)| <= max
  {
  }

  lemma NothingTaken(cache: bytes, buffer: bytes, at: nat, max: nat)
    requires at <= |buffer| && |cache| <= max
    ensures Take(cache + buffer[at..at], max) == cache
  {
    assert buffer[at..at] == [] && cache + [] == cache;
  }

  lemma SliceGrows(buffer: bytes, a: nat, b: nat)
    requires a <= b < |buffer|
    ensures buffer[a..b + 1] == buffer[a..b] + [buffer[b]]
  {
  }

  lemma TakeGrows(cache: bytes, piece: bytes, c: byte, max: nat)
    requires |cache| <= max
    ensures var t := Take(cache + piece, max);
            Take(cache + (piece + [c]), max) == if |t| < max then t + [c] else t
  {
    assert cache + (piece + [c]) == (cache + piece) + [c];
  }

  function Min(a: nat, b: nat): nat { if a <= b then a else b }
}
