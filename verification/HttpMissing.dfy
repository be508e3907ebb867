/** parseMissingData: a gap in the body counts as that many dummy characters. */
module HttpMissing {
  import opened Bytes
  import opened HttpParser
  import opened HttpSegments
  import opened HttpPhases
  import opened HttpChunks
  import HttpPrint
  import HttpReceive

  /** MISSING_DATA_CHAR, `n` times */
  function Dummy(n: nat): (r: bytes)
    ensures |r| == n
  {
    seq(n, i => 88)
  }

  /** The chunk cache with dummy characters pushed while it is below the limit. */
  function Padded(cache: bytes, n: nat, max: nat): bytes {
    if |cache| >= max then cache else Take(cache + Dummy(n), max)
  }

  /** The gap lies within the current chunk. */
  predicate InChunk(k: Chunk, n: nat) { k.state.Data? && k.got < k.size && k.size - k.got >= n }

  /** The switch of parseMissingData. */
  function Gap(g: Config, p0: Parser, n: nat): (r: (Parser, Verdict))
    requires Ok(p0)
    ensures Ok(r.0)
  {
    var p := p0.(msg := p0.msg.(missing := true));
    match p.state
    case Start => (p, Error)
    case Headers => (p, Error)
    case Chunks =>
      if InChunk(p.chunk, n)
      then (p.(used := p.used + n, chunk := AfterData(p.chunk, n, Padded(p.chunk.cache, n, g.maxContent))), More)
      else (p, Error)
    case Content =>
      if p.remaining == 0 then (p, Done)
      else if p.remaining < n then (p, Error)
      else
        var content := if p.got + n <= g.maxContent then Overwrite(p.msg.content, p.got, Dummy(n)) else p.msg.content;
        (Stored(p, n, content), if p.remaining == n then Done else More)
    case ContentNoLength =>
      (p.(used := p.used + n, got := p.got + n, chunk := p.chunk.(cache := Padded(p.chunk.cache, n, g.maxContent))),
          More)
    case End => (p, Done)
  }

  /** The parser after `n` bytes of a body of known length. */
  function Stored(p: Parser, n: nat, content: bytes): Parser
    requires n <= p.remaining
  {
    p.(got := p.got + n, remaining := p.remaining - n, used := p.used + n, msg := p.msg.(content := content))
  }

  /** parseMissingData */
  function Missing(g: Config, p: Parser, n: nat): (r: (Parser, Verdict))
    requires Ok(p)
    ensures Ok(r.0)
  {
    var (q, v) := Gap(g, p, n);
    match v
    case More => (q, More)
    case Done => Complete(g, q)
    case Error => Failed(q)
  }

  /** In the content states: the buffers are as the parser keeps them. */
  predicate InBody(g: Config, p: Parser) {
    match p.state
    case Chunks => |p.chunk.cache| <= g.maxContent
    case Content => p.remaining > 0 && |p.msg.content|
        == (if p.got + p.remaining <= g.maxContent then p.got + p.remaining else g.maxContent)
    case ContentNoLength => |p.chunk.cache| <= g.maxContent
    case _ => false
  }

  /** A parser without its integrity flags. */
  function Plain(p: Parser): Parser {
    p.(msg := p.msg.(missing := false, dataAfterMissing := false, status := StatusNone))
  }

  /** When a gap cannot be bridged. */
  predicate Unbridgeable(p: Parser, n: nat) {
    (p.state.Chunks? && !InChunk(p.chunk, n)) || (p.state.Content? && p.remaining < n)
  }

  /** The gap begins before the end of the content buffer and reaches beyond the limit, and
      the rest of the buffer does not happen to hold dummy characters. */
  predicate Straddles(g: Config, p: Parser, n: nat) {
    p.state.Content? && p.got < g.maxContent < p.got + n
    && exists i :: p.got <= i < |p.msg.content| && p.msg.content[i] != 88
  }

  lemma PlainMark(p: Parser)
    ensures Plain(Mark(p)) == Plain(p) && Plain(p.(msg := p.msg.(missing := true))) == Plain(p)
    ensures Marked(Mark(p))
  {
  }

  /** Completing a message looks only at headers and content. */
  lemma PlainComplete(g: Config, p: Parser, q: Parser)
    requires Plain(p) == Plain(q)
    ensures Plain(Complete(g, p).0) == Plain(Complete(g, q).0)
  {
  }

  lemma CompleteKeepsContent(g: Config, p: Parser)
    ensures Complete(g, p).0.msg.content == p.msg.content && Complete(g, p).1 == Done
  {
  }

  lemma MissingInChunk(g: Config, p: Parser, n: nat)
    requires Ok(p) && p.state.Chunks? && InBody(g, p) && n > 0 && InChunk(p.chunk, n)
    ensures var d := Run(g, p, Dummy(n));
            d.verdict == More && d.rest == [] && Plain(Missing(g, p, n).0) == Plain(d.p) && Missing(g, p, n).1 == More
  {
    hide ChunkRun, Run, Take;
    var s, q := Dummy(n), Mark(p);
    MarkFirst(g, p, s);
    PlainMark(p);
    RunIsChunkRun(g, q, s);
    DataRun(g.maxContent, q.chunk, s);
    PaddedIsTake(p.chunk.cache, n, g.maxContent);
  }

  lemma PaddedIsTake(cache: bytes, n: nat, max: nat)
    requires |cache| <= max
    ensures Padded(cache, n, max) == Take(cache + Dummy(n), max)
  {
    if |cache| == max {
      assert (cache + Dummy(n))[..max] == cache;
      assert n == 0 ==> cache + Dummy(n) == cache;
    }
  }

  lemma MissingToEof(g: Config, p: Parser, n: nat)
    requires Ok(p) && p.state.ContentNoLength? && InBody(g, p) && n > 0
    ensures var d := Run(g, p, Dummy(n));
            d.verdict == More && d.rest == [] && Plain(Missing(g, p, n).0) == Plain(d.p) && Missing(g, p, n).1 == More
  {
    hide Run, Take;
    var s, q := Dummy(n), Mark(p);
    MarkFirst(g, p, s);
    PlainMark(p);
    UnboundedContent(g, q, s);
    PaddedIsTake(p.chunk.cache, n, g.maxContent);
  }

  /** A block of dummies changes nothing exactly when there are dummies already. */
  lemma OverwriteDummies(buf: bytes, at: nat, n: nat)
    requires at < |buf| < at + n
    ensures Overwrite(buf, at, Dummy(n)) == buf <==> forall i :: at <= i < |buf| ==> buf[i] == 88
  {
    var r := Overwrite(buf, at, Dummy(n));
    assert r == buf[..at] + Dummy(n)[..|buf| - at];
    assert forall i :: at <= i < |buf| ==> r[i] == 88;
    assert forall i :: 0 <= i < at ==> r[i] == buf[i];
  }

  /** What parseMissingData writes is what the dummies would have written. */
  lemma MissingWrites(g: Config, p: Parser, n: nat)
    requires p.state.Content? && InBody(g, p) && 0 < n <= p.remaining
    ensures (if p.got + n <= g.maxContent then Overwrite(p.msg.content, p.got, Dummy(n)) else p.msg.content)
            == Overwrite(p.msg.content, p.got, Dummy(n))
            <==> !Straddles(g, p, n)
  {
    if p.got < g.maxContent < p.got + n {
      OverwriteDummies(p.msg.content, p.got, n);
    }
  }

  lemma DummyContent(g: Config, p: Parser, n: nat)
    requires Ok(p) && p.state.Content? && InBody(g, p) && 0 < n <= p.remaining && Marked(p)
    ensures var q := Stored(p, n, Overwrite(p.msg.content, p.got, Dummy(n)));
            Run(g, p, Dummy(n)) == if n == p.remaining then Result(Complete(g, q).0, [], Done) else Result(q, [], More)
  {
    hide Run, Overwrite, Complete;
    if n == p.remaining {
      FullContent(g, p, Dummy(n), []);
      assert Dummy(n) + [] == Dummy(n);
    } else {
      PartialContent(g, p, Dummy(n));
    }
  }

  lemma MissingContent(g: Config, p: Parser, n: nat)
    requires Ok(p) && p.state.Content? && InBody(g, p) && 0 < n <= p.remaining
    ensures var (q, v) := Missing(g, p, n);
            var d := Run(g, p, Dummy(n));
            v == d.verdict && v != Error && d.rest == [] && (Plain(q) == Plain(d.p) <==> !Straddles(g, p, n))
  {
    hide Run, Overwrite, Complete, Straddles;
    var s, marked := Dummy(n), Mark(p);
    MarkFirst(g, p, s);
    PlainMark(p);
    DummyContent(g, marked, n);
    MissingWrites(g, p, n);
    var content := if p.got + n <= g.maxContent then Overwrite(p.msg.content, p.got, s) else p.msg.content;
    var a := Stored(p.(msg := p.msg.(missing := true)), n, content);
    var b := Stored(marked, n, Overwrite(p.msg.content, p.got, s));
    CompleteKeepsContent(g, a);
    CompleteKeepsContent(g, b);
    if content == b.msg.content {
      PlainComplete(g, a, b);
    }
  }

  /** Missing data equals dummy data: in the three content states parseMissingData fails
      exactly on a gap that leaves the current chunk or the body; otherwise its verdict is
      that of parsing as many dummy characters, and parser and message agree up to the
      integrity flags if and only if the gap does not straddle max_content_length. */
  lemma MissingIsDummy(g: Config, p: Parser, n: nat)
    requires Ok(p) && InBody(g, p) && n > 0
    ensures Missing(g, p, n).1 == Error <==> Unbridgeable(p, n)
    ensures !Unbridgeable(p, n) ==>
              var (q, v) := Missing(g, p, n);
              var d := Run(g, p, Dummy(n));
              v == d.verdict && d.rest == [] && (Plain(q) == Plain(d.p) <==> !Straddles(g, p, n))
  {
    hide Run, Complete;
    if p.state.Chunks? && InChunk(p.chunk, n) {
      MissingInChunk(g, p, n);
    } else if p.state.ContentNoLength? {
      MissingToEof(g, p, n);
    } else if p.state.Content? && n <= p.remaining {
      MissingContent(g, p, n);
    }
    PlainMark(p);
  }

  // ---------------------------------------------------------------- every reachable parser

  /** What holds of a parser that has not finished, whatever it has been fed. */
  predicate Sound(g: Config, p: Parser) {
    Ok(p) && (p.state.Start? || p.state.Headers? ==> |p.chunk.cache| <= g.maxContent) && (InContent(p) ==> InBody(g, p))
  }

  predicate InContent(p: Parser) { p.state.Chunks? || p.state.Content? || p.state.ContentNoLength? }

  lemma NewIsSound(g: Config, m: Message)
    ensures Sound(g, NewParser(g, m))
  {
  }

  lemma HeadersCompleteSound(g: Config, p: Parser)
    requires Ok(p) && |p.chunk.cache| <= g.maxContent
    ensures HeadersComplete(g, p).1.More? ==> Sound(g, HeadersComplete(g, p).0) && InContent(HeadersComplete(g, p).0)
  {
    hide HeadMessage, Finished;
  }

  lemma HeaderByteSound(g: Config, p: Parser, c: byte)
    requires Sound(g, p) && p.state.Headers?
    ensures HeaderByte(g, p, c).2.More? ==> Sound(g, HeaderByte(g, p, c).0)
  {
    hide HeadStep, HeadersComplete;
    var out := HeadStep(g, p.head, c);
    if out.HDone? {
      HeadersCompleteSound(g, p.(head := out.h, used := p.used + if out.used then 1 else 0));
    }
  }

  lemma ChunkStepBounded(max: nat, k: Chunk, c: byte)
    requires ChunkOk(k) && |k.cache| <= max
    ensures ChunkStep(max, k, c).CMore? ==> |ChunkStep(max, k, c).k.cache| <= max
  {
    hide ParseHex;
  }

  lemma StepSound(g: Config, p: Parser, c: byte)
    requires Sound(g, p)
    ensures Step(g, p, c).2.More? ==> Sound(g, Step(g, p, c).0)
  {
    hide HeaderByte, ChunkStep, Finished;
    var q := if p.msg.missing then p.(msg := p.msg.(dataAfterMissing := true)) else p;
    if p.state.Start? || p.state.Headers? {
      HeaderByteSound(g, q.(state := Headers), c);
    } else if p.state.Chunks? {
      ChunkStepBounded(g.maxContent, p.chunk, c);
    }
  }

  /** Parsing leads from sound parsers to sound parsers... */
  lemma {:induction false} RunSound(g: Config, p: Parser, s: bytes)
    requires Sound(g, p)
    ensures Run(g, p, s).verdict.More? ==> Sound(g, Run(g, p, s).p)
    decreases |s|, InHead(p)
  {
    hide Step, Sound;
    assert Ok(p) by { SoundOk(g, p); }
    if s != [] {
      var (q, used, v) := Step(g, p, s[0]);
      StepSound(g, p, s[0]);
      if v.More? {
        RunSound(g, q, if used then s[1..] else s);
      }
    }
  }

  lemma SoundOk(g: Config, p: Parser)
    requires Sound(g, p)
    ensures Ok(p)
  {
  }

  /** ... and so does missing data. */
  lemma MissingSound(g: Config, p: Parser, n: nat)
    requires Sound(g, p)
    ensures Missing(g, p, n).1.More? ==> Sound(g, Missing(g, p, n).0)
  {
    hide Finished, Overwrite;
    if p.state.Content? && n <= p.remaining {
      OverwriteLength(p.msg.content, p.got, Dummy(n));
    }
  }

  lemma OverwriteLength(buf: bytes, at: nat, s: bytes)
    ensures |Overwrite(buf, at, s)| == |buf|
  {
  }

  /** What a parser may be given: bytes, or news of a gap. */
  datatype Input = Received(s: bytes) | Lost(n: nat)

  /** A parser after a series of inputs, none of which has ended the message. */
  ghost predicate Reaches(g: Config, p: Parser, inputs: seq<Input>, q: Parser)
    decreases |inputs|
  {
    if inputs == [] then p == q
    else
      Ok(p) &&
      match inputs[0]
      case Received(s) => Run(g, p, s).verdict.More? && Reaches(g, Run(g, p, s).p, inputs[1..], q)
      case Lost(n) => Missing(g, p, n).1.More? && Reaches(g, Missing(g, p, n).0, inputs[1..], q)
  }

  lemma {:induction false} ReachesSound(g: Config, p: Parser, inputs: seq<Input>, q: Parser)
    requires Sound(g, p) && Reaches(g, p, inputs, q)
    ensures Sound(g, q)
    decreases |inputs|
  {
    hide Run, Missing, Sound;
    if inputs != [] {
      match inputs[0]
      case Received(s) =>
        RunSound(g, p, s);
        ReachesSound(g, Run(g, p, s).p, inputs[1..], q);
      case Lost(n) =>
        MissingSound(g, p, n);
        ReachesSound(g, Missing(g, p, n).0, inputs[1..], q);
    }
  }

  /** Missing data equals dummy data in every parser that a new one can become, by any
      series of bytes and gaps that leaves it within a body. */
  lemma MissingIsDummyAlways(g: Config, m: Message, inputs: seq<Input>, p: Parser, n: nat)
    requires Reaches(g, NewParser(g, m), inputs, p) && InContent(p) && n > 0
    ensures Ok(p) && (Missing(g, p, n).1 == Error <==> Unbridgeable(p, n))
    ensures !Unbridgeable(p, n) ==>
              var (q, v) := Missing(g, p, n);
              var d := Run(g, p, Dummy(n));
              v == d.verdict && d.rest == [] && (Plain(q) == Plain(d.p) <==> !Straddles(g, p, n))
  {
    hide Reaches, Run, Missing, Plain, Straddles, Unbridgeable;
    NewIsSound(g, m);
    ReachesSound(g, NewParser(g, m), inputs, p);
    MissingIsDummy(g, p, n);
  }

  /** Whatever has been received and lost before: once the headers announce a body, its
      first max_content_length bytes are what is stored. */
  lemma BodyStoredAlways(g: Config, m: Message, inputs: seq<Input>, p: Parser, s: bytes, rest: bytes)
    requires Reaches(g, NewParser(g, m), inputs, p) && p.state.Content? && p.got == 0 && |s| == p.remaining
    ensures Ok(p) && var r := Run(g, p, s + rest);
                     r.verdict == Done && r.rest == rest && r.p.msg.content == Take(s, g.maxContent)
  {
    hide Reaches, Run;
    NewIsSound(g, m);
    ReachesSound(g, NewParser(g, m), inputs, p);
    assert s + rest != [];
    MarkFirst(g, p, s + rest);
    StoredContentIsPrefix(g, Mark(p), s, rest);
  }

  // ---------------------------------------------------------------- a gap across the limit

  /** The parser after the head of a request with a body: none of the body has come, and the
      content buffer holds whatever memory held. */
  lemma HeadOfBody(g: Config, r: HttpPrint.Request, keepAlive: bool)
    requires g.isRequest && HttpReceive.RequestOk(r) && r.body != []
    ensures var head := HttpPrint.PrintHead(r, HttpPrint.Prepared(r, keepAlive));
            var t := Run(g, NewParser(g, EMPTY_MESSAGE), head);
            && t.verdict.More? && t.p.state.Content? && t.p.got == 0 && t.p.remaining == |r.body|
            && t.p.msg.content == Fresh(g, if |r.body| > g.maxContent then g.maxContent else |r.body|)
  {
    hide Run, HeadRun, HeadMessage, BodyOf, Fresh, Finished, HttpReceive.RequestOk, HttpPrint.PrintHead,
        HttpPrint.Prepared,
         HttpPrint.HeadOf, Find;
    var p, d := NewParser(g, EMPTY_MESSAGE), HttpPrint.Prepared(r, keepAlive);
    var head := HttpPrint.PrintHead(r, d);
    HttpReceive.RequestParts(r);
    HttpPrint.PreparedOk(r, keepAlive);
    HttpPrint.HeadParses(g, r, d, []);
    assert head + [] == head;
    HttpReceive.HeadNotEmpty(r, d);
    StartIsHeaders(g, p, head);
    RunIsHeadRun(g, p.(state := Headers), head);
    var q := p.(state := Headers, head := HeadRun(g, p.head, head).h, used := |head|);
    HttpReceive.BodyAnnounced(g, q, r, d);
    assert head[|head|..] == [];
    RunNothing(g, HeadersComplete(g, q).0);
  }

  /** A gap across the limit, straight after the head of a request: parser and message are
      those that dummy data leaves if and only if the fresh buffer happens to hold nothing
      but dummy characters. */
  lemma GapAcrossLimit(g: Config, r: HttpPrint.Request, keepAlive: bool, n: nat)
    requires g.isRequest && HttpReceive.RequestOk(r) && 0 < g.maxContent < n <= |r.body|
    ensures var head := HttpPrint.PrintHead(r, HttpPrint.Prepared(r, keepAlive));
            var p := Run(g, NewParser(g, EMPTY_MESSAGE), head).p;
            && Reaches(g, NewParser(g, EMPTY_MESSAGE), [Received(head)], p) && Ok(p) && InContent(p)
                && !Unbridgeable(p, n)
            && (Plain(Missing(g, p, n).0) == Plain(Run(g, p, Dummy(n)).p) <==> forall i :: 0 <= i < g.maxContent ==>
                g.junk(i) == 88)
  {
    hide Run, Missing, HttpReceive.RequestOk, HttpPrint.PrintHead, HttpPrint.Prepared, Plain;
    var head := HttpPrint.PrintHead(r, HttpPrint.Prepared(r, keepAlive));
    var start := NewParser(g, EMPTY_MESSAGE);
    var p := Run(g, start, head).p;
    HeadOfBody(g, r, keepAlive);
    assert [Received(head)][1..] == [];
    assert Reaches(g, p, [], p);
    MissingIsDummyAlways(g, EMPTY_MESSAGE, [Received(head)], p, n);
    assert forall i :: 0 <= i < g.maxContent ==> p.msg.content[i] == g.junk(i);
  }

  /** The code does lose dummy data at the limit: of "P / HTTP/1.1" with a body of four bytes,
      one of which fits into the content buffer, the first two are missing. */
  lemma StraddleExample(junk: nat -> byte)
    requires junk(0) != 88
    ensures var g := Config(true, 1, false, junk);
            var r := HttpPrint.Request([80], [47], [], 1, 1, [], [0, 0, 0, 0]);
            var head := HttpPrint.PrintHead(r, HttpPrint.Prepared(r, true));
            var p := Run(g, NewParser(g, EMPTY_MESSAGE), head).p;
            && Reaches(g, NewParser(g, EMPTY_MESSAGE), [Received(head)], p) && Ok(p) && !Unbridgeable(p, 2)
            && Plain(Missing(g, p, 2).0) != Plain(Run(g, p, Dummy(2)).p)
  {
    hide Run, Missing, HttpPrint.PrintHead, HttpPrint.Prepared, Plain;
    var g := Config(true, 1, false, junk);
    var r := HttpPrint.Request([80], [47], [], 1, 1, [], [0, 0, 0, 0]);
    assert HttpReceive.RequestOk(r);
    GapAcrossLimit(g, r, true, 2);
  }
}
