/** The byte-at-a-time machine within one phase: parseHeaders and parseChunks on the bytes
    at hand, and what a whole run makes of them. */
module HttpPhases {
  import opened Wrappers
  import opened Bytes
  import opened HttpForms
  import opened HttpParser

  datatype HeadResult = HeadResult(h: Head, n: nat, verdict: Verdict)

  /** parseHeaders on the bytes available: the variables, the bytes consumed, the verdict. */
  function HeadRun(g: Config, h: Head, s: bytes): (r: HeadResult)
    ensures r.n <= |s| && (r.verdict.More? ==> r.n == |s|)
    decreases |s|
  {
    if s == [] then HeadResult(h, 0, More)
    else match HeadStep(g, h, s[0])
      case HMore(h') => var r := HeadRun(g, h', s[1..]); r.(n := r.n + 1)
      case HFail => HeadResult(h, 0, Error)
      case HDone(h', used) => HeadResult(h', if used then 1 else 0, Done)
  }

  datatype ChunkResult = ChunkResult(k: Chunk, n: nat, verdict: Verdict)

  function ChunkRun(max: nat, k: Chunk, s: bytes): (r: ChunkResult)
    requires ChunkOk(k)
    ensures ChunkOk(r.k) && r.n <= |s| && (r.verdict.More? ==> r.n == |s|)
    decreases |s|
  {
    if s == [] then ChunkResult(k, 0, More)
    else match ChunkStep(max, k, s[0])
      case CMore(k') => var r := ChunkRun(max, k', s[1..]); r.(n := r.n + 1)
      case CFail => ChunkResult(k, 0, Error)
      case CDone(k') => ChunkResult(k', 1, Done)
  }

  function Mark(p: Parser): Parser {
    if p.msg.missing then p.(msg := p.msg.(dataAfterMissing := true)) else p
  }

  lemma MarkFirst(g: Config, p: Parser, s: bytes)
    requires Ok(p) && s != []
    ensures Run(g, p, s) == Run(g, Mark(p), s)
  {
    assert Step(g, p, s[0]) == Step(g, Mark(p), s[0]);
  }

  /** What parse does after parseHeaders has answered `r` on the bytes `s`. */
  function AfterHead(g: Config, p: Parser, s: bytes, r: HeadResult): Result
    requires Ok(p) && p.state.Headers? && r.n <= |s|
  {
    var q := p.(head := r.h, used := p.used + r.n);
    match r.verdict
    case More => Result(q, [], More)
    case Error => Result(Failed(q).0, s[r.n..], Error)
    case Done =>
      var (q', v) := HeadersComplete(g, q);
      if v.More? then Run(g, q', s[r.n..]) else Result(q', s[r.n..], v)
  }

  /** One byte of the headers, with the outcome `out` of the switch kept abstract. */
  lemma HeadByte(g: Config, p: Parser, s: bytes, out: HeadOut)
    requires Ok(p) && Marked(p) && p.state.Headers? && s != [] && out == HeadStep(g, p.head, s[0])
    ensures match out
            case HMore(h) => Run(g, p, s) == Run(g, p.(head := h, used := p.used + 1), s[1..])
            case HFail => Run(g, p, s) == Result(Failed(p).0, s, Error)
            case HDone(h, used) =>
              var n := if used then 1 else 0;
              var (q, v) := HeadersComplete(g, p.(head := h, used := p.used + n));
              Run(g, p, s) == if v.More? then Run(g, q, s[n..]) else Result(q, s[n..], v)
  {
    assert s[0..] == s;
  }

  lemma AfterHeadShift(g: Config, p: Parser, s: bytes, h: Head, r: HeadResult)
    requires Ok(p) && p.state.Headers? && s != [] && r.n <= |s| - 1
    ensures AfterHead(g, p, s, r.(n := r.n + 1)) == AfterHead(g, p.(head := h, used := p.used + 1), s[1..], r)
  {
    assert s[1..][r.n..] == s[r.n + 1..];
    assert p.used + 1 + r.n == p.used + (r.n + 1);
  }

  lemma {:induction false} RunIsHeadRun(g: Config, p: Parser, s: bytes)
    requires Ok(p) && Marked(p) && p.state.Headers?
    ensures Run(g, p, s) == AfterHead(g, p, s, HeadRun(g, p.head, s))
    decreases |s|
  {
    hide HeadStep, HeadersComplete, Failed, Step;
    if s != [] {
      var out := HeadStep(g, p.head, s[0]);
      HeadByte(g, p, s, out);
      if out.HMore? {
        RunIsHeadRun(g, p.(head := out.h, used := p.used + 1), s[1..]);
        AfterHeadShift(g, p, s, out.h, HeadRun(g, out.h, s[1..]));
      } else {
        assert s[0..] == s;
      }
    }
  }

  function AfterChunks(g: Config, p: Parser, s: bytes, r: ChunkResult): Result
    requires Ok(p) && r.n <= |s|
  {
    var q := p.(chunk := r.k, used := p.used + r.n);
    match r.verdict
    case More => Result(q, [], More)
    case Error => Result(Failed(q).0, s[r.n..], Error)
    case Done => Result(Complete(g, q.(msg := Joined(r.k, q.msg))).0, s[r.n..], Done)
  }

  /** One byte of the chunks, with the outcome `out` of the switch kept abstract. */
  lemma ChunkByte(g: Config, p: Parser, s: bytes, out: ChunkOut)
    requires Ok(p) && Marked(p) && p.state.Chunks? && s != [] && out == ChunkStep(g.maxContent, p.chunk, s[0])
    ensures out.CMore? ==> ChunkOk(out.k) && Run(g, p, s) == Run(g, p.(chunk := out.k, used := p.used + 1), s[1..])
    ensures out.CFail? ==> Run(g, p, s) == Result(Failed(p).0, s, Error)
    ensures out.CDone? ==>
              Run(g, p, s)
              == Result(Complete(g, p.(chunk := out.k, used := p.used + 1, msg := Joined(out.k, p.msg))).0, s[1..],
                  Done)
  {
    hide ChunkStep, Finished, Joined;
  }

  lemma AfterChunksShift(g: Config, p: Parser, s: bytes, k: Chunk, r: ChunkResult)
    requires Ok(p) && s != [] && r.n <= |s| - 1 && ChunkOk(k)
    ensures AfterChunks(g, p, s, r.(n := r.n + 1)) == AfterChunks(g, p.(chunk := k, used := p.used + 1), s[1..], r)
  {
    hide Complete, Failed;
    assert s[1..][r.n..] == s[r.n + 1..];
    assert p.used + 1 + r.n == p.used + (r.n + 1);
  }

  lemma {:induction false} RunIsChunkRun(g: Config, p: Parser, s: bytes)
    requires Ok(p) && Marked(p) && p.state.Chunks?
    ensures Run(g, p, s) == AfterChunks(g, p, s, ChunkRun(g.maxContent, p.chunk, s))
    decreases |s|
  {
    hide ChunkStep, Complete, Failed;
    if s != [] {
      var out := ChunkStep(g.maxContent, p.chunk, s[0]);
      ChunkByte(g, p, s, out);
      if out.CMore? {
        RunIsChunkRun(g, p.(chunk := out.k, used := p.used + 1), s[1..]);
        AfterChunksShift(g, p, s, out.k, ChunkRun(g.maxContent, out.k, s[1..]));
      } else {
        assert s[0..] == s;
      }
    }
  }

  lemma RunNothing(g: Config, p: Parser)
    requires Ok(p)
    ensures Run(g, p, []) == Result(p, [], More)
  {
  }

  /** PARSE_START falls through to PARSE_HEADERS. */
  lemma StartIsHeaders(g: Config, p: Parser, s: bytes)
    requires Ok(p) && s != [] && (p.state.Start? || p.state.Headers?)
    ensures Run(g, p, s) == Run(g, p.(state := Headers), s)
  {
    assert Step(g, p, s[0]) == Step(g, p.(state := Headers), s[0]);
  }

  /** Completing a message leaves its content and first line alone; a form adds to the query
      parameters. */
  lemma FinishedContent(g: Config, h: Head, m: Message)
    ensures var f := Finished(g, h, m);
            && f.content == m.content && f.isChunked == m.isChunked && f.contentLength == m.contentLength
            && f.verb == m.verb && f.resource == m.resource && f.query == m.query && f.code == m.code
                && f.reason == m.reason
            && f.cookies == m.cookies
            && f.queryParams == if g.isRequest && IsForm(h.headers)
                                then ParseQuery(m.queryParams, Take(m.content, m.contentLength)).0 else m.queryParams
  {
  }

  /** The content is announced as an encoded form. */
  predicate IsForm(headers: Dict) {
    var contentType := Find(headers, CONTENT_TYPE);
    contentType.Some? && URL_ENCODED <= contentType.value
  }

  lemma FinishedValid(g: Config, h: Head, m: Message)
    ensures Finished(g, h, m).isValid
  {
  }
}
