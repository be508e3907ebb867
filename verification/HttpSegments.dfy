/** The result of parsing does not depend on how the bytes arrive, every byte is accounted
    for, and the stored body is the beginning of the real one. */
module HttpSegments {
  import opened Bytes
  import opened HttpParser

  /** Going on after a first buffer: with the next bytes if there is no verdict yet,
      otherwise they are simply left over. */
  function Continue(g: Config, r: Result, s: bytes): Result
    requires Ok(r.p)
  {
    if r.verdict.More? then Run(g, r.p, s) else r.(rest := r.rest + s)
  }

  /** Cutting the input anywhere makes no difference. */
  lemma {:induction false} RunSplits(g: Config, p: Parser, a: bytes, b: bytes)
    requires Ok(p)
    ensures Run(g, p, a + b) == Continue(g, Run(g, p, a), b)
    decreases |a|, InHead(p)
  {
    if a == [] {
      assert a + b == b;
    } else {
      var (q, used, v) := Step(g, p, a[0]);
      assert (a + b)[0] == a[0] && (a + b)[1..] == a[1..] + b;
      if v.More? {
        RunSplits(g, q, if used then a[1..] else a, b);
      }
    }
  }

  /** Successive parse calls on successive read buffers. */
  function Feed(g: Config, r: Result, buffers: seq<bytes>): Result
    requires Ok(r.p)
    decreases |buffers|
  {
    if buffers == [] then r else Feed(g, Continue(g, r, buffers[0]), buffers[1..])
  }

  lemma ContinueTwice(g: Config, r: Result, a: bytes, b: bytes)
    requires Ok(r.p)
    ensures Continue(g, Continue(g, r, a), b) == Continue(g, r, a + b)
  {
    if r.verdict.More? {
      RunSplits(g, r.p, a, b);
    } else {
      assert r.rest + a + b == r.rest + (a + b);
    }
  }

  lemma {:induction false} FeedJoins(g: Config, r: Result, buffers: seq<bytes>)
    requires Ok(r.p) && (r.verdict.More? ==> r.rest == [])
    ensures Feed(g, r, buffers) == Continue(g, r, Concat(buffers))
    decreases |buffers|
  {
    if buffers == [] {
      assert r.rest + [] == r.rest;
    } else {
      FeedJoins(g, Continue(g, r, buffers[0]), buffers[1..]);
      ContinueTwice(g, r, buffers[0], Concat(buffers[1..]));
    }
  }

  /** Segmentation independence: for every byte string and every way of cutting it into
      buffers, the parser ends in the same state, with the same message, the same verdict
      and the same bytes left over as after one parse of the whole. */
  lemma SegmentationIndependence(g: Config, p: Parser, buffers: seq<bytes>)
    requires Ok(p)
    ensures Feed(g, Result(p, [], More), buffers) == Run(g, p, Concat(buffers))
  {
    FeedJoins(g, Result(p, [], More), buffers);
  }

  lemma HeadersCompleteCounts(g: Config, p: Parser)
    ensures HeadersComplete(g, p).0.used == p.used
  {
    hide HeadMessage, Finished, Fresh, BodyOf;
  }

  lemma HeaderByteCounts(g: Config, p: Parser, c: byte)
    requires Ok(p) && p.state.Headers?
    ensures var (q, used, v) := HeaderByte(g, p, c); q.used == p.used + if used then 1 else 0
  {
    hide HeadStep, HeadersComplete;
    var out := HeadStep(g, p.head, c);
    if out.HDone? {
      HeadersCompleteCounts(g, p.(head := out.h, used := p.used + if out.used then 1 else 0));
    }
  }

  lemma StepCounts(g: Config, p: Parser, c: byte)
    requires Ok(p)
    ensures var (q, used, v) := Step(g, p, c); q.used == p.used + if used then 1 else 0
  {
    hide HeaderByte, ChunkStep, Finished, Store;
    var q := if p.msg.missing then p.(msg := p.msg.(dataAfterMissing := true)) else p;
    HeaderByteCounts(g, q.(state := Headers), c);
    assert Store(g, q, c).used == q.used + 1 by { StoreCounts(g, q, c); }
  }

  lemma StoreCounts(g: Config, p: Parser, c: byte)
    ensures Store(g, p, c).used == p.used + 1
  {
  }

  /** The bytes consumed are a prefix of the input, the rest is left over untouched, and
      the byte counter has grown by exactly the number consumed. */
  lemma {:induction false} BytesConserved(g: Config, p: Parser, s: bytes)
    requires Ok(p)
    ensures var r := Run(g, p, s);
            |r.rest| <= |s| && r.rest == s[|s| - |r.rest|..] && r.p.used == p.used + |s| - |r.rest|
    decreases |s|, InHead(p)
  {
    hide Step;
    if s != [] {
      var (q, used, v) := Step(g, p, s[0]);
      var rest := if used then s[1..] else s;
      StepCounts(g, p, s[0]);
      if v.More? {
        BytesConserved(g, q, rest);
      }
    }
  }

  // ---------------------------------------------------------------- bodies

  /** Writing `s` into a buffer from position `at`, as far as the buffer reaches. */
  function Overwrite(buf: bytes, at: nat, s: bytes): bytes {
    if at >= |buf| then buf
    else if at + |s| <= |buf| then buf[..at] + s + buf[at + |s|..]
    else buf[..at] + s[..|buf| - at]
  }

  lemma OverwriteStep(buf: bytes, at: nat, c: byte, s: bytes)
    ensures Overwrite(buf, at, [c] + s) == Overwrite(if at < |buf| then buf[at := c] else buf, at + 1, s)
  {
  }

  lemma OverwriteNothing(buf: bytes, at: nat)
    ensures Overwrite(buf, at, []) == buf
  {
  }

  lemma ContentByte(g: Config, p: Parser, c: byte)
    requires Ok(p) && p.state.Content? && p.remaining > 1 && Marked(p)
    ensures Step(g, p, c) == (Store(g, p, c), true, More)
  {
  }

  /** Body bytes of known length: after `s`, shorter than what is missing, the buffer holds
      them at their place and the counters have moved on. */
  lemma {:induction false} PartialContent(g: Config, p: Parser, s: bytes)
    requires Ok(p) && p.state.Content? && |s| < p.remaining && |p.msg.content| <= g.maxContent && Marked(p)
    ensures Run(g, p, s) == Result(p.(remaining := p.remaining - |s|, got := p.got + |s|, used := p.used + |s|,
                                      msg := p.msg.(content := Overwrite(p.msg.content, p.got, s))), [], More)
    decreases |s|
  {
    hide Step, Overwrite;
    if s == [] {
      OverwriteNothing(p.msg.content, p.got);
    } else {
      ContentByte(g, p, s[0]);
      var q := Store(g, p, s[0]);
      PartialContent(g, q, s[1..]);
      assert s == [s[0]] + s[1..];
      OverwriteStep(p.msg.content, p.got, s[0], s[1..]);
    }
  }

  lemma LastByte(g: Config, p: Parser, c: byte, rest: bytes)
    requires Ok(p) && p.state.Content? && p.remaining == 1 && Marked(p)
    ensures Run(g, p, [c] + rest) == Result(Complete(g, Store(g, p, c)).0, rest, Done)
  {
    assert ([c] + rest)[1..] == rest;
  }

  lemma OverwriteEnd(buf: bytes, at: nat, s: bytes, c: byte)
    ensures Overwrite(buf, at, s + [c])
            == var b := Overwrite(buf, at, s); if at + |s| < |b| then b[at + |s| := c] else b
  {
    var b := Overwrite(buf, at, s);
    var k := at + |s|;
    if at < |buf| && k < |buf| {
      assert Overwrite(buf, at, s + [c]) == buf[..at] + (s + [c]) + buf[k + 1..];
      assert b == buf[..at] + s + buf[k..];
      assert b[k := c] == buf[..at] + (s + [c]) + buf[k + 1..];
    } else if at < |buf| {
      assert |b| == |buf|;
      assert (s + [c])[..|buf| - at] == s[..|buf| - at];
    }
  }

  /** The parser after the whole of the body `s` has been stored. */
  function Filled(p: Parser, s: bytes): Parser {
    p.(remaining := 0, got := p.got + |s|, used := p.used + |s|,
       msg := p.msg.(content := Overwrite(p.msg.content, p.got, s)))
  }

  /** The last body byte completes the message, and whatever follows is left over. */
  lemma FullContent(g: Config, p: Parser, s: bytes, rest: bytes)
    requires Ok(p) && p.state.Content? && 0 < |s| == p.remaining && |p.msg.content| <= g.maxContent && Marked(p)
    ensures Run(g, p, s + rest) == Result(Complete(g, Filled(p, s)).0, rest, Done)
  {
    var k := |s| - 1;
    var init, last := s[..k], s[k];
    assert s + rest == init + ([last] + rest) && s == init + [last];
    RunSplits(g, p, init, [last] + rest);
    PartialContent(g, p, init);
    var q := Run(g, p, init).p;
    LastByte(g, q, last, rest);
    OverwriteEnd(p.msg.content, p.got, init, last);
    assert Store(g, q, last) == Filled(p, s);
  }

  /** After the headers announced `n` body bytes, the stored content is exactly the first
      min(n, max_content_length) of them. */
  lemma StoredContentIsPrefix(g: Config, p: Parser, s: bytes, rest: bytes)
    requires Ok(p) && p.state.Content? && p.got == 0 && 0 < |s| == p.remaining && Marked(p)
    requires |p.msg.content| == (if |s| > g.maxContent then g.maxContent else |s|)
    ensures var r := Run(g, p, s + rest);
            r.verdict == Done && r.rest == rest && r.p.msg.content == Take(s, g.maxContent)
  {
    FullContent(g, p, s, rest);
    assert Overwrite(p.msg.content, 0, s) == Take(s, g.maxContent);
  }

  lemma EofByte(g: Config, p: Parser, c: byte)
    requires Ok(p) && p.state.ContentNoLength? && Marked(p)
    ensures Step(g, p, c)
            == (p.(chunk := p.chunk.(cache := if |p.chunk.cache| < g.maxContent then p.chunk.cache + [c]
                else p.chunk.cache),
                   got := p.got + 1, used := p.used + 1), true, More)
  {
  }

  /** A body that runs to the end of the connection is collected up to the limit. */
  lemma {:induction false} UnboundedContent(g: Config, p: Parser, s: bytes)
    requires Ok(p) && p.state.ContentNoLength? && |p.chunk.cache| <= g.maxContent && Marked(p)
    ensures Run(g, p, s) == Result(p.(chunk := p.chunk.(cache := Take(p.chunk.cache + s, g.maxContent)),
                                      got := p.got + |s|, used := p.used + |s|), [], More)
    decreases |s|
  {
    hide Step;
    if s == [] {
      assert p.chunk.cache + s == p.chunk.cache;
    } else {
      EofByte(g, p, s[0]);
      var q := Step(g, p, s[0]).0;
      UnboundedContent(g, q, s[1..]);
      assert p.chunk.cache + s == (p.chunk.cache + [s[0]]) + s[1..];
    }
  }
}
