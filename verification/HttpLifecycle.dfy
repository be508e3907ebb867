/** What becomes of a connection once a message has been received over it. */
module HttpLifecycle {
  import opened Wrappers
  import opened Bytes
  import opened HttpParser
  import opened HttpSegments
  import opened HttpPhases
  import opened HttpPrint
  import opened HttpReceive
  import opened HttpEndings

  /** The read buffers in which the next message will arrive. */
  function Buffers(c: Connection): seq<bytes> {
    (if c.lifecycle.Pipelined? then [c.saved] else []) + c.incoming
  }

  /** The first `k` buffers are those that have to be read for `n` bytes. */
  predicate Needed(buffers: seq<bytes>, n: nat, k: nat) {
    && 0 < k <= |buffers| && |Concat(buffers[..k])| >= n && (k > 1 ==> |Concat(buffers[..k - 1])| < n)
  }

  /** The connection after the message `text` has been taken from the first `k` buffers. */
  function After(buffers: seq<bytes>, text: bytes, k: nat, stays: bool): Connection
    requires k <= |buffers| && |text| <= |Concat(buffers[..k])|
  {
    var saved := Concat(buffers[..k])[|text|..];
    if !stays then Connection(Close, [], buffers[k..])
    else if saved == [] then Connection(KeepAlive, [], buffers[k..])
    else Connection(Pipelined, saved, buffers[k..])
  }

  /** Less than the whole message is not complete. */
  lemma PrefixIsMore(g: Config, p: Parser, a: bytes, b: bytes)
    requires Ok(p) && b != [] && Run(g, p, a + b).verdict.Done? && Run(g, p, a + b).rest == []
    ensures Run(g, p, a).verdict.More?
  {
    hide Run;
    RunSplits(g, p, a, b);
  }

  /** More than the whole message leaves the rest over. */
  lemma MoreIsLeft(g: Config, p: Parser, text: bytes, more: bytes)
    requires Ok(p) && Run(g, p, text).verdict.Done? && Run(g, p, text).rest == []
    ensures Run(g, p, text + more) == Run(g, p, text).(rest := more)
  {
    hide Run;
    RunSplits(g, p, text, more);
    assert [] + more == more;
  }

  lemma ConcatTwo(a: bytes, buffers: seq<bytes>, k: nat)
    requires k <= |buffers|
    ensures Concat(([a] + buffers)[..k + 1]) == a + Concat(buffers[..k])
  {
    assert ([a] + buffers)[..k + 1][1..] == buffers[..k];
  }

  lemma FirstBuffer(a: bytes, buffers: seq<bytes>)
    ensures Concat(([a] + buffers)[..1]) == a
  {
    assert ([a] + buffers)[..1] == [a] && [a][1..] == [];
  }

  /** The loop of receive reads buffers until it has the whole message, and no more. */
  lemma {:induction false} LoopEnds(g: Config, p: Parser, buf: bytes, incoming: seq<bytes>, text: bytes, rest: bytes)
    returns (k: nat)
    requires Ok(p) && NonEmpty(incoming) && buf + Concat(incoming) == text + rest
    requires Run(g, p, text).verdict.Done? && Run(g, p, text).rest == []
    ensures Needed([buf] + incoming, |text|, k)
    ensures var q := Run(g, p, text).p;
            ReceiveLoop(g, p, buf, incoming) == Received(q, After([buf] + incoming, text, k, KeepsAlive(q.head)))
    decreases |incoming|
  {
    hide Run, KeepsAlive;
    FirstBuffer(buf, incoming);
    if |buf| >= |text| {
      k := 1;
      assert buf[..|text|] == text by { assert (buf + Concat(incoming))[..|text|] == text; }
      assert buf == text + buf[|text|..];
      MoreIsLeft(g, p, text, buf[|text|..]);
      assert ([buf] + incoming)[1..] == incoming;
    } else {
      var left := text[|buf|..];
      assert buf == text[..|buf|] by { assert (text + rest)[..|buf|] == buf; }
      assert text == buf + left;
      PrefixIsMore(g, p, buf, left);
      RunSplits(g, p, buf, left);
      assert Concat(incoming) == left + rest by {
        assert (buf + Concat(incoming))[|buf|..] == Concat(incoming);
        assert (text + rest)[|buf|..] == left + rest;
      }
      assert incoming != [];
      NonEmptyTail(incoming);
      var q := Run(g, p, buf).p;
      var j := LoopEnds(g, q, incoming[0], incoming[1..], left, rest);
      assert [incoming[0]] + incoming[1..] == incoming;
      ConcatTwo(buf, incoming, j);
      ConcatTwo(buf, incoming, j - 1);
      k := j + 1;
      assert (buf + Concat(incoming[..j]))[|text|..] == Concat(incoming[..j])[|left|..];
      assert ([buf] + incoming)[k..] == incoming[j..];
    }
  }

  /** receive takes a message from the first buffers that hold it. */
  lemma ReceiveEnds(g: Config, c: Connection, text: bytes, rest: bytes) returns (k: nat)
    requires Live(c) && Pending(c) == text + rest
    requires var t := Run(g, NewParser(g, EMPTY_MESSAGE), text); t.verdict.Done? && t.rest == [] && text != []
    ensures Needed(Buffers(c), |text|, k)
    ensures var q := Run(g, NewParser(g, EMPTY_MESSAGE), text).p;
            Receive(g, c) == Received(q, After(Buffers(c), text, k, KeepsAlive(q.head)))
  {
    hide Run, KeepsAlive, ReceiveLoop, NonEmpty, Needed, After;
    var p := NewParser(g, EMPTY_MESSAGE);
    if c.lifecycle.Pipelined? {
      k := LoopEnds(g, p, c.saved, c.incoming, text, rest);
    } else {
      assert [] + Concat(c.incoming) == Concat(c.incoming) && [] + c.incoming == c.incoming;
      assert c.incoming != [];
      NonEmptyTail(c.incoming);
      k := LoopEnds(g, p, c.incoming[0], c.incoming[1..], text, rest);
      assert [c.incoming[0]] + c.incoming[1..] == c.incoming;
    }
  }

  /** The version of a request is 1.1 or later. */
  predicate AtLeastOneOne(r: Request) { r.major > 1 || (r.major == 1 && r.minor >= 1) }

  lemma SentStays(r: Request, keepAlive: bool, h: Head)
    requires RequestOk(r) && HeadOf(h, r, Prepared(r, keepAlive))
    ensures KeepsAlive(h) == (keepAlive && AtLeastOneOne(r))
  {
    hide LineOk, FieldsOk, Prepared, Find;
    PreparedOk(r, keepAlive);
    assert |Str("Keep-Alive")| != |Str("close")|;
  }

  /** The connection after a sent request has been received, however the bytes arrive: it is
      to be closed if the sender said so or speaks a version before 1.1; otherwise it is
      pipelined if the read buffer in which the request ended holds more bytes, which are
      saved, and kept alive if not. */
  lemma LifecycleAfterRequest(g: Config, r: Request, keepAlive: bool, c: Connection, rest: bytes) returns (k: nat)
    requires g.isRequest && RequestOk(r) && Live(c) && Pending(c) == Print(r, keepAlive) + rest
    ensures Needed(Buffers(c), |Print(r, keepAlive)|, k)
    ensures var out := Receive(g, c);
            && out.Received? && Recovered(g, out.p, r, Prepared(r, keepAlive))
            && out.c == After(Buffers(c), Print(r, keepAlive), k, keepAlive && AtLeastOneOne(r))
  {
    hide Run, RequestOk, Recovered, KeepsAlive, Receive, Print, Prepared, Needed, After;
    var text := Print(r, keepAlive);
    RoundTrip(g, r, keepAlive, []);
    assert text + [] == text;
    PrintNotEmpty(r, keepAlive);
    k := ReceiveEnds(g, c, text, rest);
    var q := Run(g, NewParser(g, EMPTY_MESSAGE), text).p;
    RecoveredIs(g, q, r, Prepared(r, keepAlive));
    SentStays(r, keepAlive, q.head);
  }

  lemma PrintNotEmpty(r: Request, keepAlive: bool)
    ensures Print(r, keepAlive) != []
  {
    hide PrintHead;
    HeadNotEmpty(r, Prepared(r, keepAlive));
  }

  lemma RecoveredIs(g: Config, p: Parser, r: Request, d: Dict)
    requires Recovered(g, p, r, d)
    ensures HeadOf(p.head, r, d)
  {
  }

  /** The same for a request without a body and any header list: the connection is to be closed
      if the first Connection header is exactly "close" or the version is before 1.1. */
  lemma LifecycleAfterBareRequest(g: Config, r: Request, d: Dict, c: Connection, rest: bytes) returns (k: nat)
    requires g.isRequest && LineOk(r) && FieldsOk(d) && Find(d, CONTENT_LENGTH).None? && !Chunky(d)
    requires Live(c) && Pending(c) == PrintHead(r, d) + rest
    ensures Needed(Buffers(c), |PrintHead(r, d)|, k)
    ensures var out := Receive(g, c);
            && out.Received? && RequestDone(out.p, r, d, [])
            && out.c == After(Buffers(c), PrintHead(r, d), k, Find(d, CONNECTION) != Some(Str("close"))
                && AtLeastOneOne(r))
  {
    hide Run, LineOk, FieldsOk, RequestDone, Chunky, Receive, PrintHead, Needed, After, Find;
    var text := PrintHead(r, d);
    BareRequestEnds(g, r, d, []);
    assert text + [] == text;
    HeadNotEmpty(r, d);
    k := ReceiveEnds(g, c, text, rest);
    DoneHead(Run(g, NewParser(g, EMPTY_MESSAGE), text).p, r, d);
  }

  lemma DoneHead(p: Parser, r: Request, d: Dict)
    requires RequestDone(p, r, d, [])
    ensures HeadOf(p.head, r, d)
  {
  }

  // ---------------------------------------------------------------- input that is no message

  lemma EofAnswer(g: Config, p: Parser)
    ensures var out := AtEof(g, p);
            && (out.Received? <==> p.state.ContentNoLength?)
            && (out.Received? ==>
                  && out.p.msg.content == p.chunk.cache && out.p.state.End? && out.p.msg.isValid
                  && out.p.head == p.head && out.c == Connection(Close, [], []))
  {
  }

  /** receive on the bytes pending, whatever they are: a message that parsing all of them would
      complete; an error where parsing fails; and where they stop short, a message if and only if
      its body has no known length, with what there is of it, and the connection to be closed. */
  lemma {:induction false} LoopAnswers(g: Config, p: Parser, buf: bytes, incoming: seq<bytes>)
    requires Ok(p) && NonEmpty(incoming)
    ensures var t := Run(g, p, buf + Concat(incoming));
            match t.verdict
            case Error => ReceiveLoop(g, p, buf, incoming).NotReceived?
            case Done => ReceiveLoop(g, p, buf, incoming).Received? && ReceiveLoop(g, p, buf, incoming).p == t.p
            case More =>
              var out := ReceiveLoop(g, p, buf, incoming);
              && (out.Received? <==> t.p.state.ContentNoLength?)
              && (out.Received? ==>
                    && out.p.msg.content == t.p.chunk.cache && out.p.state.End? && out.p.msg.isValid
                    && out.p.head == t.p.head && out.c == Connection(Close, [], []))
    decreases |incoming|
  {
    hide Run, KeepsAlive, AtEof;
    assert Ok(Run(g, p, buf).p);
    EofAnswer(g, Run(g, p, buf).p);
    RunSplits(g, p, buf, Concat(incoming));
    var r := Run(g, p, buf);
    if incoming == [] {
      assert buf + [] == buf;
    } else if r.verdict.More? {
      NonEmptyTail(incoming);
      LoopAnswers(g, r.p, incoming[0], incoming[1..]);
    }
  }
}
