/** Sending a request and receiving it: the round trip, and requests pipelined over a
    connection that delivers the bytes in arbitrary pieces. */
module HttpReceive {
  import opened Wrappers
  import opened Bytes
  import opened HttpForms
  import opened HttpParser
  import opened HttpSegments
  import opened HttpPhases
  import opened HttpPrint

  /** What can be sent and read back: token names, control-free values, everything within
      the parser's limits, and no header that says the transfer coding is chunked. */
  predicate RequestOk(r: Request) {
    && LineOk(r) && FieldsOk(r.headers) && |r.body| <= SIZE_MAX
    && forall i :: 0 <= i < |r.headers| && SameName(r.headers[i].0, TRANSFER_ENCODING) ==>
         !SameName(r.headers[i].1, Str("chunked"))
  }

  /** Whichever entry is found, it is not chunked. */
  lemma NotChunked(r: Request)
    requires RequestOk(r)
    ensures var coding := Find(r.headers, TRANSFER_ENCODING); coding.None? || !SameName(coding.value, Str("chunked"))
  {
    hide LineOk, FieldsOk, SameName;
    if Find(r.headers, TRANSFER_ENCODING).Some? {
      FoundAt(r.headers, TRANSFER_ENCODING);
    }
  }

  /** A finished parser that has recovered `r`, keeping as much of the body as allowed. */
  predicate Recovered(g: Config, p: Parser, r: Request, d: Dict) {
    && HeadOf(p.head, r, d) && p.state.End?
    && p.msg.verb == r.verb && p.msg.resource == r.resource && p.msg.query == r.query
    && p.msg.isValid && p.msg.content == Take(r.body, g.maxContent) && p.msg.contentLength == |p.msg.content|
    && p.msg.queryParams == Params(r.query, d, Take(r.body, g.maxContent))
    && p.msg.cookies == AllCookies([], d, COOKIE, false)
  }

  /** The parameters in a query string and in the content, if that is a form. */
  function Params(query: bytes, headers: Dict, content: bytes): Dict {
    var params := LineParams(query);
    if IsForm(headers) then ParseQuery(params, content).0 else params
  }

  function LineParams(query: bytes): Dict { if query != [] then ParseQuery([], query).0 else [] }

  lemma DigitsTrimmed(s: bytes)
    requires Digits(s)
    ensures Trim(s) == s
  {
  }

  /** The printed Content-Length is understood. */
  lemma LengthUnderstood(n: nat)
    requires n <= SIZE_MAX
    ensures ParseSize(Trim(Numeral(n, 10))) == Some(n)
  {
    hide Numeral, NumeralValue, Trim;
    DecimalDigits(n);
    DigitsTrimmed(Numeral(n, 10));
    NumeralRoundTrip(n, 10);
  }

  /** The message after the head of `r`. */
  lemma BodyAnnounced(g: Config, p: Parser, r: Request, d: Dict)
    requires g.isRequest && RequestOk(r) && HeadOf(p.head, r, d)
    requires Find(d, CONTENT_LENGTH) == Some(Numeral(|r.body|, 10))
    requires Find(d, TRANSFER_ENCODING) == Find(r.headers, TRANSFER_ENCODING)
    ensures var m := HeadMessage(g, p.head, p.msg);
            && BodyOf(g, p.head, m) == (if r.body == [] then NoBody else Sized(|r.body|))
            && m.verb == r.verb && m.resource == r.resource && m.query == r.query
            && m.missing == p.msg.missing && !m.isChunked && m.contentLength == 0
            && (p.msg.queryParams == [] ==> m.queryParams == LineParams(r.query))
            && m.cookies == AllCookies(p.msg.cookies, d, COOKIE, false)
  {
    hide AllCookies, ParseQuery, Find, ParseSize, Trim, Numeral, SameName;
    LengthUnderstood(|r.body|);
    NotChunked(r);
  }

  /** Once the headers are complete the rest of the run reads the body. */
  lemma BodyReceived(g: Config, p: Parser, r: Request, d: Dict, rest: bytes)
    requires Ok(p) && p.state.Headers? && !p.msg.missing && p.msg.queryParams == [] && p.msg.cookies == []
    requires g.isRequest && RequestOk(r) && HeadOf(p.head, r, d)
    requires Find(d, CONTENT_LENGTH) == Some(Numeral(|r.body|, 10))
    requires Find(d, TRANSFER_ENCODING) == Find(r.headers, TRANSFER_ENCODING)
    ensures var (q, v) := HeadersComplete(g, p);
            var t := if v.More? then Run(g, q, r.body + rest) else Result(q, r.body + rest, v);
            t.verdict == Done && t.rest == rest && Recovered(g, t.p, r, d)
  {
    hide Find, BodyOf, HeadMessage, Run, Finished, IsForm, ParseQuery, AllCookies, LineParams;
    BodyAnnounced(g, p, r, d);
    var (q, v) := HeadersComplete(g, p);
    var m := HeadMessage(g, p.head, p.msg);
    if r.body == [] {
      FinishedContent(g, p.head, m.(content := []));
      assert Take(r.body, 0) == [] && Take(r.body, g.maxContent) == [];
      assert r.body + rest == rest;
      assert Finished(g, p.head, m.(content := [])).isValid by { FinishedValid(g, p.head, m.(content := [])); }
    } else {
      FullContent(g, q, r.body, rest);
      var filled := Filled(q, r.body);
      assert Overwrite(q.msg.content, 0, r.body) == Take(r.body, g.maxContent);
      assert Take(filled.msg.content, |filled.msg.content|) == filled.msg.content;
      FinishedContent(g, filled.head, filled.msg);
      FinishedValid(g, filled.head, filled.msg);
    }
  }

  /** Print then parse: parsing a sent request, whatever follows it, recovers method,
      resource, query, version, headers and body (cut at max_content_length), and consumes
      exactly the bytes sent. */
  lemma RoundTrip(g: Config, r: Request, keepAlive: bool, rest: bytes)
    requires g.isRequest && RequestOk(r)
    ensures var t := Run(g, NewParser(g, EMPTY_MESSAGE), Print(r, keepAlive) + rest);
            && t.verdict == Done && t.rest == rest && t.p.used == |Print(r, keepAlive)|
            && Recovered(g, t.p, r, Prepared(r, keepAlive))
  {
    hide Run, HeadRun, RequestOk, HeadersComplete, PrintHead, Prepared, Recovered, HeadOf;
    assert LineOk(r) && FieldsOk(r.headers) && |r.body| <= SIZE_MAX by { RequestParts(r); }
    var p, d := NewParser(g, EMPTY_MESSAGE), Prepared(r, keepAlive);
    var head := PrintHead(r, d);
    var s := head + (r.body + rest);
    assert Print(r, keepAlive) + rest == s;
    PreparedOk(r, keepAlive);
    HeadParses(g, r, d, r.body + rest);
    assert s != [] by { HeadNotEmpty(r, d); }
    StartIsHeaders(g, p, s);
    var p1 := p.(state := Headers);
    RunIsHeadRun(g, p1, s);
    var t := HeadRun(g, p1.head, s);
    assert s[t.n..] == r.body + rest;
    BodyReceived(g, p1.(head := t.h, used := t.n), r, d, rest);
    BytesConserved(g, p, s);
  }

  lemma RequestParts(r: Request)
    requires RequestOk(r)
    ensures LineOk(r) && FieldsOk(r.headers) && |r.body| <= SIZE_MAX
  {
  }

  lemma HeadNotEmpty(r: Request, d: Dict)
    ensures PrintHead(r, d) != []
  {
    assert |CRLF| == 2;
  }

  /** The headers say that the content is a form: the first Content-Type begins with the type
      of url-encoded forms. */
  predicate SaysForm(d: Dict) { exists i :: 0 <= i < |d| && FirstUnder(d, CONTENT_TYPE, i) && URL_ENCODED <= d[i].1 }

  lemma SaysFormExactly(d: Dict)
    ensures SaysForm(d) <==> IsForm(d)
  {
    hide SameName;
    FindsFirst(d, CONTENT_TYPE);
    if SaysForm(d) {
      var i :| 0 <= i < |d| && FirstUnder(d, CONTENT_TYPE, i) && URL_ENCODED <= d[i].1;
      if Find(d, CONTENT_TYPE).Some? {
        var j :| 0 <= j < |d| && FirstUnder(d, CONTENT_TYPE, j) && d[j].1 == Find(d, CONTENT_TYPE).value;
        assert i == j by {
          assert !(i < j) && !(j < i);
        }
      }
    }
  }

  predicate AllFit(ps: Dict) { forall i :: 0 <= i < |ps| ==> PairFits(ps[i]) }

  /** A form sent with its fields in the query string, in the content, or both, arrives with
      exactly these fields; content that is not announced as a form adds none. */
  lemma FormArrives(g: Config, r: Request, keepAlive: bool, inLine: Dict, inBody: Dict, rest: bytes)
    requires g.isRequest && RequestOk(r) && |r.body| <= g.maxContent && AllFit(inLine) && AllFit(inBody)
    requires r.query == MakeQuery(inLine) && (if SaysForm(r.headers) then r.body == MakeQuery(inBody) else inBody == [])
    ensures var t := Run(g, NewParser(g, EMPTY_MESSAGE), Print(r, keepAlive) + rest);
            t.verdict == Done && t.rest == rest && DecodeAll(t.p.msg.queryParams) == inLine + inBody
  {
    hide Run, Print, RequestOk, ParseQuery, MakeQuery, PairFits, Prepared, HeadOf, AllCookies, Find, EncodeAll,
        DecodeAll, SaysForm;
    var d := Prepared(r, keepAlive);
    SaysFormExactly(r.headers);
    RoundTrip(g, r, keepAlive, rest);
    assert Take(r.body, g.maxContent) == r.body;
    QueryParses([], inLine);
    assert [] + EncodeAll(inLine) == EncodeAll(inLine);
    EmptyQuery(inLine);
    QueryParses(EncodeAll(inLine), inBody);
    SameForm(r, keepAlive);
    EncodeAllAppend(inLine, inBody);
    DecodeEncodeAll(inLine + inBody);
    EmptyQuery(inBody);
    assert inLine + [] == inLine;
  }

  lemma EmptyQuery(ps: Dict)
    ensures MakeQuery(ps) == [] <==> ps == []
    ensures ps == [] ==> EncodeAll(ps) == []
  {
  }

  /** Preparing the headers does not touch the content type. */
  lemma SameForm(r: Request, keepAlive: bool)
    ensures IsForm(Prepared(r, keepAlive)) == IsForm(r.headers)
  {
    hide Find, ChangeValue, Numeral, SameName;
    var connection := Str(if keepAlive then "Keep-Alive" else "close");
    ContentTypeDistinct();
    ChangedElsewhere(r.headers, CONNECTION, connection, CONTENT_TYPE);
    ChangedElsewhere(ChangeValue(r.headers, CONNECTION, connection), CONTENT_LENGTH, Numeral(|r.body|, 10),
        CONTENT_TYPE);
  }

  lemma ContentTypeDistinct()
    ensures !SameName(CONNECTION, CONTENT_TYPE) && !SameName(CONTENT_LENGTH, CONTENT_TYPE)
  {
    assert |CONNECTION| != |CONTENT_TYPE| && |CONTENT_LENGTH| != |CONTENT_TYPE|;
  }

  // ---------------------------------------------------------------- receive

  datatype Lifecycle = Close | KeepAlive | Pipelined

  /** A connection: the bytes saved from the last read buffer, which count only when the
      connection is pipelined, and the read buffers still to come.  A read that yields
      nothing is the end of the input. */
  datatype Connection = Connection(lifecycle: Lifecycle, saved: bytes, incoming: seq<bytes>)

  datatype Receipt = Received(p: Parser, c: Connection) | NotReceived

  /** checkKeepAlive */
  predicate KeepsAlive(h: Head) {
    (match Find(h.headers, CONNECTION) case Some(v) => v != Str("close") case None => true)
    && (h.major > 1 || (h.major >= 1 && h.minor >= 1))
  }

  /** The end of receive, for a complete message. */
  function Delivered(r: Result, incoming: seq<bytes>): Receipt {
    Received(r.p, if !KeepsAlive(r.p.head) then Connection(Close, [], incoming)
                  else if r.rest == [] then Connection(KeepAlive, [], incoming)
                  else Connection(Pipelined, r.rest, incoming))
  }

  /** checkPrematureEOF: a message may end with the connection only if its body has no
      known length; the connection is then closed. */
  function AtEof(g: Config, p: Parser): Receipt {
    if p.state.ContentNoLength?
    then Received(Complete(g, p.(msg := Joined(p.chunk, p.msg))).0, Connection(Close, [], []))
    else NotReceived
  }

  /** The loop of receive, with `buf` in the read buffer. */
  function ReceiveLoop(g: Config, p: Parser, buf: bytes, incoming: seq<bytes>): Receipt
    requires Ok(p)
    decreases |incoming|
  {
    var r := Run(g, p, buf);
    match r.verdict
    case Error => NotReceived
    case Done => Delivered(r, incoming)
    case More =>
      if incoming == [] || incoming[0] == [] then AtEof(g, r.p)
      else ReceiveLoop(g, r.p, incoming[0], incoming[1..])
  }

  /** receive: a new parser and an empty message for every call. */
  function Receive(g: Config, c: Connection): Receipt {
    var p := NewParser(g, EMPTY_MESSAGE);
    if c.lifecycle.Pipelined? then ReceiveLoop(g, p, c.saved, c.incoming)
    else if c.incoming == [] || c.incoming[0] == [] then NotReceived
    else ReceiveLoop(g, p, c.incoming[0], c.incoming[1..])
  }

  /** The bytes the next receive will see, now or later. */
  function Pending(c: Connection): bytes {
    (if c.lifecycle.Pipelined? then c.saved else []) + Concat(c.incoming)
  }

  predicate NonEmpty(buffers: seq<bytes>) { forall i :: 0 <= i < |buffers| ==> buffers[i] != [] }

  predicate Live(c: Connection) { NonEmpty(c.incoming) && (c.lifecycle.Pipelined? ==> c.saved != []) }

  /** However the bytes are cut into reads, receive returns the message that parsing all of
      them would find, and keeps the rest for the next one. */
  lemma {:induction false} LoopReceives(g: Config, p: Parser, buf: bytes, incoming: seq<bytes>)
    requires Ok(p) && NonEmpty(incoming)
    requires Run(g, p, buf + Concat(incoming)).verdict.Done?
    ensures var t := Run(g, p, buf + Concat(incoming));
            var out := ReceiveLoop(g, p, buf, incoming);
            && out.Received? && out.p == t.p
            && (KeepsAlive(t.p.head) ==> !out.c.lifecycle.Close? && Live(out.c) && Pending(out.c) == t.rest)
            && (!KeepsAlive(t.p.head) ==> out.c.lifecycle.Close?)
    decreases |incoming|
  {
    hide Run, KeepsAlive;
    RunSplits(g, p, buf, Concat(incoming));
    var r := Run(g, p, buf);
    if r.verdict.More? {
      if incoming == [] {
        RunNothing(g, r.p);
        assert false;
      } else {
        assert incoming[0] != [] && NonEmpty(incoming[1..]);
        LoopReceives(g, r.p, incoming[0], incoming[1..]);
      }
    } else if r.rest == [] {
      assert r.rest + Concat(incoming) == Concat(incoming);
      assert [] + Concat(incoming) == Concat(incoming);
    }
  }

  lemma ReceiveDelivers(g: Config, c: Connection)
    requires Live(c) && Run(g, NewParser(g, EMPTY_MESSAGE), Pending(c)).verdict.Done?
    ensures var t := Run(g, NewParser(g, EMPTY_MESSAGE), Pending(c));
            var out := Receive(g, c);
            && out.Received? && out.p == t.p
            && (KeepsAlive(t.p.head) ==> !out.c.lifecycle.Close? && Live(out.c) && Pending(out.c) == t.rest)
            && (!KeepsAlive(t.p.head) ==> out.c.lifecycle.Close?)
  {
    hide Run, KeepsAlive, ReceiveLoop, NonEmpty;
    var p := NewParser(g, EMPTY_MESSAGE);
    if c.lifecycle.Pipelined? {
      LoopReceives(g, p, c.saved, c.incoming);
    } else {
      assert [] + Concat(c.incoming) == Concat(c.incoming);
      if c.incoming == [] {
        RunNothing(g, p);
        assert false;
      } else {
        NonEmptyTail(c.incoming);
        LoopReceives(g, p, c.incoming[0], c.incoming[1..]);
      }
    }
  }

  lemma NonEmptyTail(buffers: seq<bytes>)
    requires NonEmpty(buffers) && buffers != []
    ensures buffers[0] != [] && NonEmpty(buffers[1..])
  {
  }

  // ---------------------------------------------------------------- pipelining

  /** Successive receives on one connection. */
  function ReceiveAll(g: Config, c: Connection, n: nat): Option<(seq<Parser>, Connection)>
    decreases n
  {
    if n == 0 then Some(([], c))
    else match Receive(g, c)
      case NotReceived => None
      case Received(p, c') =>
        match ReceiveAll(g, c', n - 1)
        case None => None
        case Some((ps, c'')) => Some(([p] + ps, c''))
  }

  function PrintAll(rs: seq<Request>): bytes {
    if rs == [] then [] else Print(rs[0], true) + PrintAll(rs[1..])
  }

  predicate Persistent(r: Request) { r.major > 1 || (r.major == 1 && r.minor >= 1) }

  lemma SentKeepsAlive(r: Request, h: Head)
    requires RequestOk(r) && Persistent(r) && HeadOf(h, r, Prepared(r, true))
    ensures KeepsAlive(h)
  {
    hide LineOk, FieldsOk, Prepared, Find;
    PreparedOk(r, true);
    assert |Str("Keep-Alive")| != |Str("close")|;
  }

  /** Pipelining: any list of persistent requests, sent one after the other over a
      connection that delivers the bytes in arbitrary non-empty pieces, is received as the
      same list of requests, and what was sent after them is still there. */
  lemma {:induction false} PipelineRoundTrip(g: Config, rs: seq<Request>, c: Connection, rest: bytes)
    requires g.isRequest && Live(c) && Pending(c) == PrintAll(rs) + rest
    requires forall i :: 0 <= i < |rs| ==> RequestOk(rs[i]) && Persistent(rs[i])
    ensures var out := ReceiveAll(g, c, |rs|);
            && out.Some? && |out.value.0| == |rs|
            && (forall i :: 0 <= i < |rs| ==> Recovered(g, out.value.0[i], rs[i], Prepared(rs[i], true)))
            && Live(out.value.1) && Pending(out.value.1) == rest
    decreases |rs|
  {
    hide Run, RequestOk, Recovered, Receive, Print, Prepared, Pending, Live, KeepsAlive;
    if rs == [] {
      assert PrintAll(rs) + rest == rest;
    } else {
      var r, more := rs[0], PrintAll(rs[1..]) + rest;
      assert Pending(c) == Print(r, true) + more;
      RoundTrip(g, r, true, more);
      ReceiveDelivers(g, c);
      var out := Receive(g, c);
      assert KeepsAlive(out.p.head) by { RecoveredHead(g, out.p, r); SentKeepsAlive(r, out.p.head); }
      PipelineRoundTrip(g, rs[1..], out.c, rest);
      var tail := ReceiveAll(g, out.c, |rs| - 1).value.0;
      forall i | 0 <= i < |rs|
        ensures Recovered(g, ([out.p] + tail)[i], rs[i], Prepared(rs[i], true))
      {
        if i > 0 {
          assert Recovered(g, tail[i - 1], rs[1..][i - 1], Prepared(rs[1..][i - 1], true));
        }
      }
    }
  }

  lemma RecoveredHead(g: Config, p: Parser, r: Request)
    requires Recovered(g, p, r, Prepared(r, true))
    ensures HeadOf(p.head, r, Prepared(r, true))
  {
  }
}
