/** How the headers say where a message ends: what the parser makes of any printable header
    list, not only of those that the senders prepare. */
module HttpEndings {
  import opened Wrappers
  import opened Bytes
  import opened HttpForms
  import opened HttpParser
  import opened HttpSegments
  import opened HttpPhases
  import opened HttpChunks
  import opened HttpPrint
  import opened HttpReceive
  import opened HttpResponses

  // ---------------------------------------------------------------- what a length says

  predicate Blank(s: bytes) { forall i :: 0 <= i < |s| ==> IsSpace(s[i]) }

  /** The text is a number that fits, in digits, with white space around it. */
  ghost predicate Denotes(text: bytes, n: nat) {
    exists a, ds, b :: text == a + ds + b && Blank(a) && Blank(b) && IsNumber(ds, n)
  }

  predicate IsNumber(ds: bytes, n: nat) { ds != [] && Digits(ds) && NumeralValue(ds, 10) == n <= SIZE_MAX }

  lemma {:induction false} TrimLeft(a: bytes, s: bytes)
    requires Blank(a)
    ensures Trim(a + s) == Trim(s)
    decreases |a|
  {
    if a == [] {
      assert a + s == s;
    } else {
      assert IsSpace((a + s)[0]) && (a + s)[1..] == a[1..] + s;
      TrimLeft(a[1..], s);
    }
  }

  lemma {:induction false} TrimRight(s: bytes, b: bytes)
    requires Blank(b) && s != [] && !IsSpace(s[0])
    ensures Trim(s + b) == Trim(s)
    decreases |b|
  {
    if b == [] {
      assert s + b == s;
    } else {
      var t := s + b;
      assert t[0] == s[0] && IsSpace(t[|t| - 1]) && t[..|t| - 1] == s + b[..|b| - 1];
      TrimRight(s, b[..|b| - 1]);
    }
  }

  lemma {:induction false} TrimTakesBlanks(s: bytes) returns (a: bytes, b: bytes)
    ensures s == a + Trim(s) + b && Blank(a) && Blank(b)
    decreases |s|
  {
    a, b := [], [];
    if s != [] && IsSpace(s[0]) {
      a, b := TrimTakesBlanks(s[1..]);
      assert s == [s[0]] + s[1..];
      assert [s[0]] + (a + Trim(s[1..]) + b) == ([s[0]] + a) + Trim(s[1..]) + b;
      a := [s[0]] + a;
    } else if s != [] && IsSpace(s[|s| - 1]) {
      var n := |s| - 1;
      a, b := TrimTakesBlanks(s[..n]);
      assert s == s[..n] + [s[n]];
      assert (a + Trim(s[..n]) + b) + [s[n]] == a + Trim(s[..n]) + (b + [s[n]]);
      b := b + [s[n]];
    } else {
      assert s == [] + s + [];
    }
  }

  lemma DigitsNotBlank(ds: bytes)
    requires Digits(ds)
    ensures forall i :: 0 <= i < |ds| ==> !IsSpace(ds[i])
  {
  }

  /** A Content-Length is understood if and only if it denotes a number. */
  lemma LengthReads(text: bytes, n: nat)
    ensures ParseSize(Trim(text)) == Some(n) <==> Denotes(text, n)
  {
    hide Trim, NumeralValue;
    if ParseSize(Trim(text)) == Some(n) {
      var a, b := TrimTakesBlanks(text);
      assert IsNumber(Trim(text), n);
    }
    if Denotes(text, n) {
      var a, ds, b :| text == a + ds + b && Blank(a) && Blank(b) && IsNumber(ds, n);
      assert text == a + (ds + b);
      TrimLeft(a, ds + b);
      DigitsNotBlank(ds);
      TrimRight(ds, b);
      DigitsTrimmed(ds);
    }
  }

  /** The headers say that the body is chunked. */
  predicate Chunky(d: Dict) {
    var coding := Find(d, TRANSFER_ENCODING);
    coding.Some? && SameName(coding.value, Str("chunked"))
  }

  // ---------------------------------------------------------------- requests

  /** The parser between the printed head of a request and whatever follows. */
  lemma RequestHead(g: Config, r: Request, d: Dict, after: bytes) returns (q: Parser)
    requires g.isRequest && LineOk(r) && FieldsOk(d)
    ensures q == NewParser(g, EMPTY_MESSAGE).(state := Headers, head := q.head, used := |PrintHead(r, d)|)
    ensures HeadOf(q.head, r, d)
    ensures Run(g, NewParser(g, EMPTY_MESSAGE), PrintHead(r, d) + after)
            == var (p, v) := HeadersComplete(g, q); if v.More? then Run(g, p, after) else Result(p, after, v)
  {
    hide Run, HeadRun, HeadersComplete, PrintHead, LineOk, FieldsOk, HeadOf;
    var p := NewParser(g, EMPTY_MESSAGE);
    var s := PrintHead(r, d) + after;
    HeadParses(g, r, d, after);
    HeadNotEmpty(r, d);
    StartIsHeaders(g, p, s);
    var p1 := p.(state := Headers);
    RunIsHeadRun(g, p1, s);
    var t := HeadRun(g, p1.head, s);
    assert s[t.n..] == after;
    q := p1.(head := t.h, used := t.n);
  }

  /** What the headers of a request say about its body. */
  lemma RequestBody(g: Config, h: Head, r: Request, d: Dict)
    requires g.isRequest && HeadOf(h, r, d)
    ensures var m := HeadMessage(g, h, EMPTY_MESSAGE);
            && m.contentLength == 0 && !m.missing && m.isChunked == Chunky(d)
            && m.verb == r.verb && m.resource == r.resource && m.query == r.query
            && BodyOf(g, h, m) == if Chunky(d) then Chunked
                                  else match Find(d, CONTENT_LENGTH)
                                    case None => NoBody
                                    case Some(v) =>
                                      match ParseSize(Trim(v))
                                      case None => BadLength
                                      case Some(n) => if n == 0 then NoBody else Sized(n)
  {
    hide AllCookies, ParseQuery, Find, ParseSize, Trim, SameName;
  }

  /** A complete request with this content. */
  predicate RequestDone(p: Parser, r: Request, d: Dict, content: bytes) {
    && HeadOf(p.head, r, d) && p.state.End? && p.msg.isValid
    && p.msg.verb == r.verb && p.msg.resource == r.resource && p.msg.query == r.query && p.msg.content == content
  }

  lemma NoBodyDone(g: Config, q: Parser, m: Message, r: Request, d: Dict)
    requires HeadOf(q.head, r, d) && m.verb == r.verb && m.resource == r.resource && m.query == r.query
    ensures var (p, v) := Complete(g, q.(remaining := 0, got := 0, msg := m.(content := [])));
            v == Done && RequestDone(p, r, d, [])
  {
    hide Finished, HeadOf;
    FinishedContent(g, q.head, m.(content := []));
    FinishedValid(g, q.head, m.(content := []));
  }

  /** A request without Content-Length and without chunks ends with its head: whatever
      follows is left over, and its content is empty. */
  lemma BareRequestEnds(g: Config, r: Request, d: Dict, rest: bytes)
    requires g.isRequest && LineOk(r) && FieldsOk(d) && Find(d, CONTENT_LENGTH).None? && !Chunky(d)
    ensures var t := Run(g, NewParser(g, EMPTY_MESSAGE), PrintHead(r, d) + rest);
            t.verdict == Done && t.rest == rest && RequestDone(t.p, r, d, [])
  {
    hide Run, BodyOf, HeadMessage, Complete, HeadOf, LineOk, FieldsOk, PrintHead, Find, Chunky, RequestDone;
    var q := RequestHead(g, r, d, rest);
    RequestBody(g, q.head, r, d);
    NoBodyDone(g, q, HeadMessage(g, q.head, q.msg), r, d);
  }

  /** A request whose Content-Length denotes `n` takes exactly `n` bytes after its head; as
      many of them are kept as max_content_length allows. */
  lemma SizedRequestEnds(g: Config, r: Request, d: Dict, v: bytes, body: bytes, rest: bytes)
    requires g.isRequest && LineOk(r) && FieldsOk(d) && Find(d, CONTENT_LENGTH) == Some(v) && !Chunky(d)
    requires Denotes(v, |body|)
    ensures var t := Run(g, NewParser(g, EMPTY_MESSAGE), PrintHead(r, d) + (body + rest));
            t.verdict == Done && t.rest == rest && RequestDone(t.p, r, d, Take(body, g.maxContent))
  {
    hide Run, BodyOf, HeadMessage, HeadOf, LineOk, FieldsOk, PrintHead, Find, Chunky, Finished, ParseSize, Trim,
        Denotes;
    var q := RequestHead(g, r, d, body + rest);
    RequestBody(g, q.head, r, d);
    LengthReads(v, |body|);
    var m := HeadMessage(g, q.head, q.msg);
    if body == [] {
      NoBodyDone(g, q, m, r, d);
      assert body + rest == rest;
    } else {
      var p := HeadersComplete(g, q).0;
      FullContent(g, p, body, rest);
      var filled := Filled(p, body);
      assert Overwrite(p.msg.content, 0, body) == Take(body, g.maxContent);
      FinishedContent(g, filled.head, filled.msg);
      FinishedValid(g, filled.head, filled.msg);
    }
  }

  /** A request whose Content-Length denotes no number is rejected. */
  lemma BadLengthFails(g: Config, r: Request, d: Dict, v: bytes, after: bytes)
    requires g.isRequest && LineOk(r) && FieldsOk(d) && Find(d, CONTENT_LENGTH) == Some(v) && !Chunky(d)
    requires forall n :: !Denotes(v, n)
    ensures var t := Run(g, NewParser(g, EMPTY_MESSAGE), PrintHead(r, d) + after);
            t.verdict == Error && t.rest == after && !t.p.msg.isValid
  {
    hide Run, BodyOf, HeadOf, LineOk, FieldsOk, PrintHead, Find, Chunky, ParseSize, Trim, Denotes, AllCookies,
        ParseQuery;
    var q := RequestHead(g, r, d, after);
    RequestBody(g, q.head, r, d);
    if ParseSize(Trim(v)).Some? {
      LengthReads(v, ParseSize(Trim(v)).value);
    }
  }

  /** A request whose headers say chunked is read to its final chunk, whatever Content-Length
      says. */
  lemma ChunkedRequestEnds(g: Config, r: Request, d: Dict, pieces: seq<bytes>, rest: bytes)
    requires g.isRequest && LineOk(r) && FieldsOk(d) && Chunky(d) && Sendable(pieces)
    ensures var t := Run(g, NewParser(g, EMPTY_MESSAGE), PrintHead(r, d) + (Framed(pieces) + rest));
            t.verdict == Done && t.rest == rest && HeadOf(t.p.head, r, d) && t.p.state.End?
            && t.p.msg.isValid && t.p.msg.content == Take(Concat(pieces), g.maxContent)
  {
    hide Run, BodyOf, HeadMessage, HeadOf, LineOk, FieldsOk, PrintHead, Find, Chunky, Finished, Framed, Take;
    var q := RequestHead(g, r, d, Framed(pieces) + rest);
    RequestBody(g, q.head, r, d);
    var p := HeadersComplete(g, q).0;
    ChunkedBody(g, p, pieces, rest);
  }

  // ---------------------------------------------------------------- responses

  /** Responses that never have a body: answers to HEAD, and some status codes. */
  predicate Bodiless(verb: bytes, code: nat) {
    verb == Str("HEAD") || 100 <= code <= 199 || code == 204 || code == 205 || code == 304
  }

  /** A parser for the answer to a request with this method. */
  function AnswerTo(g: Config, verb: bytes): Parser { NewParser(g, EMPTY_MESSAGE.(requestMethod := verb)) }

  lemma ResponseHeadRead(g: Config, verb: bytes, r: Response, d: Dict, after: bytes) returns (q: Parser)
    requires !g.isRequest && StatusOkay(r) && FieldsOk(d)
    ensures q == AnswerTo(g, verb).(state := Headers, head := q.head, used := |PrintStatusHead(r, d)|)
    ensures StatusOf(q.head, r, d)
    ensures Run(g, AnswerTo(g, verb), PrintStatusHead(r, d) + after)
            == var (p, v) := HeadersComplete(g, q); if v.More? then Run(g, p, after) else Result(p, after, v)
  {
    hide Run, HeadRun, HeadersComplete, StatusOkay, FieldsOk, StatusOf, PrintStatusHead;
    var p := AnswerTo(g, verb);
    var s := PrintStatusHead(r, d) + after;
    StatusHeadParses(g, r, d, after);
    assert s != [] by { StatusHeadNotEmpty(r, d); }
    StartIsHeaders(g, p, s);
    var p1 := p.(state := Headers);
    RunIsHeadRun(g, p1, s);
    var t := HeadRun(g, p1.head, s);
    assert s[t.n..] == after;
    q := p1.(head := t.h, used := t.n);
  }

  lemma StatusHeadNotEmpty(r: Response, d: Dict)
    ensures PrintStatusHead(r, d) != []
  {
    assert |CRLF| == 2;
  }

  lemma ResponseBody(g: Config, h: Head, verb: bytes, r: Response, d: Dict)
    requires !g.isRequest && StatusOf(h, r, d)
    ensures var m := HeadMessage(g, h, EMPTY_MESSAGE.(requestMethod := verb));
            && m.contentLength == 0 && !m.missing && m.code == r.code && m.reason == r.reason
            && BodyOf(g, h, m) == if Chunky(d) then Chunked
                                  else if Bodiless(verb, r.code) then NoBody
                                  else match Find(d, CONTENT_LENGTH)
                                    case None => ToEof
                                    case Some(v) =>
                                      match ParseSize(Trim(v))
                                      case None => BadLength
                                      case Some(n) => if n == 0 then NoBody else Sized(n)
  {
    hide AllCookies, Find, ParseSize, Trim, SameName;
  }

  /** A response that never has a body ends with its head, whatever Content-Length says... */
  lemma BodilessEnds(g: Config, verb: bytes, r: Response, d: Dict, rest: bytes)
    requires !g.isRequest && StatusOkay(r) && FieldsOk(d) && Bodiless(verb, r.code) && !Chunky(d)
    ensures var t := Run(g, AnswerTo(g, verb), PrintStatusHead(r, d) + rest);
            && t.verdict == Done && t.rest == rest && t.p.state.End? && t.p.msg.isValid
            && t.p.msg.code == r.code && t.p.msg.reason == r.reason && t.p.msg.content == []
  {
    hide Run, BodyOf, HeadMessage, Finished, StatusOkay, FieldsOk, StatusOf, PrintStatusHead, Find, Chunky, Bodiless;
    var q := ResponseHeadRead(g, verb, r, d, rest);
    ResponseBody(g, q.head, verb, r, d);
    var m := HeadMessage(g, q.head, q.msg).(content := []);
    FinishedContent(g, q.head, m);
    FinishedValid(g, q.head, m);
  }

  /** ... but if its headers say chunked, the parser waits for chunks that never come. */
  lemma BodilessChunkedWaits(g: Config, verb: bytes, r: Response, d: Dict)
    requires !g.isRequest && StatusOkay(r) && FieldsOk(d) && Chunky(d)
    ensures var t := Run(g, AnswerTo(g, verb), PrintStatusHead(r, d));
            t.verdict == More && t.p.state.Chunks?
  {
    hide Run, BodyOf, HeadMessage, StatusOkay, FieldsOk, StatusOf, PrintStatusHead, Find, Chunky, Bodiless;
    var q := ResponseHeadRead(g, verb, r, d, []);
    assert PrintStatusHead(r, d) + [] == PrintStatusHead(r, d);
    ResponseBody(g, q.head, verb, r, d);
    RunNothing(g, HeadersComplete(g, q).0);
  }
}
