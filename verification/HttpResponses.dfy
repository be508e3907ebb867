/** Responses as HTTPResponse and HTTPResponseWriter send them, and what the parser at the
    other end makes of each way of delimiting the body. */
module HttpResponses {
  import opened Wrappers
  import opened Bytes
  import opened HttpForms
  import opened HttpParser
  import opened HttpSegments
  import opened HttpPhases
  import opened HttpChunks
  import opened HttpPrint
  import opened HttpReceive

  datatype Response = Response(major: nat, minor: nat, code: nat, reason: bytes, headers: Dict)

  const CHUNKED: bytes := Str("chunked")

  /** updateFirstLine */
  function StatusLine(r: Response): bytes {
    [72, 84, 84, 80, 47] + Numeral(r.major, 10) + [46] + Numeral(r.minor, 10) + [SP] + Numeral(r.code, 10) + [SP]
        + r.reason
  }

  /** prepareHeadersForSend, with the content length `n` */
  function PreparedFor(r: Response, supportsChunks: bool, n: nat, keepAlive: bool, chunks: bool): Dict {
    var d := ChangeValue(r.headers, CONNECTION, Str(if keepAlive then "Keep-Alive" else "close"));
    if !chunks then ChangeValue(d, CONTENT_LENGTH, Numeral(n, 10))
    else if supportsChunks then ChangeValue(d, TRANSFER_ENCODING, CHUNKED)
    else d
  }

  function PrintStatusHead(r: Response, d: Dict): bytes { StatusLine(r) + CRLF + HeaderLines(d) + CRLF }

  /** The head a response writer puts before the payload. */
  function ResponseHead(r: Response, supportsChunks: bool, n: nat, keepAlive: bool, chunks: bool): bytes {
    PrintStatusHead(r, PreparedFor(r, supportsChunks, n, keepAlive, chunks))
  }

  // ---------------------------------------------------------------- reading the head

  predicate StatusOkay(r: Response) {
    && r.major < 0x1_0000 && r.minor < 0x1_0000 && r.code < 0x1_0000
    && NoControls(r.reason) && |r.reason| <= STATUS_MESSAGE_MAX
  }

  lemma ReadsCode(h: Head, n: nat)
    requires h.state.StatusCodeStart? && n < 0x1_0000
    ensures Reads(false, h, Numeral(n, 10) + [SP]) == Some(h.(code := n, reason := [], state := StatusMessage))
  {
    hide Reads, NumeralValue, Shift, Numeral;
    var s := Numeral(n, 10);
    DecimalDigits(n);
    NumeralRoundTrip(n, 10);
    var at := (t: bytes) => if t == [] || !Digits(t) then h else h.(code := Uint16(t), state := StatusCode);
    forall i | 0 <= i < |s|
      ensures HeadSwitch(false, at(s[..i]), s[i]) == HMore(at(s[..i] + [s[i]]))
    {
      var t, c := s[..i], s[i];
      assert Digits(t) && Digits(t + [c]) && IsDigit(c);
      if i == 0 {
        FirstDigit(c);
        assert t + [c] == [c];
      } else {
        ShiftDigit(t, c);
      }
    }
    ReadsMany(false, at, s);
    var h2 := h.(code := n, reason := [], state := StatusMessage);
    assert at(s) == h.(code := n, state := StatusCode);
    ReadsOne(false, at(s), SP, h2);
    ReadsTwo(false, h, s, at(s), [SP], h2);
  }

  lemma ReadsReason(h: Head, reason: bytes)
    requires h.state.StatusMessage? && h.reason == [] && NoControls(reason) && |reason| <= STATUS_MESSAGE_MAX
    ensures Reads(false, h, reason + CRLF) == Some(h.(reason := reason, state := HeaderStart))
  {
    hide Reads;
    var at := (t: bytes) => h.(reason := t);
    forall i | 0 <= i < |reason|
      ensures HeadSwitch(false, at(reason[..i]), reason[i]) == HMore(at(reason[..i] + [reason[i]]))
    {
      assert !IsControl(reason[i]);
    }
    ReadsMany(false, at, reason);
    var h1 := at(reason).(state := ExpectNewline);
    var h2 := at(reason).(state := HeaderStart);
    ReadsOne(false, at(reason), CR, h1);
    ReadsTwo(false, h, reason, at(reason), [CR], h1);
    ReadsOne(false, h1, LF, h2);
    ReadsTwo(false, h, reason + [CR], h1, [LF], h2);
    assert reason + CRLF == reason + [CR] + [LF];
  }

  function StatusRead(h: Head, r: Response): Head {
    h.(major := r.major, minor := r.minor, code := r.code, reason := r.reason, state := HeaderStart)
  }

  lemma ReadsStatusLine(h: Head, r: Response)
    requires h.state.VersionH? && StatusOkay(r)
    ensures Reads(false, h, StatusLine(r) + CRLF) == Some(StatusRead(h, r))
  {
    hide Reads, Numeral, NoControls;
    var a, b := [72, 84, 84, 80, 47], Numeral(r.major, 10) + [46];
    var c, d, e := Numeral(r.minor, 10), Numeral(r.code, 10) + [SP], r.reason + CRLF;
    var h1 := h.(state := MajorStart);
    var h2 := h1.(major := r.major, state := MinorStart);
    var h3 := h2.(minor := r.minor, state := Minor);
    var h4 := h3.(state := StatusCodeStart);
    var h5 := h4.(code := r.code, reason := [], state := StatusMessage);
    ReadsHttp(false, h);
    ReadsMajor(false, h1, r.major);
    ReadsTwo(false, h, a, h1, b, h2);
    ReadsMinor(false, h2, r.minor);
    ReadsTwo(false, h, a + b, h2, c, h3);
    ReadsOne(false, h3, SP, h4);
    ReadsTwo(false, h, a + b + c, h3, [SP], h4);
    ReadsCode(h4, r.code);
    ReadsTwo(false, h, a + b + c + [SP], h4, d, h5);
    ReadsReason(h5, r.reason);
    ReadsTwo(false, h, a + b + c + [SP] + d, h5, e, StatusRead(h, r));
    assert StatusLine(r) + CRLF == a + b + c + [SP] + d + e;
  }

  /** What parseHeaders has when it has read the head of `r` with headers `d`. */
  predicate StatusOf(h: Head, r: Response, d: Dict) {
    h.major == r.major && h.minor == r.minor && h.code == r.code && h.reason == r.reason && h.headers == d
  }

  /** parseHeaders consumes exactly a printed response head and recovers it. */
  lemma StatusHeadParses(g: Config, r: Response, d: Dict, rest: bytes)
    requires !g.isRequest && StatusOkay(r) && FieldsOk(d)
    ensures var t := HeadRun(g, NewParser(g, EMPTY_MESSAGE).head, PrintStatusHead(r, d) + rest);
            t.verdict == Done && t.n == |PrintStatusHead(r, d)| && StatusOf(t.h, r, d)
  {
    hide Reads, HeadRun, StatusOkay, FieldsOk, StatusLine, HeaderLines, HeadersRead;
    var h := NewParser(g, EMPTY_MESSAGE).head;
    var a, b := StatusLine(r) + CRLF, HeaderLines(d);
    var h1 := StatusRead(h, r);
    var h2 := HeadersRead(h1, d);
    ReadsStatusLine(h, r);
    ReadsHeaders(false, h1, d);
    ReadsTwo(false, h, a, h1, b, h2);
    HeadersReadFields(h1, d);
    ReadsRun(g, h, a + b, h2, []);
    assert h.(raw := []) == h;
    assert PrintStatusHead(r, d) + rest == (a + b) + (CRLF + rest);
    HeadRunSplits(g, h, a + b, CRLF + rest);
    EmptyLine(g, h2.(raw := Raw(g, [], a + b)), rest);
    assert [] + d == d;
  }

  // ---------------------------------------------------------------- the prepared headers

  /** A response that may carry a body and does not yet say how it is delimited. */
  predicate Undelimited(r: Response) {
    && StatusOkay(r) && FieldsOk(r.headers)
    && !(100 <= r.code <= 199) && r.code != 204 && r.code != 205 && r.code != 304
    && Find(r.headers, CONTENT_LENGTH).None? && Find(r.headers, TRANSFER_ENCODING).None?
  }

  lemma CodingField()
    ensures FieldOk((TRANSFER_ENCODING, CHUNKED)) && SameName(CHUNKED, Str("chunked"))
    ensures !SameName(TRANSFER_ENCODING, CONTENT_LENGTH)
  {
    assert Tokens(TRANSFER_ENCODING) by { Worded(TRANSFER_ENCODING); }
    assert NoControls(CHUNKED);
  }

  lemma CookieFieldDistinct()
    ensures !SameName(CONNECTION, SET_COOKIE) && !SameName(CONTENT_LENGTH, SET_COOKIE)
            && !SameName(TRANSFER_ENCODING, SET_COOKIE)
  {
    assert CONNECTION[0] == 67 && SET_COOKIE[0] == 83;
    assert |CONTENT_LENGTH| != |SET_COOKIE| && |TRANSFER_ENCODING| != |SET_COOKIE|;
  }

  lemma {:induction false} CookiesWithout(dict: Dict, d: Dict, key: bytes, name: bytes, setCookie: bool)
    requires !SameName(key, name)
    ensures AllCookies(dict, Without(d, key), name, setCookie) == AllCookies(dict, d, name, setCookie)
    decreases |d|
  {
    hide ParseCookie, SameName;
    if d != [] {
      var next := if SameName(d[0].0, name) then ParseCookie(dict, d[0].1, setCookie).0 else dict;
      CookiesWithout(next, d[1..], key, name, setCookie);
      if SameName(d[0].0, key) {
        if SameName(d[0].0, name) {
          SameTransitive(d[0].0, key, name);
        }
        assert Without(d, key) == Without(d[1..], key);
      } else {
        assert Without(d, key)[1..] == Without(d[1..], key);
      }
    }
  }

  /** Changing another header does not change the cookies. */
  lemma {:induction false} CookiesKept(dict: Dict, d: Dict, key: bytes, value: bytes, name: bytes, setCookie: bool)
    requires !SameName(key, name)
    ensures AllCookies(dict, ChangeValue(d, key, value), name, setCookie) == AllCookies(dict, d, name, setCookie)
    decreases |d|
  {
    hide ParseCookie, SameName;
    var r := ChangeValue(d, key, value);
    if d == [] {
      assert r[1..] == [];
    } else {
      var next := if SameName(d[0].0, name) then ParseCookie(dict, d[0].1, setCookie).0 else dict;
      if SameName(d[0].0, key) {
        if SameName(d[0].0, name) {
          SameTransitive(d[0].0, key, name);
        }
        CookiesWithout(next, d[1..], key, name, setCookie);
        assert r[1..] == Without(d[1..], key);
      } else {
        CookiesKept(next, d[1..], key, value, name, setCookie);
        assert r[1..] == ChangeValue(d[1..], key, value);
      }
    }
  }

  lemma {:induction false} CookiesAppend(dict: Dict, a: Dict, b: Dict, name: bytes, setCookie: bool)
    ensures AllCookies(dict, a + b, name, setCookie)
            == AllCookies(AllCookies(dict, a, name, setCookie), b, name, setCookie)
    decreases |a|
  {
    hide ParseCookie, SameName;
    if a == [] {
      assert a + b == b;
    } else {
      assert (a + b)[0] == a[0] && (a + b)[1..] == a[1..] + b;
      CookiesAppend(if SameName(a[0].0, name) then ParseCookie(dict, a[0].1, setCookie).0
          else dict, a[1..], b, name, setCookie);
    }
  }

  /** setCookie: the header added to a response gives the client exactly one more cookie. */
  lemma SetCookieAdds(headers: Dict, name: bytes, value: bytes, path: bytes, hasMaxAge: bool, maxAge: nat)
    requires CookieName(name) && !IsCookieAttribute(name, true)
    requires CookieValue(value) && CookieValue(path) && maxAge <= SIZE_MAX
    ensures AllCookies([], headers + [(SET_COOKIE, MakeSetCookie(name, value, path, hasMaxAge, maxAge))], SET_COOKIE,
            true)
            == AllCookies([], headers, SET_COOKIE, true) + [(name, value)]
  {
    hide ParseCookie, CookieName, CookieValue, IsCookieAttribute, MakeSetCookie;
    var added: Dict := [(SET_COOKIE, MakeSetCookie(name, value, path, hasMaxAge, maxAge))];
    CookiesAppend([], headers, added, SET_COOKIE, true);
    SetCookieRoundTrip(AllCookies([], headers, SET_COOKIE, true), name, value, path, hasMaxAge, maxAge);
    assert added[1..] == [];
  }

  lemma PreparedForOk(r: Response, supportsChunks: bool, n: nat, keepAlive: bool, chunks: bool)
    requires Undelimited(r) && n <= SIZE_MAX
    ensures var d := PreparedFor(r, supportsChunks, n, keepAlive, chunks);
            && FieldsOk(d)
            && Find(d, CONTENT_LENGTH) == (if chunks then None else Some(Numeral(n, 10)))
            && Find(d, TRANSFER_ENCODING) == (if chunks && supportsChunks then Some(CHUNKED) else None)
            && AllCookies([], d, SET_COOKIE, true) == AllCookies([], r.headers, SET_COOKIE, true)
  {
    hide AllCookies, FieldsOk, FieldOk, ChangeValue, Find, Numeral, SameName, StatusOkay;
    LengthField(n);
    ConnectionField(keepAlive);
    DistinctFields();
    CodingField();
    var connection := Str(if keepAlive then "Keep-Alive" else "close");
    var d1 := ChangeValue(r.headers, CONNECTION, connection);
    var length := Numeral(n, 10);
    CookieFieldDistinct();
    CookiesKept([], r.headers, CONNECTION, connection, SET_COOKIE, true);
    ChangeValueOk(r.headers, CONNECTION, connection);
    ChangedElsewhere(r.headers, CONNECTION, connection, TRANSFER_ENCODING);
    ChangedElsewhere(r.headers, CONNECTION, connection, CONTENT_LENGTH);
    if !chunks {
      CookiesKept([], d1, CONTENT_LENGTH, length, SET_COOKIE, true);
      ChangeValueOk(d1, CONTENT_LENGTH, length);
      ChangedFound(d1, CONTENT_LENGTH, length);
      ChangedElsewhere(d1, CONTENT_LENGTH, length, TRANSFER_ENCODING);
    } else if supportsChunks {
      CookiesKept([], d1, TRANSFER_ENCODING, CHUNKED, SET_COOKIE, true);
      ChangeValueOk(d1, TRANSFER_ENCODING, CHUNKED);
      ChangedFound(d1, TRANSFER_ENCODING, CHUNKED);
      ChangedElsewhere(d1, TRANSFER_ENCODING, CHUNKED, CONTENT_LENGTH);
    }
  }

  // ---------------------------------------------------------------- reading the body

  /** How the parser expects the body, after a head that says so. */
  lemma BodyExpected(g: Config, h: Head, m: Message, r: Response, d: Dict)
    requires !g.isRequest && Undelimited(r) && StatusOf(h, r, d) && m.requestMethod == []
    ensures var m' := HeadMessage(g, h, m);
            && m'.missing == m.missing && m'.code == r.code && m'.reason == r.reason
            && m'.cookies == AllCookies(m.cookies, d, SET_COOKIE, true)
            && (Find(d, TRANSFER_ENCODING) == Some(CHUNKED) ==> BodyOf(g, h, m') == Chunked)
            && (Find(d, TRANSFER_ENCODING).None? ==>
                  match Find(d, CONTENT_LENGTH)
                  case None => BodyOf(g, h, m') == ToEof
                  case Some(v) => ParseSize(Trim(v)).Some? ==>
                                    var n := ParseSize(Trim(v)).value; BodyOf(g, h, m') == if n == 0 then NoBody
                                        else Sized(n))
  {
    hide Find, ParseSize, Trim, SameName, StatusOkay, FieldsOk, AllCookies;
    CodingField();
    assert |Str("HEAD")| == 4;
  }

  /** The parser between the head of a response and its body. */
  lemma HeadReceived(g: Config, r: Response, supportsChunks: bool, n: nat, keepAlive: bool, chunks: bool,
      payload: bytes)
    returns (q: Parser)
    requires !g.isRequest && Undelimited(r) && n <= SIZE_MAX
    ensures Ok(q) && q.state.Headers? && !q.msg.missing && q.msg.requestMethod == [] && q.msg.cookies == []
    ensures q.chunk == NewParser(g, EMPTY_MESSAGE).chunk
    ensures StatusOf(q.head, r, PreparedFor(r, supportsChunks, n, keepAlive, chunks))
    ensures Run(g, NewParser(g, EMPTY_MESSAGE), ResponseHead(r, supportsChunks, n, keepAlive, chunks) + payload)
            == var (p, v) := HeadersComplete(g, q); if v.More? then Run(g, p, payload) else Result(p, payload, v)
  {
    hide Run, HeadRun, HeadersComplete, PreparedFor, StatusOf, Find;
    var p, d := NewParser(g, EMPTY_MESSAGE), PreparedFor(r, supportsChunks, n, keepAlive, chunks);
    PreparedForOk(r, supportsChunks, n, keepAlive, chunks);
    StatusHeadParses(g, r, d, payload);
    var head := PrintStatusHead(r, d);
    var s := head + payload;
    assert s != [] by { assert |CRLF| == 2; }
    StartIsHeaders(g, p, s);
    var p1 := p.(state := Headers);
    RunIsHeadRun(g, p1, s);
    var t := HeadRun(g, p1.head, s);
    assert s[t.n..] == payload;
    q := p1.(head := t.h, used := t.n);
  }

  /** A complete response: its status, its cookies and as much of its body as allowed. */
  predicate Arrived(g: Config, p: Parser, r: Response, body: bytes) {
    && p.state.End? && p.msg.isValid && p.msg.code == r.code && p.msg.reason == r.reason
    && p.msg.cookies == AllCookies([], r.headers, SET_COOKIE, true)
    && p.msg.content == Take(body, g.maxContent) && p.msg.contentLength == |p.msg.content|
  }

  /** A response sent with its content length. */
  lemma SizedArrives(g: Config, r: Response, supportsChunks: bool, keepAlive: bool, body: bytes, rest: bytes)
    requires !g.isRequest && Undelimited(r) && |body| <= SIZE_MAX
    ensures var t := Run(g, NewParser(g, EMPTY_MESSAGE),
            ResponseHead(r, supportsChunks, |body|, keepAlive, false) + body + rest);
            t.verdict == Done && t.rest == rest && Arrived(g, t.p, r, body)
  {
    hide Run, HeadMessage, BodyOf, PreparedFor, Find, Finished, Undelimited, ResponseHead, StatusOf, ParseSize, Trim,
        Numeral;
    var head := ResponseHead(r, supportsChunks, |body|, keepAlive, false);
    assert head + body + rest == head + (body + rest);
    var q := HeadReceived(g, r, supportsChunks, |body|, keepAlive, false, body + rest);
    var d := PreparedFor(r, supportsChunks, |body|, keepAlive, false);
    PreparedForOk(r, supportsChunks, |body|, keepAlive, false);
    BodyExpected(g, q.head, q.msg, r, d);
    LengthUnderstood(|body|);
    var m := HeadMessage(g, q.head, q.msg);
    var (p, v) := HeadersComplete(g, q);
    if body == [] {
      assert body + rest == rest;
      NoBodyLength(g, q.head, q.msg);
      var m0 := m.(content := []);
      FinishedContent(g, q.head, m0);
      FinishedValid(g, q.head, m0);
    } else {
      FullContent(g, p, body, rest);
      var filled := Filled(p, body);
      assert Overwrite(p.msg.content, 0, body) == Take(body, g.maxContent);
      FinishedContent(g, filled.head, filled.msg);
      FinishedValid(g, filled.head, filled.msg);
    }
  }

  lemma NoBodyLength(g: Config, h: Head, m: Message)
    ensures HeadMessage(g, h, m).contentLength == 0
  {
  }

  /** A response sent in chunks. */
  lemma ChunkedArrives(g: Config, r: Response, n: nat, keepAlive: bool, pieces: seq<bytes>, rest: bytes)
    requires !g.isRequest && Undelimited(r) && n <= SIZE_MAX && Sendable(pieces)
    ensures var t := Run(g, NewParser(g, EMPTY_MESSAGE),
            ResponseHead(r, true, n, keepAlive, true) + Framed(pieces) + rest);
            t.verdict == Done && t.rest == rest && Arrived(g, t.p, r, Concat(pieces))
  {
    hide Run, HeadMessage, BodyOf, PreparedFor, Find, Finished, Undelimited, ResponseHead, StatusOf, ParseSize, Trim,
        Framed;
    var head := ResponseHead(r, true, n, keepAlive, true);
    assert head + Framed(pieces) + rest == head + (Framed(pieces) + rest);
    var q := HeadReceived(g, r, true, n, keepAlive, true, Framed(pieces) + rest);
    PreparedForOk(r, true, n, keepAlive, true);
    BodyExpected(g, q.head, q.msg, r, PreparedFor(r, true, n, keepAlive, true));
    var (p, v) := HeadersComplete(g, q);
    ChunkedBody(g, p, pieces, rest);
  }

  /** A response to a client without chunk support: the end of the connection ends it. */
  lemma UnframedArrives(g: Config, r: Response, n: nat, keepAlive: bool, body: bytes)
    requires !g.isRequest && Undelimited(r) && n <= SIZE_MAX
    ensures var t := Run(g, NewParser(g, EMPTY_MESSAGE), ResponseHead(r, false, n, keepAlive, true) + body);
            && t.verdict == More && AtEof(g, t.p).Received? && Arrived(g, AtEof(g, t.p).p, r, body)
  {
    hide Run, HeadMessage, BodyOf, PreparedFor, Find, Finished, Undelimited, ResponseHead, StatusOf, ParseSize, Trim,
        Take;
    var q := HeadReceived(g, r, false, n, keepAlive, true, body);
    PreparedForOk(r, false, n, keepAlive, true);
    BodyExpected(g, q.head, q.msg, r, PreparedFor(r, false, n, keepAlive, true));
    var (p, v) := HeadersComplete(g, q);
    UnboundedContent(g, p, body);
    assert [] + body == body;
    var m := Joined(Run(g, p, body).p.chunk, p.msg);
    FinishedContent(g, p.head, m);
    FinishedValid(g, p.head, m);
  }
}
