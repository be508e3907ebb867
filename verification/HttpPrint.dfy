/** What HTTPRequest and HTTPMessage send, and parseHeaders reading it back. */
module HttpPrint {
  import opened Wrappers
  import opened Bytes
  import opened HttpParser
  import opened HttpPhases

  /** A request as its sender holds it. */
  datatype Request = Request(verb: bytes, resource: bytes, query: bytes, major: nat, minor: nat, headers: Dict,
      body: bytes)

  const CONNECTION: bytes := Str("Connection")

  /** prepareHeadersForSend, without chunks */
  function Prepared(r: Request, keepAlive: bool): Dict {
    ChangeValue(ChangeValue(r.headers, CONNECTION, Str(if keepAlive then "Keep-Alive" else "close")),
                CONTENT_LENGTH, Numeral(|r.body|, 10))
  }

  /** updateFirstLine */
  function FirstLine(r: Request): bytes {
    r.verb + [SP] + r.resource + (if r.query != [] then [63] + r.query else []) + [SP]
    + [72, 84, 84, 80, 47] + Numeral(r.major, 10) + [46] + Numeral(r.minor, 10)
  }

  function HeaderLine(name: bytes, value: bytes): bytes { name + [58, SP] + value + CRLF }

  function HeaderLines(d: Dict): bytes {
    if d == [] then [] else HeaderLine(d[0].0, d[0].1) + HeaderLines(d[1..])
  }

  function PrintHead(r: Request, d: Dict): bytes { FirstLine(r) + CRLF + HeaderLines(d) + CRLF }

  /** The bytes of a request on the wire. */
  function Print(r: Request, keepAlive: bool): bytes { PrintHead(r, Prepared(r, keepAlive)) + r.body }

  lemma {:induction false} ConcatAppend(xs: seq<bytes>, ys: seq<bytes>)
    ensures Concat(xs + ys) == Concat(xs) + Concat(ys)
  {
    if xs == [] {
      assert xs + ys == ys;
    } else {
      assert (xs + ys)[1..] == xs[1..] + ys;
      ConcatAppend(xs[1..], ys);
    }
  }

  lemma ConcatFour(a: bytes, b: bytes, c: bytes, d: bytes)
    ensures Concat([a, b, c, d]) == a + b + c + d
  {
    assert [a, b, c, d][1..] == [b, c, d] && [b, c, d][1..] == [c, d] && [c, d][1..] == [d] && [d][1..] == [];
    assert Concat([d]) == d + Concat([]);
    assert Concat([c, d]) == c + d;
    assert Concat([b, c, d]) == b + (c + d);
    assert a + (b + (c + d)) == a + b + c + d;
  }

  /** send: the write buffers, filled as prepareBuffersForSend and appendHeaders do. */
  method Send(r: Request, keepAlive: bool) returns (buffers: seq<bytes>)
    ensures Concat(buffers) == Print(r, keepAlive)
  {
    hide ChangeValue, FirstLine, Numeral;
    var headers := Prepared(r, keepAlive);
    buffers := [FirstLine(r), CRLF];
    ghost var start := FirstLine(r) + CRLF;
    assert Concat(buffers) == start by {
      assert buffers[1..] == [CRLF] && [CRLF][1..] == [];
      assert Concat([CRLF]) == CRLF;
    }
    for i := 0 to |headers|
      invariant Concat(buffers) + HeaderLines(headers[i..]) == start + HeaderLines(headers)
    {
      var (name, value) := headers[i];
      ghost var before := Concat(buffers);
      assert headers[i..][1..] == headers[i + 1..];
      ConcatAppend(buffers, [name, [58, SP], value, CRLF]);
      ConcatFour(name, [58, SP], value, CRLF);
      assert before + (HeaderLine(name, value) + HeaderLines(headers[i + 1..]))
             == before + HeaderLine(name, value) + HeaderLines(headers[i + 1..]);
      buffers := buffers + [name, [58, SP], value, CRLF];
    }
    assert Concat(buffers) == start + HeaderLines(headers);
    ConcatAppend(buffers, [CRLF]);
    assert Concat([CRLF]) == CRLF by { assert [CRLF][1..] == []; }
    buffers := buffers + [CRLF];
    if |r.body| > 0 {
      ConcatAppend(buffers, [r.body]);
      assert Concat([r.body]) == r.body by { assert [r.body][1..] == []; }
      buffers := buffers + [r.body];
    }
  }

  // ---------------------------------------------------------------- reading with the header switch

  /** The header switch on a run of bytes that only makes progress. */
  function Reads(isRequest: bool, h: Head, s: bytes): Option<Head>
    decreases |s|
  {
    if s == [] then Some(h)
    else match HeadSwitch(isRequest, h, s[0])
      case HMore(h') => Reads(isRequest, h', s[1..])
      case _ => None
  }

  lemma {:induction false} ReadsSplit(isRequest: bool, h: Head, a: bytes, b: bytes)
    ensures Reads(isRequest, h, a + b) == match Reads(isRequest, h, a)
                                          case Some(h') => Reads(isRequest, h', b)
                                          case None => None
    decreases |a|
  {
    hide HeadSwitch;
    if a == [] {
      assert a + b == b;
    } else {
      assert (a + b)[0] == a[0] && (a + b)[1..] == a[1..] + b;
      match HeadSwitch(isRequest, h, a[0])
      case HMore(h') => ReadsSplit(isRequest, h', a[1..], b);
      case _ =>
    }
  }

  /** One part after another. */
  lemma ReadsTwo(isRequest: bool, h: Head, a: bytes, h1: Head, b: bytes, h2: Head)
    requires Reads(isRequest, h, a) == Some(h1) && Reads(isRequest, h1, b) == Some(h2)
    ensures Reads(isRequest, h, a + b) == Some(h2)
  {
    hide Reads;
    ReadsSplit(isRequest, h, a, b);
  }

  lemma ReadsOne(isRequest: bool, h: Head, c: byte, h': Head)
    requires HeadSwitch(isRequest, h, c) == HMore(h')
    ensures Reads(isRequest, h, [c]) == Some(h')
  {
    hide HeadSwitch;
    assert [c][1..] == [];
  }

  /** A state that collects characters: `at(t)` is the head once `t` has been collected. */
  lemma {:induction false} ReadsMany(isRequest: bool, at: bytes -> Head, s: bytes)
    requires forall i :: 0 <= i < |s| ==> HeadSwitch(isRequest, at(s[..i]), s[i]) == HMore(at(s[..i] + [s[i]]))
    ensures Reads(isRequest, at([]), s) == Some(at(s))
    decreases |s|
  {
    hide HeadSwitch;
    if s != [] {
      var k := |s| - 1;
      var t := s[..k];
      forall i | 0 <= i < |t|
        ensures HeadSwitch(isRequest, at(t[..i]), t[i]) == HMore(at(t[..i] + [t[i]]))
      {
        assert t[..i] == s[..i] && t[i] == s[i];
      }
      ReadsMany(isRequest, at, t);
      ReadsOne(isRequest, at(t), s[k], at(t + [s[k]]));
      assert s == t + [s[k]];
      ReadsTwo(isRequest, at([]), t, at(t), [s[k]], at(s));
    }
  }

  /** The switch neither looks at the saved raw headers nor changes them. */
  predicate RawKept(isRequest: bool, h: Head, raw: bytes, c: byte) {
    var out := HeadSwitch(isRequest, h, c);
    HeadSwitch(isRequest, h.(raw := raw), c) == match out
      case HMore(h') => HMore(h'.(raw := raw))
      case HFail => HFail
      case HDone(h', used) => HDone(h'.(raw := raw), used)
  }

  lemma RawKeptLine(isRequest: bool, h: Head, raw: bytes, c: byte)
    requires h.state.MethodStart? || h.state.Method? || h.state.UriStem? || h.state.UriQuery?
    ensures RawKept(isRequest, h, raw, c)
  {
    hide IsToken, IsControl, IsDigit, Shift;
  }

  lemma RawKeptHttp(isRequest: bool, h: Head, raw: bytes, c: byte)
    requires h.state.VersionH? || h.state.VersionT1? || h.state.VersionT2? || h.state.VersionP? || h.state.VersionSlash?
    ensures RawKept(isRequest, h, raw, c)
  {
    hide IsToken, IsControl, IsDigit, Shift;
  }

  lemma RawKeptVersion(isRequest: bool, h: Head, raw: bytes, c: byte)
    requires h.state.MajorStart? || h.state.Major? || h.state.MinorStart? || h.state.Minor?
    ensures RawKept(isRequest, h, raw, c)
  {
    hide IsToken, IsControl, IsDigit, Shift;
  }

  lemma RawKeptStatus(isRequest: bool, h: Head, raw: bytes, c: byte)
    requires h.state.StatusCodeStart? || h.state.StatusCode? || h.state.StatusMessage?
    ensures RawKept(isRequest, h, raw, c)
  {
    hide IsToken, IsControl, IsDigit, Shift;
  }

  lemma RawKeptEnds(isRequest: bool, h: Head, raw: bytes, c: byte)
    requires h.state.ExpectNewline? || h.state.ExpectCr? || h.state.HeaderWhitespace? || h.state.HeaderStart?
    ensures RawKept(isRequest, h, raw, c)
  {
    hide IsToken, IsControl, IsDigit, Shift;
  }

  lemma RawKeptField(isRequest: bool, h: Head, raw: bytes, c: byte)
    requires h.state.HeaderName? || h.state.SpaceBeforeValue? || h.state.HeaderValue? || h.state.ExpectFinalNewline?
             || h.state.ExpectFinalCr?
    ensures RawKept(isRequest, h, raw, c)
  {
    hide IsToken, IsControl, IsDigit, Shift;
  }

  lemma RawIrrelevant(isRequest: bool, h: Head, raw: bytes, c: byte)
    ensures RawKept(isRequest, h, raw, c)
  {
    hide RawKept;
    match h.state {
      case MethodStart | Method | UriStem | UriQuery => RawKeptLine(isRequest, h, raw, c);
      case VersionH | VersionT1 | VersionT2 | VersionP | VersionSlash => RawKeptHttp(isRequest, h, raw, c);
      case MajorStart | Major | MinorStart | Minor => RawKeptVersion(isRequest, h, raw, c);
      case StatusCodeStart | StatusCode | StatusMessage => RawKeptStatus(isRequest, h, raw, c);
      case ExpectNewline | ExpectCr | HeaderWhitespace | HeaderStart => RawKeptEnds(isRequest, h, raw, c);
      case HeaderName | SpaceBeforeValue | HeaderValue | ExpectFinalNewline | ExpectFinalCr =>
          RawKeptField(isRequest, h, raw, c);
    }
  }

  /** What the saved raw headers become. */
  function Raw(g: Config, raw: bytes, s: bytes): bytes { if g.saveRaw then raw + s else raw }

  /** parseHeaders on the same bytes. */
  lemma {:induction false} ReadsRun(g: Config, h: Head, s: bytes, h': Head, raw: bytes)
    requires Reads(g.isRequest, h, s) == Some(h')
    ensures HeadRun(g, h.(raw := raw), s) == HeadResult(h'.(raw := Raw(g, raw, s)), |s|, More)
    decreases |s|
  {
    hide HeadSwitch;
    if s == [] {
      assert raw + s == raw;
    } else {
      var h1 := HeadSwitch(g.isRequest, h, s[0]).h;
      RawIrrelevant(g.isRequest, h, raw, s[0]);
      ReadsRun(g, h1, s[1..], h', Raw(g, raw, [s[0]]));
      assert raw + [s[0]] + s[1..] == raw + s;
    }
  }

  lemma {:induction false} HeadRunSplits(g: Config, h: Head, a: bytes, b: bytes)
    requires HeadRun(g, h, a).verdict.More?
    ensures HeadRun(g, h, a + b) == var t := HeadRun(g, HeadRun(g, h, a).h, b); t.(n := |a| + t.n)
    decreases |a|
  {
    hide HeadStep;
    if a == [] {
      assert a + b == b;
    } else {
      assert (a + b)[0] == a[0] && (a + b)[1..] == a[1..] + b;
      HeadRunSplits(g, HeadStep(g, h, a[0]).h, a[1..], b);
    }
  }

  // ---------------------------------------------------------------- the first line

  predicate Tokens(s: bytes) { forall i :: 0 <= i < |s| ==> IsToken(s[i]) }
  predicate NoControls(s: bytes) { forall i :: 0 <= i < |s| ==> !IsControl(s[i]) }

  /** What a request line must be for the parser to read it back. */
  predicate LineOk(r: Request) {
    && r.verb != [] && Tokens(r.verb) && |r.verb| <= METHOD_MAX
    && NoControls(r.resource) && SP !in r.resource && 63 !in r.resource && |r.resource| <= RESOURCE_MAX
    && NoControls(r.query) && SP !in r.query && |r.query| <= QUERY_STRING_MAX
    && r.major < 0x1_0000 && r.minor < 0x1_0000
  }

  lemma ReadsVerb(h: Head, verb: bytes)
    requires h.state.MethodStart? && verb != [] && Tokens(verb) && |verb| <= METHOD_MAX
    ensures Reads(true, h, verb + [SP]) == Some(h.(verb := verb, resource := [], state := UriStem))
  {
    hide Reads;
    var at := (t: bytes) => if t == [] then h else h.(verb := t, state := Method);
    forall i | 0 <= i < |verb|
      ensures HeadSwitch(true, at(verb[..i]), verb[i]) == HMore(at(verb[..i] + [verb[i]]))
    {
      assert IsToken(verb[i]);
      if i == 0 {
        assert verb[..0] + [verb[0]] == [verb[0]];
      }
    }
    ReadsMany(true, at, verb);
    var h2 := h.(verb := verb, resource := [], state := UriStem);
    ReadsOne(true, at(verb), SP, h2);
    ReadsTwo(true, h, verb, at(verb), [SP], h2);
  }

  lemma ReadsResource(h: Head, resource: bytes)
    requires h.state.UriStem? && h.resource == []
    requires NoControls(resource) && SP !in resource && 63 !in resource && |resource| <= RESOURCE_MAX
    ensures Reads(true, h, resource) == Some(h.(resource := resource))
  {
    hide Reads;
    var at := (t: bytes) => h.(resource := t);
    forall i | 0 <= i < |resource|
      ensures HeadSwitch(true, at(resource[..i]), resource[i]) == HMore(at(resource[..i] + [resource[i]]))
    {
      assert !IsControl(resource[i]) && resource[i] in resource;
    }
    ReadsMany(true, at, resource);
  }

  /** The query string, if there is one, and the space before the version. */
  lemma ReadsQuery(h: Head, query: bytes)
    requires h.state.UriStem? && h.query == []
    requires NoControls(query) && SP !in query && |query| <= QUERY_STRING_MAX
    ensures Reads(true, h, (if query != [] then [63] + query else []) + [SP])
            == Some(h.(query := query, state := VersionH))
  {
    hide Reads;
    var h2 := h.(query := query, state := VersionH);
    if query == [] {
      assert [] + [SP] == [SP];
      ReadsOne(true, h, SP, h2);
    } else {
      var at := (t: bytes) => h.(query := t, state := UriQuery);
      forall i | 0 <= i < |query|
        ensures HeadSwitch(true, at(query[..i]), query[i]) == HMore(at(query[..i] + [query[i]]))
      {
        assert !IsControl(query[i]) && query[i] in query;
      }
      ReadsOne(true, h, 63, at([]));
      ReadsMany(true, at, query);
      ReadsTwo(true, h, [63], at([]), query, at(query));
      ReadsOne(true, at(query), SP, h2);
      ReadsTwo(true, h, [63] + query, at(query), [SP], h2);
    }
  }

  lemma ReadsHttp(isRequest: bool, h: Head)
    requires h.state.VersionH?
    ensures Reads(isRequest, h, [72, 84, 84, 80, 47]) == Some(h.(state := MajorStart))
  {
    hide Reads;
    ReadsOne(isRequest, h, 72, h.(state := VersionT1));
    ReadsOne(isRequest, h.(state := VersionT1), 84, h.(state := VersionT2));
    ReadsOne(isRequest, h.(state := VersionT2), 84, h.(state := VersionP));
    ReadsOne(isRequest, h.(state := VersionP), 80, h.(state := VersionSlash));
    ReadsOne(isRequest, h.(state := VersionSlash), 47, h.(state := MajorStart));
    ReadsTwo(isRequest, h, [72], h.(state := VersionT1), [84], h.(state := VersionT2));
    ReadsTwo(isRequest, h, [72] + [84], h.(state := VersionT2), [84], h.(state := VersionP));
    ReadsTwo(isRequest, h, [72] + [84] + [84], h.(state := VersionP), [80], h.(state := VersionSlash));
    ReadsTwo(isRequest, h, [72] + [84] + [84] + [80], h.(state := VersionSlash), [47], h.(state := MajorStart));
    assert [72] + [84] + [84] + [80] + [47] == [72, 84, 84, 80, 47];
  }

  predicate Digits(s: bytes) { forall i :: 0 <= i < |s| ==> IsDigit(s[i]) }

  /** Another digit of a uint16_t number. */
  lemma ShiftDigit(t: bytes, c: byte)
    requires Digits(t) && IsDigit(c)
    ensures Shift(NumeralValue(t, 10) % 0x1_0000, c) == NumeralValue(t + [c], 10) % 0x1_0000
  {
    hide NumeralValue;
    AppendDigit(t, c, 10);
    var v, m := NumeralValue(t, 10), 0x1_0000;
    assert v == v / m * m + v % m;
    assert (v * 10 + (c - 48)) % m == ((v % m) * 10 + (c - 48) + (v / m * 10) * m) % m;
    ModDrop((v % m) * 10 + (c - 48), v / m * 10, m);
  }

  lemma ModDrop(a: nat, k: nat, m: nat)
    requires m == 0x1_0000
    ensures (a + k * m) % m == a % m
  {
  }

  lemma FirstDigit(c: byte)
    requires IsDigit(c)
    ensures NumeralValue([c], 10) % 0x1_0000 == c - 48
  {
    OneDigit(c, 10);
  }

  function Uint16(t: bytes): nat
    requires Digits(t)
  {
    NumeralValue(t, 10) % 0x1_0000
  }

  lemma ReadsMajor(isRequest: bool, h: Head, n: nat)
    requires h.state.MajorStart? && n < 0x1_0000
    ensures Reads(isRequest, h, Numeral(n, 10) + [46]) == Some(h.(major := n, state := MinorStart))
  {
    hide Reads, NumeralValue, Shift, Numeral;
    var s := Numeral(n, 10);
    DecimalDigits(n);
    NumeralRoundTrip(n, 10);
    var at := (t: bytes) => if t == [] || !Digits(t) then h else h.(major := Uint16(t), state := Major);
    forall i | 0 <= i < |s|
      ensures HeadSwitch(isRequest, at(s[..i]), s[i]) == HMore(at(s[..i] + [s[i]]))
    {
      var t, c := s[..i], s[i];
      assert Digits(t) && Digits(t + [c]) && IsDigit(c);
      if i == 0 {
        FirstDigit(c);
        assert t + [c] == [c];
      } else {
        ShiftDigit(t, c);
      }
    }
    ReadsMany(isRequest, at, s);
    var h2 := h.(major := n, state := MinorStart);
    assert at(s) == h.(major := n, state := Major);
    ReadsOne(isRequest, at(s), 46, h2);
    ReadsTwo(isRequest, h, s, at(s), [46], h2);
  }

  lemma ReadsMinor(isRequest: bool, h: Head, n: nat)
    requires h.state.MinorStart? && n < 0x1_0000
    ensures Reads(isRequest, h, Numeral(n, 10)) == Some(h.(minor := n, state := Minor))
  {
    hide Reads, NumeralValue, Shift, Numeral;
    var s := Numeral(n, 10);
    DecimalDigits(n);
    NumeralRoundTrip(n, 10);
    var at := (t: bytes) => if t == [] || !Digits(t) then h else h.(minor := Uint16(t), state := Minor);
    forall i | 0 <= i < |s|
      ensures HeadSwitch(isRequest, at(s[..i]), s[i]) == HMore(at(s[..i] + [s[i]]))
    {
      var t, c := s[..i], s[i];
      assert Digits(t) && Digits(t + [c]) && IsDigit(c);
      if i == 0 {
        FirstDigit(c);
        assert t + [c] == [c];
      } else {
        ShiftDigit(t, c);
      }
    }
    ReadsMany(isRequest, at, s);
  }

  lemma ReadsCrlf(h: Head)
    requires h.state.Minor?
    ensures Reads(true, h, CRLF) == Some(h.(state := HeaderStart))
  {
    hide Reads;
    ReadsOne(true, h, CR, h.(state := ExpectNewline));
    ReadsOne(true, h.(state := ExpectNewline), LF, h.(state := HeaderStart));
    assert CRLF == [CR] + [LF];
    ReadsTwo(true, h, [CR], h.(state := ExpectNewline), [LF], h.(state := HeaderStart));
  }

  /** The head once the first line of `r` has been read. */
  function LineRead(h: Head, r: Request): Head {
    h.(verb := r.verb, resource := r.resource, query := r.query, major := r.major, minor := r.minor,
        state := HeaderStart)
  }

  lemma ReadsToVersion(h: Head, r: Request)
    requires h.state.MethodStart? && h.query == [] && LineOk(r)
    ensures Reads(true, h, FirstLine(r)) == Some(LineRead(h, r).(state := Minor))
  {
    hide Reads, Numeral, Tokens, NoControls;
    var query := if r.query != [] then [63] + r.query else [];
    var a := r.verb + [SP];
    var b, c, d, e := r.resource, query + [SP], [72, 84, 84, 80, 47], Numeral(r.major, 10) + [46];
    var h1 := h.(verb := r.verb, resource := [], state := UriStem);
    var h2 := h1.(resource := r.resource);
    var h3 := h2.(query := r.query, state := VersionH);
    var h4 := h3.(state := MajorStart);
    var h5 := h4.(major := r.major, state := MinorStart);
    var h6 := h5.(minor := r.minor, state := Minor);
    ReadsVerb(h, r.verb);
    ReadsResource(h1, r.resource);
    ReadsTwo(true, h, a, h1, b, h2);
    ReadsQuery(h2, r.query);
    ReadsTwo(true, h, a + b, h2, c, h3);
    ReadsHttp(true, h3);
    ReadsTwo(true, h, a + b + c, h3, d, h4);
    ReadsMajor(true, h4, r.major);
    ReadsTwo(true, h, a + b + c + d, h4, e, h5);
    ReadsMinor(true, h5, r.minor);
    ReadsTwo(true, h, a + b + c + d + e, h5, Numeral(r.minor, 10), h6);
    assert FirstLine(r) == a + b + c + d + e + Numeral(r.minor, 10);
  }

  lemma ReadsFirstLine(h: Head, r: Request)
    requires h.state.MethodStart? && h.query == [] && LineOk(r)
    ensures Reads(true, h, FirstLine(r) + CRLF) == Some(LineRead(h, r))
  {
    hide Reads, FirstLine, LineOk;
    var m := LineRead(h, r).(state := Minor);
    ReadsToVersion(h, r);
    ReadsCrlf(m);
    ReadsTwo(true, h, FirstLine(r), m, CRLF, LineRead(h, r));
  }

  // ---------------------------------------------------------------- the header lines

  predicate FieldOk(f: (bytes, bytes)) {
    f.0 != [] && Tokens(f.0) && |f.0| <= HEADER_NAME_MAX && NoControls(f.1) && |f.1| <= HEADER_VALUE_MAX
  }

  predicate FieldsOk(d: Dict) { forall i :: 0 <= i < |d| ==> FieldOk(d[i]) }

  lemma ReadsName(isRequest: bool, h: Head, name: bytes)
    requires h.state.HeaderStart? && name != [] && Tokens(name) && |name| <= HEADER_NAME_MAX
    ensures Reads(isRequest, h, name) == Some(h.(name := name, state := HeaderName))
  {
    hide Reads;
    var at := (t: bytes) => if t == [] then h else h.(name := t, state := HeaderName);
    forall i | 0 <= i < |name|
      ensures HeadSwitch(isRequest, at(name[..i]), name[i]) == HMore(at(name[..i] + [name[i]]))
    {
      assert IsToken(name[i]);
      if i == 0 {
        assert name[..0] + [name[0]] == [name[0]];
      }
    }
    ReadsMany(isRequest, at, name);
  }

  lemma ReadsDelimiter(isRequest: bool, h: Head)
    requires h.state.HeaderName?
    ensures Reads(isRequest, h, [58, SP]) == Some(h.(value := [], state := HeaderValue))
  {
    hide Reads;
    var h1 := h.(value := [], state := SpaceBeforeValue);
    ReadsOne(isRequest, h, 58, h1);
    ReadsOne(isRequest, h1, SP, h.(value := [], state := HeaderValue));
    assert [58, SP] == [58] + [SP];
    ReadsTwo(isRequest, h, [58], h1, [SP], h.(value := [], state := HeaderValue));
  }

  lemma ReadsValue(isRequest: bool, h: Head, value: bytes)
    requires h.state.HeaderValue? && h.value == [] && NoControls(value) && |value| <= HEADER_VALUE_MAX
    ensures Reads(isRequest, h, value) == Some(h.(value := value))
  {
    hide Reads;
    var at := (t: bytes) => h.(value := t);
    forall i | 0 <= i < |value|
      ensures HeadSwitch(isRequest, at(value[..i]), value[i]) == HMore(at(value[..i] + [value[i]]))
    {
      assert !IsControl(value[i]);
    }
    ReadsMany(isRequest, at, value);
  }

  lemma ReadsLineEnd(isRequest: bool, h: Head)
    requires h.state.HeaderValue?
    ensures Reads(isRequest, h, CRLF) == Some(h.(headers := h.headers + [(h.name, h.value)], state := HeaderStart))
  {
    hide Reads;
    var h1 := h.(headers := h.headers + [(h.name, h.value)], state := ExpectNewline);
    ReadsOne(isRequest, h, CR, h1);
    ReadsOne(isRequest, h1, LF, h1.(state := HeaderStart));
    assert CRLF == [CR] + [LF];
    ReadsTwo(isRequest, h, [CR], h1, [LF], h1.(state := HeaderStart));
  }

  /** One header line adds one header. */
  lemma ReadsHeader(isRequest: bool, h: Head, name: bytes, value: bytes)
    requires h.state.HeaderStart? && FieldOk((name, value))
    ensures Reads(isRequest, h, HeaderLine(name, value))
            == Some(h.(name := name, value := value, headers := h.headers + [(name, value)]))
  {
    hide Reads, Tokens, NoControls;
    var h1 := h.(name := name, state := HeaderName);
    var h2 := h1.(value := [], state := HeaderValue);
    var h3 := h2.(value := value);
    var h4 := h.(name := name, value := value, headers := h.headers + [(name, value)]);
    ReadsName(isRequest, h, name);
    ReadsDelimiter(isRequest, h1);
    ReadsTwo(isRequest, h, name, h1, [58, SP], h2);
    ReadsValue(isRequest, h2, value);
    ReadsTwo(isRequest, h, name + [58, SP], h2, value, h3);
    ReadsLineEnd(isRequest, h3);
    ReadsTwo(isRequest, h, name + [58, SP] + value, h3, CRLF, h4);
  }

  /** The head once the header lines `d` have been read; the last name and value stay in
      their variables. */
  function HeadersRead(h: Head, d: Dict): Head
    decreases |d|
  {
    if d == [] then h
    else HeadersRead(h.(name := d[0].0, value := d[0].1, headers := h.headers + [d[0]]), d[1..])
  }

  lemma {:induction false} HeadersReadFields(h: Head, d: Dict)
    ensures var r := HeadersRead(h, d);
            r == h.(name := r.name, value := r.value, headers := h.headers + d)
    decreases |d|
  {
    if d == [] {
      assert h.headers + d == h.headers;
    } else {
      var h1 := h.(name := d[0].0, value := d[0].1, headers := h.headers + [d[0]]);
      HeadersReadFields(h1, d[1..]);
      assert h.headers + [d[0]] + d[1..] == h.headers + d;
    }
  }

  lemma {:induction false} ReadsHeaders(isRequest: bool, h: Head, d: Dict)
    requires h.state.HeaderStart? && FieldsOk(d)
    ensures Reads(isRequest, h, HeaderLines(d)) == Some(HeadersRead(h, d))
    decreases |d|
  {
    hide Reads;
    if d == [] {
      assert Reads(isRequest, h, []) == Some(h) by { ReadsNothing(isRequest, h); }
    } else {
      assert FieldOk(d[0]) && FieldsOk(d[1..]);
      var h1 := h.(name := d[0].0, value := d[0].1, headers := h.headers + [d[0]]);
      ReadsHeader(isRequest, h, d[0].0, d[0].1);
      ReadsHeaders(isRequest, h1, d[1..]);
      ReadsTwo(isRequest, h, HeaderLine(d[0].0, d[0].1), h1, HeaderLines(d[1..]), HeadersRead(h, d));
    }
  }

  lemma ReadsNothing(isRequest: bool, h: Head)
    ensures Reads(isRequest, h, []) == Some(h)
  {
  }

  // ---------------------------------------------------------------- the whole head

  /** The empty line completes the headers. */
  lemma EmptyLine(g: Config, h: Head, rest: bytes)
    requires h.state.HeaderStart?
    ensures HeadRun(g, h, CRLF + rest)
            == HeadResult(h.(state := ExpectFinalNewline, raw := Raw(g, h.raw, [CR])), 2, Done)
  {
    var s := CRLF + rest;
    assert s[0] == CR && s[1..][0] == LF;
    assert HeadStep(g, h, CR) == HMore(h.(state := ExpectFinalNewline, raw := Raw(g, h.raw, [CR])));
  }

  /** What parseHeaders has when it has read the head of `r` with headers `d`. */
  predicate HeadOf(h: Head, r: Request, d: Dict) {
    && h.verb == r.verb && h.resource == r.resource && h.query == r.query
    && h.major == r.major && h.minor == r.minor && h.headers == d
  }

  /** parseHeaders consumes exactly a printed head, whatever follows, and recovers it. */
  lemma HeadParses(g: Config, r: Request, d: Dict, rest: bytes)
    requires g.isRequest && LineOk(r) && FieldsOk(d)
    ensures var t := HeadRun(g, NewParser(g, EMPTY_MESSAGE).head, PrintHead(r, d) + rest);
            t.verdict == Done && t.n == |PrintHead(r, d)| && HeadOf(t.h, r, d)
  {
    hide Reads, HeadRun, LineOk, FieldsOk, FirstLine, HeaderLines, HeadersRead;
    var h := NewParser(g, EMPTY_MESSAGE).head;
    var a, b := FirstLine(r) + CRLF, HeaderLines(d);
    var h1 := LineRead(h, r);
    var h2 := HeadersRead(h1, d);
    ReadsFirstLine(h, r);
    ReadsHeaders(true, h1, d);
    ReadsTwo(true, h, a, h1, b, h2);
    HeadersReadFields(h1, d);
    ReadsRun(g, h, a + b, h2, []);
    assert h.(raw := []) == h;
    assert PrintHead(r, d) + rest == (a + b) + (CRLF + rest);
    HeadRunSplits(g, h, a + b, CRLF + rest);
    EmptyLine(g, h2.(raw := Raw(g, [], a + b)), rest);
    assert [] + d == d;
  }

  // ---------------------------------------------------------------- the prepared headers

  lemma {:induction false} WithoutOk(d: Dict, key: bytes)
    requires FieldsOk(d)
    ensures FieldsOk(Without(d, key))
  {
    hide FieldOk;
    if d != [] {
      WithoutOk(d[1..], key);
    }
  }

  lemma {:induction false} ChangeValueOk(d: Dict, key: bytes, value: bytes)
    requires FieldsOk(d) && FieldOk((key, value))
    ensures FieldsOk(ChangeValue(d, key, value))
  {
    if d != [] {
      assert FieldOk(d[0]);
      if SameName(d[0].0, key) {
        WithoutOk(d[1..], key);
      } else {
        ChangeValueOk(d[1..], key, value);
      }
    }
  }

  lemma LengthField(n: nat)
    requires n <= SIZE_MAX
    ensures FieldOk((CONTENT_LENGTH, Numeral(n, 10)))
  {
    hide Numeral;
    NumeralFits(n);
    DecimalDigits(n);
    assert Tokens(CONTENT_LENGTH) by { Worded(CONTENT_LENGTH); }
  }

  /** Letters and hyphens make a token. */
  lemma Worded(s: bytes)
    requires forall i :: 0 <= i < |s| ==> 65 <= s[i] <= 90 || 97 <= s[i] <= 122 || s[i] == 45
    ensures Tokens(s)
  {
  }

  lemma ConnectionIsToken()
    ensures Tokens(CONNECTION) && 0 < |CONNECTION| <= HEADER_NAME_MAX
  {
    hide Tokens;
    Worded(CONNECTION);
  }

  lemma ConnectionValues()
    ensures NoControls(Str("close")) && NoControls(Str("Keep-Alive"))
  {
    hide IsControl;
    assert forall i :: 0 <= i < 5 ==> 97 <= Str("close")[i] <= 122;
    assert forall i :: 0 <= i < 10 ==> 45 <= Str("Keep-Alive")[i] <= 122;
    Printable(Str("close"));
    Printable(Str("Keep-Alive"));
  }

  lemma Printable(s: bytes)
    requires forall i :: 0 <= i < |s| ==> 32 < s[i] < 127
    ensures NoControls(s)
  {
  }

  lemma ConnectionField(keepAlive: bool)
    ensures FieldOk((CONNECTION, Str(if keepAlive then "Keep-Alive" else "close")))
  {
    hide Tokens, NoControls, Str;
    ConnectionIsToken();
    ConnectionValues();
  }

  lemma DistinctFields()
    ensures !SameName(CONNECTION, CONTENT_LENGTH) && !SameName(CONTENT_LENGTH, CONNECTION)
    ensures !SameName(CONNECTION, TRANSFER_ENCODING) && !SameName(CONTENT_LENGTH, TRANSFER_ENCODING)
  {
  }

  lemma PreparedOk(r: Request, keepAlive: bool)
    requires FieldsOk(r.headers) && |r.body| <= SIZE_MAX
    ensures var d := Prepared(r, keepAlive);
            && FieldsOk(d)
            && Find(d, CONTENT_LENGTH) == Some(Numeral(|r.body|, 10))
            && Find(d, CONNECTION) == Some(Str(if keepAlive then "Keep-Alive" else "close"))
            && Find(d, TRANSFER_ENCODING) == Find(r.headers, TRANSFER_ENCODING)
  {
    hide FieldsOk, FieldOk, ChangeValue, Find, Numeral, SameName;
    LengthField(|r.body|);
    ConnectionField(keepAlive);
    DistinctFields();
    var connection := Str(if keepAlive then "Keep-Alive" else "close");
    var d1 := ChangeValue(r.headers, CONNECTION, connection);
    var length := Numeral(|r.body|, 10);
    ChangeValueOk(r.headers, CONNECTION, connection);
    ChangeValueOk(d1, CONTENT_LENGTH, length);
    ChangedFound(r.headers, CONNECTION, connection);
    ChangedFound(d1, CONTENT_LENGTH, length);
    ChangedElsewhere(d1, CONTENT_LENGTH, length, CONNECTION);
    ChangedElsewhere(r.headers, CONNECTION, connection, TRANSFER_ENCODING);
    ChangedElsewhere(d1, CONTENT_LENGTH, length, TRANSFER_ENCODING);
  }
}
