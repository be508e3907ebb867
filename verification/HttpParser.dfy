/** HTTPParser as a byte-at-a-time machine: what one more byte does to the parser and to
    the message being filled in, and what a whole byte string does. */
module HttpParser {
  import opened Wrappers
  import opened Bytes
  import opened HttpForms

  const STATUS_MESSAGE_MAX: nat := 1024
  const METHOD_MAX: nat := 1024
  const RESOURCE_MAX: nat := 256 * 1024
  const QUERY_STRING_MAX: nat := 1024 * 1024
  const HEADER_NAME_MAX: nat := 1024
  const HEADER_VALUE_MAX: nat := 1024 * 1024

  /** How a parser was set up.  `junk(i)` is what byte `i` of a newly allocated content
      buffer happens to contain. */
  datatype Config = Config(isRequest: bool, maxContent: nat, saveRaw: bool, junk: nat -> byte)

  // ---------------------------------------------------------------- headers

  datatype HeaderState =
    | MethodStart | Method | UriStem | UriQuery
    | VersionH | VersionT1 | VersionT2 | VersionP | VersionSlash | MajorStart | Major | MinorStart | Minor
    | StatusCodeStart | StatusCode | StatusMessage
    | ExpectNewline | ExpectCr | HeaderWhitespace | HeaderStart | HeaderName | SpaceBeforeValue | HeaderValue
    | ExpectFinalNewline | ExpectFinalCr

  /** The variables parseHeaders works on, including what it stores in the message. */
  datatype Head = Head(state: HeaderState, verb: bytes, resource: bytes, query: bytes, code: nat, reason: bytes,
                       name: bytes, value: bytes, raw: bytes, major: nat, minor: nat, headers: Dict)

  /** The outcome of one byte: go on, fail, or headers complete (with or without using the byte). */
  datatype HeadOut = HMore(h: Head) | HFail | HDone(h: Head, used: bool)

  /** uint16_t arithmetic of the version and status numbers. */
  function Shift(n: nat, c: byte): nat
    requires IsDigit(c)
  {
    (n * 10 + (c - 48)) % 0x1_0000
  }

  /** A byte where a header line may start. */
  function NameStart(h: Head, c: byte): HeadOut {
    if IsToken(c) then HMore(h.(name := [c], state := HeaderName)) else HFail
  }

  function LineEnd(h: Head, c: byte): Head
    requires c == CR || c == LF
  {
    h.(state := if c == CR then ExpectNewline else ExpectCr)
  }

  /** The switch of parseHeaders. */
  function HeadSwitch(isRequest: bool, h: Head, c: byte): HeadOut {
    match h.state
    case MethodStart =>
      if c == SP || c == CR || c == LF then HMore(h)
      else if IsToken(c) then HMore(h.(state := Method, verb := [c])) else HFail
    case Method =>
      if c == SP then HMore(h.(resource := [], state := UriStem))
      else if !IsToken(c) || |h.verb| >= METHOD_MAX then HFail
      else HMore(h.(verb := h.verb + [c]))
    case UriStem =>
      if c == SP then HMore(h.(state := VersionH))
      else if c == 63 then HMore(h.(query := [], state := UriQuery))
      else if IsControl(c) || |h.resource| >= RESOURCE_MAX then HFail
      else HMore(h.(resource := h.resource + [c]))
    case UriQuery =>
      if c == SP then HMore(h.(state := VersionH))
      else if IsControl(c) || |h.query| >= QUERY_STRING_MAX then HFail
      else HMore(h.(query := h.query + [c]))
    case VersionH => if c == 72 then HMore(h.(state := VersionT1)) else HFail
    case VersionT1 => if c == 84 then HMore(h.(state := VersionT2)) else HFail
    case VersionT2 => if c == 84 then HMore(h.(state := VersionP)) else HFail
    case VersionP => if c == 80 then HMore(h.(state := VersionSlash)) else HFail
    case VersionSlash => if c == 47 then HMore(h.(state := MajorStart)) else HFail
    case MajorStart => if IsDigit(c) then HMore(h.(major := c - 48, state := Major)) else HFail
    case Major =>
      if c == 46 then HMore(h.(state := MinorStart))
      else if IsDigit(c) then HMore(h.(major := Shift(h.major, c))) else HFail
    case MinorStart => if IsDigit(c) then HMore(h.(minor := c - 48, state := Minor)) else HFail
    case Minor =>
      if c == SP then (if isRequest then HFail else HMore(h.(state := StatusCodeStart)))
      else if c == CR || c == LF then (if isRequest then HMore(LineEnd(h, c)) else HFail)
      else if IsDigit(c) then HMore(h.(minor := Shift(h.minor, c))) else HFail
    case StatusCodeStart => if IsDigit(c) then HMore(h.(code := c - 48, state := StatusCode)) else HFail
    case StatusCode =>
      if c == SP then HMore(h.(reason := [], state := StatusMessage))
      else if IsDigit(c) then HMore(h.(code := Shift(h.code, c))) else HFail
    case StatusMessage =>
      if c == CR || c == LF then HMore(LineEnd(h, c))
      else if IsControl(c) || |h.reason| >= STATUS_MESSAGE_MAX then HFail
      else HMore(h.(reason := h.reason + [c]))
    case ExpectNewline =>
      if c == LF then HMore(h.(state := HeaderStart))
      else if c == CR then HDone(h, true)
      else if c == HT || c == SP then HMore(h.(state := HeaderWhitespace))
      else NameStart(h, c)
    case ExpectCr =>
      if c == CR then HMore(h.(state := HeaderStart))
      else if c == LF then HDone(h, true)
      else if c == HT || c == SP then HMore(h.(state := HeaderWhitespace))
      else NameStart(h, c)
    case HeaderWhitespace =>
      if c == CR || c == LF then HMore(LineEnd(h, c))
      else if c == HT || c == SP then HMore(h)
      else NameStart(h, c)
    case HeaderStart =>
      if c == CR then HMore(h.(state := ExpectFinalNewline))
      else if c == LF then HMore(h.(state := ExpectFinalCr))
      else if c == HT || c == SP then HMore(h.(state := HeaderWhitespace))
      else NameStart(h, c)
    case HeaderName =>
      if c == 58 then HMore(h.(value := [], state := SpaceBeforeValue))
      else if !IsToken(c) || |h.name| >= HEADER_NAME_MAX then HFail
      else HMore(h.(name := h.name + [c]))
    case SpaceBeforeValue =>
      if c == SP then HMore(h.(state := HeaderValue))
      else if c == CR || c == LF then HMore(LineEnd(h, c).(headers := h.headers + [(h.name, h.value)]))
      else if !IsToken(c) then HFail
      else HMore(h.(value := h.value + [c], state := HeaderValue))
    case HeaderValue =>
      if c == CR || c == LF then HMore(LineEnd(h, c).(headers := h.headers + [(h.name, h.value)]))
      else if IsControl(c) || |h.value| >= HEADER_VALUE_MAX then HFail
      else HMore(h.(value := h.value + [c]))
    case ExpectFinalNewline => HDone(h, c == LF)
    case ExpectFinalCr => HDone(h, c == CR)
  }

  /** One turn of the loop of parseHeaders. */
  function HeadStep(g: Config, h: Head, c: byte): HeadOut {
    match HeadSwitch(g.isRequest, h, c)
    case HMore(h') => HMore(if g.saveRaw then h'.(raw := h'.raw + [c]) else h')
    case out => out
  }

  // ---------------------------------------------------------------- chunks

  datatype ChunkState =
    | SizeStart | Size | CrAfterSize | LfAfterSize | Data | CrAfterData | LfAfterData | FinalCr | FinalLf

  /** The variables parseChunks works on; `cache` is the message's chunk cache. */
  datatype Chunk = Chunk(state: ChunkState, digits: bytes, size: nat, got: nat, cache: bytes)

  datatype ChunkOut = CMore(k: Chunk) | CFail | CDone(k: Chunk)

  predicate ChunkOk(k: Chunk) { forall i :: 0 <= i < |k.digits| ==> IsHexDigit(k.digits[i]) }

  /** One turn of the loop of parseChunks. */
  function ChunkStep(max: nat, k: Chunk, c: byte): (r: ChunkOut)
    requires ChunkOk(k)
    ensures r.CMore? ==> ChunkOk(r.k)
    ensures r.CDone? ==> r.k == k
  {
    match k.state
    case SizeStart =>
      if IsHexDigit(c) then CMore(k.(digits := [c], state := Size))
      else if c == SP || c == HT || c == CR || c == LF then CMore(k) else CFail
    case Size =>
      if IsHexDigit(c) then CMore(k.(digits := k.digits + [c]))
      else if c == CR then CMore(k.(state := LfAfterSize))
      else if c == SP || c == HT then CMore(k.(state := CrAfterSize)) else CFail
    case CrAfterSize =>
      if c == CR then CMore(k.(state := LfAfterSize)) else if c == SP || c == HT then CMore(k) else CFail
    case LfAfterSize =>
      if c == LF then
        var size := ParseHex(k.digits);
        CMore(k.(got := 0, size := size, state := if size == 0 then FinalCr else Data))
      else CFail
    case Data =>
      var k' := if k.got < k.size
                then k.(got := k.got + 1, cache := if |k.cache| < max then k.cache + [c] else k.cache) else k;
      CMore(if k'.got == k'.size then k'.(state := CrAfterData) else k')
    case CrAfterData => if c == CR then CMore(k.(state := LfAfterData)) else CFail
    case LfAfterData => if c == LF then CMore(k.(state := SizeStart)) else CFail
    case FinalCr => if c == CR then CMore(k.(state := FinalLf)) else CFail
    case FinalLf => if c == LF then CDone(k) else CFail
  }

  // ---------------------------------------------------------------- the message

  datatype DataStatus = StatusNone | StatusTruncated | StatusPartial | StatusOk

  /** What the parser fills in besides headers and chunk cache.  `requestMethod` is the
      method a response answers. */
  datatype Message = Message(verb: bytes, resource: bytes, query: bytes, queryParams: Dict, cookies: Dict,
                             code: nat, reason: bytes, requestMethod: bytes, contentLength: nat, content: bytes,
                             isChunked: bool, isValid: bool, status: DataStatus,
                             missing: bool, dataAfterMissing: bool)

  const CONTENT_LENGTH: bytes := Str("Content-Length")
  const TRANSFER_ENCODING: bytes := Str("Transfer-Encoding")
  const CONTENT_TYPE: bytes := Str("Content-Type")
  const COOKIE: bytes := Str("Cookie")
  const SET_COOKIE: bytes := Str("Set-Cookie")
  const URL_ENCODED: bytes := Str("application/x-www-form-urlencoded")

  datatype MessageState = Start | Headers | Content | ContentNoLength | Chunks | End

  /** The whole parser with its message.  `used` counts every byte consumed; `got` counts
      body bytes of a body that is not chunked, `remaining` those still to come. */
  datatype Parser = Parser(state: MessageState, head: Head, chunk: Chunk, remaining: nat, got: nat, used: nat,
      msg: Message)

  /** tribool: indeterminate, true, false. */
  datatype Verdict = More | Done | Error

  /** All cookie headers in turn, each added to the dictionary as far as it parses. */
  function AllCookies(dict: Dict, headers: Dict, name: bytes, setCookie: bool): Dict
    decreases |headers|
  {
    if headers == [] then dict
    else AllCookies(if SameName(headers[0].0, name) then ParseCookie(dict, headers[0].1, setCookie).0 else dict,
                    headers[1..], name, setCookie)
  }

  /** updateMessageWithHeaderData */
  function WithHeaderData(g: Config, h: Head, m: Message): Message {
    if g.isRequest then
      m.(verb := h.verb, resource := h.resource, query := h.query,
         queryParams := if h.query != [] then ParseQuery(m.queryParams, h.query).0 else m.queryParams,
         cookies := AllCookies(m.cookies, h.headers, COOKIE, false))
    else
      m.(code := h.code, reason := h.reason, cookies := AllCookies(m.cookies, h.headers, SET_COOKIE, true))
  }

  /** isContentLengthImplied: never for requests. */
  predicate LengthImplied(g: Config, m: Message) {
    !g.isRequest && (m.requestMethod == Str("HEAD") || 100 <= m.code <= 199 || m.code == 204 || m.code == 205
        || m.code == 304)
  }

  function StatusFor(m: Message, ok: bool): DataStatus {
    if m.missing then (if m.dataAfterMissing then StatusPartial else StatusTruncated)
    else if ok then StatusOk else StatusTruncated
  }

  /** finish, in state PARSE_END. */
  function Finished(g: Config, h: Head, m: Message): Message {
    var m1 := m.(isValid := true);
    var m2 := m1.(status := StatusFor(m1, true));
    var contentType := match Find(h.headers, CONTENT_TYPE) case Some(v) => v case None => [];
    if g.isRequest && URL_ENCODED <= contentType
    then m2.(queryParams := ParseQuery(m2.queryParams, Take(m2.content, m2.contentLength)).0) else m2
  }

  /** concatenateChunks */
  function Joined(k: Chunk, m: Message): Message { m.(contentLength := |k.cache|, content := k.cache) }

  /** A content buffer fresh from the allocator. */
  function Fresh(g: Config, n: nat): bytes { seq<byte>(n, i requires 0 <= i < n => g.junk(i)) }

  /** The verdict of parse once the message is complete, or has an error. */
  function Complete(g: Config, p: Parser): (Parser, Verdict) {
    (p.(state := End, msg := Finished(g, p.head, p.msg)), Done)
  }

  function Failed(p: Parser): (Parser, Verdict) {
    (p.(msg := p.msg.(status := StatusFor(p.msg, false))), Error)
  }

  /** How the headers say the body is delimited. */
  datatype Body = Chunked | NoBody | Sized(n: nat) | BadLength | ToEof

  predicate SaysChunked(h: Head) {
    var encoding := Find(h.headers, TRANSFER_ENCODING);
    encoding.Some? && SameName(encoding.value, Str("chunked"))
  }

  /** The decisions of finishHeaderParsing. */
  function BodyOf(g: Config, h: Head, m: Message): Body {
    if m.isChunked then Chunked
    else if LengthImplied(g, m) then NoBody
    else match Find(h.headers, CONTENT_LENGTH)
      case Some(v) =>
        (match ParseSize(Trim(v)) case None => BadLength case Some(n) => if n == 0 then NoBody else Sized(n))
      case None => if g.isRequest then NoBody else ToEof
  }

  /** The message as finishHeaderParsing has it before it looks at the body. */
  function HeadMessage(g: Config, h: Head, m: Message): Message {
    WithHeaderData(g, h, m.(contentLength := 0, isChunked := SaysChunked(h)))
  }

  /** finishHeaderParsing, followed by what parse does with its answer. */
  function HeadersComplete(g: Config, p: Parser): (Parser, Verdict) {
    var m := HeadMessage(g, p.head, p.msg);
    var p1 := p.(remaining := 0, got := 0, msg := m.(content := []));
    match BodyOf(g, p.head, m)
    case Chunked => (p1.(state := Chunks), More)
    case NoBody => Complete(g, p1)
    case BadLength => Failed(p1.(msg := m))
    case Sized(n) =>
      var stored := if n > g.maxContent then g.maxContent else n;
      (p1.(state := Content, remaining := n, msg := m.(contentLength := stored, content := Fresh(g, stored))), More)
    case ToEof => (p1.(state := ContentNoLength, chunk := p1.chunk.(cache := [])), More)
  }

  /** A body byte of known position: stored if the buffer reaches that far. */
  function Store(g: Config, p: Parser, c: byte): Parser {
    var m := p.msg;
    p.(remaining := if p.remaining > 0 then p.remaining - 1 else 0, got := p.got + 1, used := p.used + 1,
       msg := if p.got < g.maxContent && p.got < |m.content| then m.(content := m.content[p.got := c]) else m)
  }

  predicate Ok(p: Parser) { ChunkOk(p.chunk) }

  /** The flag that data followed a gap is set, if there was a gap. */
  predicate Marked(p: Parser) { p.msg.missing ==> p.msg.dataAfterMissing }

  /** What parse does with the next byte: the new parser, whether the byte was consumed, and
      the verdict so far. */
  function Step(g: Config, p0: Parser, c: byte): (r: (Parser, bool, Verdict))
    requires Ok(p0)
    ensures Ok(r.0)
    ensures !r.1 && r.2.More? ==>
              (p0.state.Start? || p0.state.Headers?) && !r.0.state.Start? && !r.0.state.Headers?
  {
    var p := if p0.msg.missing then p0.(msg := p0.msg.(dataAfterMissing := true)) else p0;
    match p.state
    case Start => HeaderByte(g, p.(state := Headers), c)
    case Headers => HeaderByte(g, p, c)
    case Chunks =>
      (match ChunkStep(g.maxContent, p.chunk, c)
       case CMore(k) => (p.(chunk := k, used := p.used + 1), true, More)
       case CFail => var (q, v) := Failed(p); (q, false, v)
       case CDone(k) =>
         var (q, v) := Complete(g, p.(chunk := k, used := p.used + 1, msg := Joined(k, p.msg))); (q, true, v))
    case Content =>
      if p.remaining == 0 then var (q, v) := Complete(g, p); (q, false, v)
      else if p.remaining == 1 then var (q, v) := Complete(g, Store(g, p, c)); (q, true, v)
      else (Store(g, p, c), true, More)
    case ContentNoLength =>
      (p.(chunk := p.chunk.(cache := if |p.chunk.cache| < g.maxContent then p.chunk.cache + [c] else p.chunk.cache),
          got := p.got + 1, used := p.used + 1), true, More)
    case End => var (q, v) := Complete(g, p); (q, false, v)
  }

  function HeaderByte(g: Config, p: Parser, c: byte): (r: (Parser, bool, Verdict))
    requires Ok(p) && p.state.Headers?
    ensures Ok(r.0)
    ensures !r.1 && r.2.More? ==> !r.0.state.Start? && !r.0.state.Headers?
  {
    match HeadStep(g, p.head, c)
    case HMore(h) => (p.(head := h, used := p.used + 1), true, More)
    case HFail => var (q, v) := Failed(p); (q, false, v)
    case HDone(h, used) =>
      var (q, v) := HeadersComplete(g, p.(head := h, used := p.used + if used then 1 else 0)); (q, used, v)
  }

  /** The parser, the bytes left over, and the verdict. */
  datatype Result = Result(p: Parser, rest: bytes, verdict: Verdict)

  function InHead(p: Parser): nat { if p.state.Start? || p.state.Headers? then 1 else 0 }

  /** parse on a whole byte string. */
  function Run(g: Config, p: Parser, s: bytes): (r: Result)
    requires Ok(p)
    ensures Ok(r.p)
    ensures r.verdict.More? ==> r.rest == []
    decreases |s|, InHead(p)
  {
    if s == [] then Result(p, [], More)
    else
      var (q, used, v) := Step(g, p, s[0]);
      var rest := if used then s[1..] else s;
      if v.More? then Run(g, q, rest) else Result(q, rest, v)
  }

  /** A new parser for a new message. */
  function NewParser(g: Config, m: Message): Parser {
    Parser(Start, Head(if g.isRequest then MethodStart else VersionH, [], [], [], 0, [], [], [], [], 1, 1, []),
           Chunk(SizeStart, [], 0, 0, []), 0, 0, 0, m)
  }

  const EMPTY_MESSAGE: Message :=
    Message([], [], [], [], [], 0, [], [], 0, [], false, false, StatusNone, false, false)
}
