/** The grammar of the heads that parseHeaders accepts, and its beginnings: one more byte takes
    the parser from one beginning to the next. */
module HttpSyntax {
  import opened Wrappers
  import opened Bytes
  import opened HttpParser
  import opened HttpSegments
  import opened HttpPhases
  import opened HttpPrint

  // ---------------------------------------------------------------- the grammar

  /** The request line up to the version; spaces and empty lines may come before it. */
  datatype Target = Target(lead: bytes, verb: bytes, resource: bytes, query: Option<bytes>)

  /** The first line: the numbers are digits, however many; a response has a status, the code
      and the reason. */
  datatype First = First(target: Option<Target>, major: bytes, minor: bytes, status: Option<(bytes, bytes)>)

  datatype Field = Field(name: bytes, spaced: bool, value: bytes)

  /** A line after the first: a header, which white space may precede, or white space alone. */
  datatype Line = Line(lead: bytes, field: Option<Field>, end: bytes)

  /** A head up to the empty line that ends it. */
  datatype Block = Block(first: First, end: bytes, lines: seq<Line>)

  const PROTOCOL: bytes := [72, 84, 84, 80, 47]

  predicate IsEnd(c: byte) { c == CR || c == LF }

  function Other(c: byte): byte { if c == CR then LF else CR }

  /** Four ways to end a line. */
  predicate EndOk(e: bytes) { |e| in {1, 2} && IsEnd(e[0]) && (|e| == 2 ==> e[1] == Other(e[0])) }

  predicate LeadOk(s: bytes) { forall i :: 0 <= i < |s| ==> s[i] == SP || IsEnd(s[i]) }

  predicate VerbOk(s: bytes) { s != [] && Tokens(s) && |s| <= METHOD_MAX }

  predicate ResourceOk(s: bytes) { NoControls(s) && SP !in s && 63 !in s && |s| <= RESOURCE_MAX }

  predicate QueryOk(s: bytes) { NoControls(s) && SP !in s && |s| <= QUERY_STRING_MAX }

  predicate ReasonOk(s: bytes) { NoControls(s) && |s| <= STATUS_MESSAGE_MAX }

  predicate Blanks(s: bytes) { forall i :: 0 <= i < |s| ==> IsBlank(s[i]) }

  predicate NameOk(s: bytes) { s != [] && Tokens(s) && |s| <= HEADER_NAME_MAX }

  predicate ValueOk(s: bytes) { NoControls(s) && |s| <= HEADER_VALUE_MAX }

  predicate TargetOk(t: Target) {
    LeadOk(t.lead) && VerbOk(t.verb) && ResourceOk(t.resource) && (t.query.Some? ==> QueryOk(t.query.value))
  }

  predicate From(isRequest: bool, target: Option<Target>) {
    isRequest == target.Some? && (target.Some? ==> TargetOk(target.value))
  }

  predicate FirstOk(isRequest: bool, f: First) {
    && From(isRequest, f.target) && f.major != [] && Digits(f.major) && f.minor != [] && Digits(f.minor)
    && isRequest == f.status.None?
    && (f.status.Some? ==> f.status.value.0 != [] && Digits(f.status.value.0) && ReasonOk(f.status.value.1))
  }

  /** A value straight after the colon begins with a token character. */
  predicate IsField(f: Field) {
    NameOk(f.name) && ValueOk(f.value) && (!f.spaced && f.value != [] ==> IsToken(f.value[0]))
  }

  predicate IsLine(l: Line) {
    Blanks(l.lead) && EndOk(l.end) && match l.field case Some(f) => IsField(f) case None => l.lead != []
  }

  predicate BlockOk(isRequest: bool, b: Block) {
    FirstOk(isRequest, b.first) && EndOk(b.end) && forall i :: 0 <= i < |b.lines| ==> IsLine(b.lines[i])
  }

  function LastEnd(b: Block): bytes { if b.lines == [] then b.end else b.lines[|b.lines| - 1].end }

  /** What ends a head, `next` being the byte after it: after a line end of one character the
      same character again; after one of two, either character, with the other if it follows. */
  predicate Closes(b: Block, close: bytes, next: Option<byte>) {
    if |LastEnd(b)| == 1 then close == LastEnd(b)
    else EndOk(close) && (|close| == 1 ==> next.Some? && next.value != Other(close[0]))
  }

  // ---------------------------------------------------------------- texts

  function TargetText(t: Target): bytes {
    t.lead + t.verb + [SP] + t.resource + match t.query case Some(q) => [63] + q case None => []
  }

  function Prefix(target: Option<Target>): bytes { match target case Some(t) => TargetText(t) + [SP] case None => [] }

  function VersionText(f: First): bytes { Prefix(f.target) + PROTOCOL + f.major + [46] + f.minor }

  function FirstText(f: First): bytes {
    VersionText(f) + match f.status case Some(s) => [SP] + s.0 + [SP] + s.1 case None => []
  }

  function FieldText(f: Field): bytes { f.name + [58] + (if f.spaced then [SP] else []) + f.value }

  function LineText(l: Line): bytes { l.lead + (match l.field case Some(f) => FieldText(f) case None => []) + l.end }

  function LinesText(ls: seq<Line>): bytes {
    if ls == [] then [] else LinesText(ls[..|ls| - 1]) + LineText(ls[|ls| - 1])
  }

  function BlockText(b: Block): bytes { FirstText(b.first) + b.end + LinesText(b.lines) }

  function FieldsOf(ls: seq<Line>): Dict {
    if ls == [] then []
    else
      FieldsOf(ls[..|ls| - 1])
      + match ls[|ls| - 1].field case Some(f) => [(f.name, f.value)] case None => []
  }

  // ---------------------------------------------------------------- what has been found

  predicate FoundTarget(h: Head, target: Option<Target>) {
    match target
    case Some(t) =>
      h.verb == t.verb && h.resource == t.resource && h.query == (match t.query case Some(q) => q case None => [])
    case None => true
  }

  predicate FoundFirst(h: Head, f: First) {
    && Digits(f.major) && Digits(f.minor) && (f.status.Some? ==> Digits(f.status.value.0))
    && FoundTarget(h, f.target) && h.major == Uint16(f.major) && h.minor == Uint16(f.minor)
    && (f.status.Some? ==> h.code == Uint16(f.status.value.0) && h.reason == f.status.value.1)
  }

  /** First line and headers are those of the text; numbers are taken modulo 2^16. */
  predicate Found(h: Head, b: Block) { FoundFirst(h, b.first) && h.headers == FieldsOf(b.lines) }

  // ---------------------------------------------------------------- beginnings of a head

  /** How far a head has been read. */
  datatype Start =
    | InLead(lead: bytes)
    | InVerb(t: Target)
    | InResource(t: Target)
    | InQuery(t: Target)
    | InProtocol(target: Option<Target>, n: nat)
    | InMajor(f: First)
    | InMinor(f: First)
    | InCode(f: First)
    | InReason(f: First)
    | AtLine(b: Block)
    | InBlank(b: Block, ws: bytes)
    | InName(b: Block, ws: bytes, name: bytes)
    | AtColon(b: Block, ws: bytes, name: bytes)
    | InValue(b: Block, ws: bytes, field: Field)
    | Wrong

  function StartText(w: Start): bytes {
    match w
    case InLead(lead) => lead
    case InVerb(t) => t.lead + t.verb
    case InResource(t) => TargetText(t)
    case InQuery(t) => TargetText(t)
    case InProtocol(target, n) => Prefix(target) + if n <= 5 then PROTOCOL[..n] else []
    case InMajor(f) => Prefix(f.target) + PROTOCOL + f.major
    case InMinor(f) => VersionText(f)
    case InCode(f) => VersionText(f) + [SP] + (match f.status case Some(s) => s.0 case None => [])
    case InReason(f) => FirstText(f)
    case AtLine(b) => BlockText(b)
    case InBlank(b, ws) => BlockText(b) + ws
    case InName(b, ws, name) => BlockText(b) + ws + name
    case AtColon(b, ws, name) => BlockText(b) + ws + name + [58]
    case InValue(b, ws, f) => BlockText(b) + ws + FieldText(f)
    case Wrong => []
  }

  predicate StartOk(isRequest: bool, w: Start) {
    match w
    case InLead(lead) => isRequest && LeadOk(lead)
    case InVerb(t) => isRequest && TargetOk(t) && t.resource == [] && t.query.None?
    case InResource(t) => isRequest && TargetOk(t) && t.query.None?
    case InQuery(t) => isRequest && TargetOk(t) && t.query.Some?
    case InProtocol(target, n) => From(isRequest, target) && n <= 5
    case InMajor(f) => From(isRequest, f.target) && f.major != [] && Digits(f.major) && f.minor == [] && f.status.None?
    case InMinor(f) => From(isRequest, f.target) && f.major != [] && Digits(f.major) && Digits(f.minor)
        && f.status.None?
    case InCode(f) =>
      && !isRequest && From(isRequest, f.target) && f.major != [] && Digits(f.major) && f.minor != [] && Digits(f.minor)
      && f.status.Some? && Digits(f.status.value.0) && f.status.value.1 == []
    case InReason(f) => !isRequest && FirstOk(isRequest, f)
    case AtLine(b) => BlockOk(isRequest, b)
    case InBlank(b, ws) => BlockOk(isRequest, b) && Blanks(ws) && ws != []
    case InName(b, ws, name) => BlockOk(isRequest, b) && Blanks(ws) && NameOk(name)
    case AtColon(b, ws, name) => BlockOk(isRequest, b) && Blanks(ws) && NameOk(name)
    case InValue(b, ws, f) => BlockOk(isRequest, b) && Blanks(ws) && IsField(f) && (f.spaced || f.value != [])
    case Wrong => false
  }

  function ProtocolState(n: nat): HeaderState {
    if n == 0 then VersionH else if n == 1 then VersionT1 else if n == 2 then VersionT2
    else if n == 3 then VersionP else if n == 4 then VersionSlash else MajorStart
  }

  function LineState(e: bytes): HeaderState {
    if e == [CR] then ExpectNewline else if e == [LF] then ExpectCr else HeaderStart
  }

  /** The parser is that far. */
  predicate At(isRequest: bool, h: Head, w: Start)
    requires StartOk(isRequest, w)
  {
    match w
    case InLead(_) => h.state == MethodStart && h.query == [] && h.headers == []
    case InVerb(t) => h.state == Method && h.verb == t.verb && h.query == [] && h.headers == []
    case InResource(t) => h.state == UriStem && FoundTarget(h, Some(t)) && h.headers == []
    case InQuery(t) => h.state == UriQuery && FoundTarget(h, Some(t)) && h.headers == []
    case InProtocol(target, n) => h.state == ProtocolState(n) && FoundTarget(h, target) && h.headers == []
    case InMajor(f) => h.state == Major && FoundTarget(h, f.target) && h.major == Uint16(f.major) && h.headers == []
    case InMinor(f) =>
      && h.state == (if f.minor == [] then MinorStart else Minor)
      && FoundTarget(h, f.target) && h.major == Uint16(f.major) && h.headers == []
      && (f.minor != [] ==> h.minor == Uint16(f.minor))
    case InCode(f) =>
      && h.state == (if f.status.value.0 == [] then StatusCodeStart else StatusCode)
      && FoundTarget(h, f.target) && h.major == Uint16(f.major) && h.minor == Uint16(f.minor) && h.headers == []
      && (f.status.value.0 != [] ==> h.code == Uint16(f.status.value.0))
    case InReason(f) => h.state == StatusMessage && FoundFirst(h, f) && h.headers == []
    case AtLine(b) => h.state == LineState(LastEnd(b)) && Found(h, b)
    case InBlank(b, _) => h.state == HeaderWhitespace && Found(h, b)
    case InName(b, _, name) => h.state == HeaderName && Found(h, b) && h.name == name
    case AtColon(b, _, name) => h.state == SpaceBeforeValue && Found(h, b) && h.name == name && h.value == []
    case InValue(b, _, f) => h.state == HeaderValue && Found(h, b) && h.name == f.name && h.value == f.value
  }

  // ---------------------------------------------------------------- one more byte

  function OneMore(b: Block, ws: bytes, f: Option<Field>, c: byte): Block {
    b.(lines := b.lines + [Line(ws, f, [c])])
  }

  function WithEnd(b: Block, e: bytes): Block {
    if b.lines == [] then b.(end := e)
    else b.(lines := b.lines[..|b.lines| - 1] + [b.lines[|b.lines| - 1].(end := e)])
  }

  /** The byte may end the head. */
  predicate MayClose(w: Start, c: byte) {
    w.AtLine? && IsEnd(c) && (|LastEnd(w.b)| == 1 ==> c == LastEnd(w.b)[0])
  }

  /** The beginning with one more byte, which does not end the head. */
  function Longer(isRequest: bool, w: Start, c: byte): Start {
    match w
    case InLead(lead) => if c == SP || IsEnd(c) then InLead(lead + [c]) else InVerb(Target(lead, [c], [], None))
    case InVerb(t) => if c == SP then InResource(t) else InVerb(t.(verb := t.verb + [c]))
    case InResource(t) =>
      if c == SP then InProtocol(Some(t), 0) else if c == 63 then InQuery(t.(query := Some([])))
      else InResource(t.(resource := t.resource + [c]))
    case InQuery(t) =>
      if t.query.None? then Wrong else if c == SP then InProtocol(Some(t), 0)
      else InQuery(t.(query := Some(t.query.value + [c])))
    case InProtocol(target, n) =>
      if n < 5 then (if c == PROTOCOL[n] then InProtocol(target, n + 1) else Wrong)
      else InMajor(First(target, [c], [], None))
    case InMajor(f) => if c == 46 then InMinor(f) else InMajor(f.(major := f.major + [c]))
    case InMinor(f) =>
      if f.minor != [] && isRequest && IsEnd(c) then AtLine(Block(f, [c], []))
      else if f.minor != [] && !isRequest && c == SP then InCode(f.(status := Some(([], []))))
      else InMinor(f.(minor := f.minor + [c]))
    case InCode(f) =>
      if f.status.None? then Wrong
      else if f.status.value.0 != [] && c == SP then InReason(f)
      else InCode(f.(status := Some((f.status.value.0 + [c], []))))
    case InReason(f) =>
      if f.status.None? then Wrong
      else if IsEnd(c) then AtLine(Block(f, [c], []))
      else InReason(f.(status := Some((f.status.value.0, f.status.value.1 + [c]))))
    case AtLine(b) =>
      if IsEnd(c) then AtLine(WithEnd(b, LastEnd(b) + [c]))
      else if IsBlank(c) then InBlank(b, [c]) else InName(b, [], [c])
    case InBlank(b, ws) =>
      if IsEnd(c) then AtLine(OneMore(b, ws, None, c))
      else if IsBlank(c) then InBlank(b, ws + [c]) else InName(b, ws, [c])
    case InName(b, ws, name) => if c == 58 then AtColon(b, ws, name) else InName(b, ws, name + [c])
    case AtColon(b, ws, name) =>
      if IsEnd(c) then AtLine(OneMore(b, ws, Some(Field(name, false, [])), c))
      else InValue(b, ws, if c == SP then Field(name, true, []) else Field(name, false, [c]))
    case InValue(b, ws, f) =>
      if IsEnd(c) then AtLine(OneMore(b, ws, Some(f), c)) else InValue(b, ws, f.(value := f.value + [c]))
    case Wrong => Wrong
  }

  lemma Appends(s: bytes, c: byte)
    ensures Tokens(s + [c]) == (Tokens(s) && IsToken(c)) && Digits(s + [c]) == (Digits(s) && IsDigit(c))
    ensures NoControls(s + [c]) == (NoControls(s) && !IsControl(c)) && Blanks(s + [c]) == (Blanks(s) && IsBlank(c))
    ensures LeadOk(s + [c]) == (LeadOk(s) && (c == SP || IsEnd(c)))
  {
    var t := s + [c];
    assert t[|s|] == c && forall i :: 0 <= i < |s| ==> t[i] == s[i];
  }

  lemma Singles(c: byte)
    ensures Tokens([c]) == IsToken(c) && Digits([c]) == IsDigit(c) && Blanks([c]) == IsBlank(c)
    ensures NoControls([]) && Digits([]) && Blanks([]) && (IsToken(c) ==> NoControls([c]))
  {
    assert [c][0] == c;
  }

  lemma StepTarget(isRequest: bool, h: Head, w: Start, c: byte)
    requires StartOk(isRequest, w) && At(isRequest, h, w) && (w.InLead? || w.InVerb? || w.InResource? || w.InQuery?)
    ensures var w', out := Longer(isRequest, w, c), HeadSwitch(isRequest, h, c);
            if StartOk(isRequest, w') then out.HMore? && At(isRequest, out.h, w') else out.HFail?
  {
    hide Tokens, NoControls, LeadOk, IsToken, IsControl;
    Singles(c);
    match w {
      case InLead(lead) => Appends(lead, c);
      case InVerb(t) => Appends(t.verb, c);
      case InResource(t) => Appends(t.resource, c);
      case InQuery(t) => Appends(t.query.value, c);
    }
  }

  lemma StepProtocol(isRequest: bool, h: Head, w: Start, c: byte)
    requires StartOk(isRequest, w) && At(isRequest, h, w) && w.InProtocol? && w.n < 5
    ensures var w', out := Longer(isRequest, w, c), HeadSwitch(isRequest, h, c);
            if StartOk(isRequest, w') then out.HMore? && At(isRequest, out.h, w') else out.HFail?
  {
    hide From;
  }

  lemma StepVersion(isRequest: bool, h: Head, w: Start, c: byte)
    requires StartOk(isRequest, w) && At(isRequest, h, w) && w.InProtocol? && w.n == 5
    ensures var w', out := Longer(isRequest, w, c), HeadSwitch(isRequest, h, c);
            if StartOk(isRequest, w') then out.HMore? && At(isRequest, out.h, w') else out.HFail?
  {
    hide Digits, From, Uint16;
    Singles(c);
    if IsDigit(c) {
      NumberGrows([], c);
      assert [] + [c] == [c];
    }
  }

  lemma NumberGrows(ds: bytes, c: byte)
    requires Digits(ds) && IsDigit(c)
    ensures Digits(ds + [c]) && Uint16(ds + [c]) == if ds == [] then c - 48 else Shift(Uint16(ds), c)
  {
    Appends(ds, c);
    if ds == [] {
      FirstDigit(c);
      assert ds + [c] == [c];
    } else {
      ShiftDigit(ds, c);
    }
  }

  lemma StepMajor(isRequest: bool, h: Head, w: Start, c: byte)
    requires StartOk(isRequest, w) && At(isRequest, h, w) && w.InMajor?
    ensures var w', out := Longer(isRequest, w, c), HeadSwitch(isRequest, h, c);
            if StartOk(isRequest, w') then out.HMore? && At(isRequest, out.h, w') else out.HFail?
  {
    hide Digits, NoControls, TargetOk, IsControl, IsDigit, Shift, Uint16;
    Singles(c);
    Appends(w.f.major, c);
    if IsDigit(c) {
      NumberGrows(w.f.major, c);
    }
    NotDigits(c);
  }

  lemma StepMinor(isRequest: bool, h: Head, w: Start, c: byte)
    requires StartOk(isRequest, w) && At(isRequest, h, w) && w.InMinor?
    ensures var w', out := Longer(isRequest, w, c), HeadSwitch(isRequest, h, c);
            if StartOk(isRequest, w') then out.HMore? && At(isRequest, out.h, w') else out.HFail?
  {
    hide Digits, NoControls, TargetOk, IsControl, IsDigit, Shift, Uint16;
    Singles(c);
    Appends(w.f.minor, c);
    if IsDigit(c) {
      NumberGrows(w.f.minor, c);
    }
    NotDigits(c);
  }

  lemma StepCode(isRequest: bool, h: Head, w: Start, c: byte)
    requires StartOk(isRequest, w) && At(isRequest, h, w) && w.InCode?
    ensures var w', out := Longer(isRequest, w, c), HeadSwitch(isRequest, h, c);
            if StartOk(isRequest, w') then out.HMore? && At(isRequest, out.h, w') else out.HFail?
  {
    hide Digits, NoControls, TargetOk, IsControl, IsDigit, Shift, Uint16;
    Singles(c);
    Appends(w.f.status.value.0, c);
    if IsDigit(c) {
      NumberGrows(w.f.status.value.0, c);
    }
    NotDigits(c);
  }

  lemma StepReason(isRequest: bool, h: Head, w: Start, c: byte)
    requires StartOk(isRequest, w) && At(isRequest, h, w) && w.InReason?
    ensures var w', out := Longer(isRequest, w, c), HeadSwitch(isRequest, h, c);
            if StartOk(isRequest, w') then out.HMore? && At(isRequest, out.h, w') else out.HFail?
  {
    hide Digits, NoControls, TargetOk, IsControl, IsDigit, Shift, Uint16;
    Singles(c);
    Appends(w.f.status.value.1, c);
    NotDigits(c);
  }

  lemma NotDigits(c: byte)
    ensures IsDigit(c) ==> !IsEnd(c) && c != SP && c != 46
  {
  }

  // ---------------------------------------------------------------- the header lines

  lemma BlockGrows(isRequest: bool, h: Head, b: Block, ws: bytes, f: Option<Field>, c: byte)
    requires BlockOk(isRequest, b) && Blanks(ws) && IsEnd(c) && (if f.Some? then IsField(f.value) else ws != [])
    requires Found(h, b)
    ensures BlockOk(isRequest, OneMore(b, ws, f, c)) && LastEnd(OneMore(b, ws, f, c)) == [c]
    ensures var h' := h.(headers := h.headers + (match f case Some(x) => [(x.name, x.value)] case None => []));
            Found(h', OneMore(b, ws, f, c))
  {
    hide FirstOk, Uint16, IsField;
    var ls := b.lines + [Line(ws, f, [c])];
    assert ls[..|ls| - 1] == b.lines;
    assert FirstOk(isRequest, b.first);
  }

  lemma EndGrows(isRequest: bool, h: Head, b: Block, c: byte)
    requires BlockOk(isRequest, b) && Found(h, b) && |LastEnd(b)| == 1 && c == Other(LastEnd(b)[0])
    ensures var b' := WithEnd(b, LastEnd(b) + [c]);
            BlockOk(isRequest, b') && LastEnd(b') == LastEnd(b) + [c] && Found(h, b')
  {
    hide FirstOk, FoundFirst, IsField;
    if b.lines != [] {
      var n := |b.lines| - 1;
      var ls := WithEnd(b, LastEnd(b) + [c]).lines;
      assert ls[..n] == b.lines[..n];
    }
  }

  /** State, name and value do not matter. */
  lemma FoundStays(h: Head, state: HeaderState, name: bytes, value: bytes, b: Block)
    ensures Found(h.(state := state, name := name, value := value), b) == Found(h, b)
    ensures Found(h.(state := state), b) == Found(h, b)
  {
    hide Uint16, FieldsOf;
  }

  lemma StepLineBegins(isRequest: bool, h: Head, w: Start, c: byte)
    requires StartOk(isRequest, w) && At(isRequest, h, w) && w.AtLine? && !IsEnd(c)
    ensures var w', out := Longer(isRequest, w, c), HeadSwitch(isRequest, h, c);
            if StartOk(isRequest, w') then out.HMore? && At(isRequest, out.h, w') else out.HFail?
  {
    hide Tokens, Blanks, IsToken, BlockOk, Found;
    Singles(c);
    FoundStays(h, HeaderWhitespace, h.name, h.value, w.b);
    FoundStays(h, HeaderName, [c], h.value, w.b);
  }

  lemma StepEndGrows(isRequest: bool, h: Head, w: Start, c: byte)
    requires StartOk(isRequest, w) && At(isRequest, h, w) && w.AtLine? && IsEnd(c) && !MayClose(w, c)
    ensures var w', out := Longer(isRequest, w, c), HeadSwitch(isRequest, h, c);
            if StartOk(isRequest, w') then out.HMore? && At(isRequest, out.h, w') else out.HFail?
  {
    hide BlockOk, Found, WithEnd;
    LastEndOk(isRequest, w.b);
    EndGrows(isRequest, h, w.b, c);
    FoundStays(h, HeaderStart, h.name, h.value, WithEnd(w.b, LastEnd(w.b) + [c]));
  }

  lemma LastEndOk(isRequest: bool, b: Block)
    requires BlockOk(isRequest, b)
    ensures EndOk(LastEnd(b))
  {
  }

  /** The parser after a line has ended. */
  lemma LineEnds(isRequest: bool, h: Head, h': Head, b: Block, ws: bytes, f: Option<Field>, c: byte)
    requires BlockOk(isRequest, b) && Blanks(ws) && IsEnd(c) && (if f.Some? then IsField(f.value) else ws != [])
    requires Found(h, b)
    requires h' == h.(headers := h.headers + (match f case Some(x) => [(x.name, x.value)] case None => []),
                      state := LineState([c]))
    ensures StartOk(isRequest, AtLine(OneMore(b, ws, f, c))) && At(isRequest, h', AtLine(OneMore(b, ws, f, c)))
  {
    hide BlockOk, Found, Blanks, IsField, LineState;
    BlockGrows(isRequest, h, b, ws, f, c);
    FoundStays(h'.(state := h.state), LineState([c]), h.name, h.value, OneMore(b, ws, f, c));
    assert h'.(state := h.state)
           == h.(headers := h.headers + (match f case Some(x) => [(x.name, x.value)] case None => []));
  }

  lemma StepBlank(isRequest: bool, h: Head, w: Start, c: byte)
    requires StartOk(isRequest, w) && At(isRequest, h, w) && w.InBlank?
    ensures var w', out := Longer(isRequest, w, c), HeadSwitch(isRequest, h, c);
            if StartOk(isRequest, w') then out.HMore? && At(isRequest, out.h, w') else out.HFail?
  {
    hide Tokens, Blanks, IsToken, BlockOk, Found, OneMore;
    Singles(c);
    Appends(w.ws, c);
    FoundStays(h, HeaderName, [c], h.value, w.b);
    if IsEnd(c) {
      assert h.headers + [] == h.headers;
      LineEnds(isRequest, h, h.(state := LineState([c])), w.b, w.ws, None, c);
    }
  }

  lemma StepName(isRequest: bool, h: Head, w: Start, c: byte)
    requires StartOk(isRequest, w) && At(isRequest, h, w) && w.InName?
    ensures var w', out := Longer(isRequest, w, c), HeadSwitch(isRequest, h, c);
            if StartOk(isRequest, w') then out.HMore? && At(isRequest, out.h, w') else out.HFail?
  {
    hide Tokens, Blanks, IsToken, BlockOk, Found;
    Appends(w.name, c);
    FoundStays(h, HeaderName, w.name + [c], h.value, w.b);
    FoundStays(h, SpaceBeforeValue, h.name, [], w.b);
  }

  lemma StepColonEnds(isRequest: bool, h: Head, w: Start, c: byte)
    requires StartOk(isRequest, w) && At(isRequest, h, w) && w.AtColon? && IsEnd(c)
    ensures var w', out := Longer(isRequest, w, c), HeadSwitch(isRequest, h, c);
            if StartOk(isRequest, w') then out.HMore? && At(isRequest, out.h, w') else out.HFail?
  {
    hide Tokens, NoControls, Blanks, IsToken, IsControl, BlockOk, Found, OneMore;
    Singles(c);
    LineEnds(isRequest, h, LineEnd(h, c).(headers := h.headers + [(h.name, h.value)]), w.b, w.ws,
             Some(Field(w.name, false, [])), c);
  }

  lemma StepColonValue(isRequest: bool, h: Head, w: Start, c: byte)
    requires StartOk(isRequest, w) && At(isRequest, h, w) && w.AtColon? && !IsEnd(c)
    ensures var w', out := Longer(isRequest, w, c), HeadSwitch(isRequest, h, c);
            if StartOk(isRequest, w') then out.HMore? && At(isRequest, out.h, w') else out.HFail?
  {
    hide Tokens, NoControls, Blanks, IsToken, IsControl, BlockOk, Found, NameOk;
    Singles(c);
    if c == SP {
      FoundStays(h, HeaderValue, h.name, [], w.b);
    } else {
      FoundStays(h, HeaderValue, h.name, [c], w.b);
      assert h.value + [c] == [c];
    }
  }

  lemma ValueGrows(f: Field, c: byte)
    requires IsField(f) && (f.spaced || f.value != [])
    ensures IsField(f.(value := f.value + [c])) <==> !IsControl(c) && |f.value| < HEADER_VALUE_MAX
  {
    hide Tokens, NoControls, IsToken, IsControl;
    Appends(f.value, c);
    assert f.value != [] ==> (f.value + [c])[0] == f.value[0];
  }

  lemma StepValue(isRequest: bool, h: Head, w: Start, c: byte)
    requires StartOk(isRequest, w) && At(isRequest, h, w) && w.InValue?
    ensures var w', out := Longer(isRequest, w, c), HeadSwitch(isRequest, h, c);
            if StartOk(isRequest, w') then out.HMore? && At(isRequest, out.h, w') else out.HFail?
  {
    hide IsField, Blanks, IsControl, BlockOk, Found, OneMore;
    if IsEnd(c) {
      LineEnds(isRequest, h, LineEnd(h, c).(headers := h.headers + [(h.name, h.value)]), w.b, w.ws, Some(w.field), c);
    } else {
      ValueGrows(w.field, c);
      FoundStays(h, HeaderValue, h.name, h.value + [c], w.b);
    }
  }

  lemma NotWrong(isRequest: bool, w: Start)
    requires StartOk(isRequest, w)
    ensures !w.Wrong? && (w.InProtocol? ==> w.n <= 5)
  {
  }

  /** One more byte, which does not end the head: the parser goes on exactly if the longer
      text is still the beginning of a head. */
  lemma StepAt(isRequest: bool, h: Head, w: Start, c: byte)
    requires StartOk(isRequest, w) && At(isRequest, h, w) && !MayClose(w, c)
    ensures var w', out := Longer(isRequest, w, c), HeadSwitch(isRequest, h, c);
            if StartOk(isRequest, w') then out.HMore? && At(isRequest, out.h, w') else out.HFail?
  {
    hide StartOk, At, HeadSwitch, Longer, MayClose;
    assert !w.Wrong? by { NotWrong(isRequest, w); }
    match w
    case InLead(_) | InVerb(_) | InResource(_) | InQuery(_) => StepTarget(isRequest, h, w, c);
    case InProtocol(_, n) =>
      assert n <= 5 by { NotWrong(isRequest, w); }
      if n < 5 {
        StepProtocol(isRequest, h, w, c);
      } else {
        StepVersion(isRequest, h, w, c);
      }
    case InMajor(_) => StepMajor(isRequest, h, w, c);
    case InMinor(_) => StepMinor(isRequest, h, w, c);
    case InCode(_) => StepCode(isRequest, h, w, c);
    case InReason(_) => StepReason(isRequest, h, w, c);
    case AtLine(_) =>
      if IsEnd(c) {
        StepEndGrows(isRequest, h, w, c);
      } else {
        StepLineBegins(isRequest, h, w, c);
      }
    case InBlank(_, _) => StepBlank(isRequest, h, w, c);
    case InName(_, _, _) => StepName(isRequest, h, w, c);
    case AtColon(_, _, _) =>
      if IsEnd(c) {
        StepColonEnds(isRequest, h, w, c);
      } else {
        StepColonValue(isRequest, h, w, c);
      }
    case InValue(_, _, _) => StepValue(isRequest, h, w, c);
  }

  lemma BlockTextGrows(b: Block, ws: bytes, f: Option<Field>, c: byte)
    ensures BlockText(OneMore(b, ws, f, c))
            == BlockText(b) + ws + (match f case Some(x) => FieldText(x) case None => []) + [c]
  {
    hide FirstText, FieldText;
    var ls := b.lines + [Line(ws, f, [c])];
    assert ls[..|ls| - 1] == b.lines;
  }

  lemma EndTextGrows(b: Block, c: byte)
    ensures BlockText(WithEnd(b, LastEnd(b) + [c])) == BlockText(b) + [c]
  {
    hide FirstText, FieldText;
    if b.lines != [] {
      var n := |b.lines| - 1;
      var ls := WithEnd(b, LastEnd(b) + [c]).lines;
      assert ls[..n] == b.lines[..n];
    }
  }

  lemma TargetTextLonger(isRequest: bool, w: Start, c: byte)
    requires StartOk(isRequest, w) && StartOk(isRequest, Longer(isRequest, w, c))
             && (w.InLead? || w.InVerb? || w.InResource? || w.InQuery?)
    ensures StartText(Longer(isRequest, w, c)) == StartText(w) + [c]
  {
    hide VerbOk, ResourceOk, QueryOk, From, Digits, IsField, FirstOk, BlockOk, NameOk, LeadOk, Blanks;
  }

  lemma ProtocolTextLonger(isRequest: bool, w: Start, c: byte)
    requires StartOk(isRequest, w) && StartOk(isRequest, Longer(isRequest, w, c)) && w.InProtocol?
    ensures StartText(Longer(isRequest, w, c)) == StartText(w) + [c]
  {
    hide TargetOk, From, Digits, IsField, FirstOk, BlockOk, NameOk, LeadOk, Blanks;
    hide Prefix;
    if w.n == 5 {
      assert PROTOCOL[..5] == PROTOCOL;
    } else {
      assert PROTOCOL[..w.n] + [c] == PROTOCOL[..w.n + 1];
    }
  }

  lemma VersionTextLonger(isRequest: bool, w: Start, c: byte)
    requires StartOk(isRequest, w) && StartOk(isRequest, Longer(isRequest, w, c)) && (w.InMajor? || w.InMinor?)
    ensures StartText(Longer(isRequest, w, c)) == StartText(w) + [c]
  {
    hide TargetOk, From, Digits, IsField, FirstOk, BlockOk, NameOk, LeadOk, Blanks;
    hide Prefix;
  }

  lemma StatusTextLonger(isRequest: bool, w: Start, c: byte)
    requires StartOk(isRequest, w) && StartOk(isRequest, Longer(isRequest, w, c)) && (w.InCode? || w.InReason?)
    ensures StartText(Longer(isRequest, w, c)) == StartText(w) + [c]
  {
    hide TargetOk, From, Digits, IsField, FirstOk, BlockOk, NameOk, LeadOk, Blanks;
    hide VersionText;
    assert VersionText(w.f) == VersionText(w.f.(status := None)) by { SameVersion(w.f); }
    SameVersion(w.f.(status := Some((w.f.status.value.0 + [c], []))));
    SameVersion(w.f.(status := Some((w.f.status.value.0, w.f.status.value.1 + [c]))));
  }

  lemma SameVersion(f: First)
    ensures VersionText(f) == VersionText(f.(status := None))
  {
  }

  lemma LineTextLonger(isRequest: bool, w: Start, c: byte)
    requires StartOk(isRequest, w) && StartOk(isRequest, Longer(isRequest, w, c)) && (w.AtLine? || w.InBlank?)
             && !MayClose(w, c)
    ensures StartText(Longer(isRequest, w, c)) == StartText(w) + [c]
  {
    hide BlockOk, BlockText, OneMore, WithEnd, IsField, Blanks, NameOk;
    EndTextGrows(w.b, c);
    if w.InBlank? {
      BlockTextGrows(w.b, w.ws, None, c);
      assert BlockText(w.b) + w.ws + [] == BlockText(w.b) + w.ws;
    }
  }

  lemma NameTextLonger(isRequest: bool, w: Start, c: byte)
    requires w.InName? || w.AtColon?
    ensures StartText(Longer(isRequest, w, c)) == StartText(w) + [c]
  {
    hide BlockText, OneMore;
    var t := BlockText(w.b) + w.ws;
    if w.AtColon? {
      BlockTextGrows(w.b, w.ws, Some(Field(w.name, false, [])), c);
      assert t + (w.name + [58] + [] + []) == t + w.name + [58];
      assert t + (w.name + [58] + [SP] + []) == t + w.name + [58] + [SP];
      assert t + (w.name + [58] + [] + [c]) == t + w.name + [58] + [c];
    } else {
      assert t + (w.name + [c]) == t + w.name + [c];
    }
  }

  lemma ValueTextLonger(isRequest: bool, w: Start, c: byte)
    requires w.InValue?
    ensures StartText(Longer(isRequest, w, c)) == StartText(w) + [c]
  {
    hide BlockText, OneMore;
    BlockTextGrows(w.b, w.ws, Some(w.field), c);
    assert FieldText(w.field.(value := w.field.value + [c])) == FieldText(w.field) + [c];
  }

  lemma TextLonger(isRequest: bool, w: Start, c: byte)
    requires StartOk(isRequest, w) && StartOk(isRequest, Longer(isRequest, w, c)) && !MayClose(w, c)
    ensures StartText(Longer(isRequest, w, c)) == StartText(w) + [c]
  {
    hide StartOk, StartText, Longer, MayClose;
    assert !w.Wrong? by { NotWrong(isRequest, w); }
    match w
    case InLead(_) | InVerb(_) | InResource(_) | InQuery(_) => TargetTextLonger(isRequest, w, c);
    case InProtocol(_, _) => ProtocolTextLonger(isRequest, w, c);
    case InMajor(_) | InMinor(_) => VersionTextLonger(isRequest, w, c);
    case InCode(_) | InReason(_) => StatusTextLonger(isRequest, w, c);
    case AtLine(_) | InBlank(_, _) => LineTextLonger(isRequest, w, c);
    case InName(_, _, _) | AtColon(_, _, _) => NameTextLonger(isRequest, w, c);
    case InValue(_, _, _) => ValueTextLonger(isRequest, w, c);
  }
}
