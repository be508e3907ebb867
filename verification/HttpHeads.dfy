/** Exactly which heads parseHeaders accepts, byte for byte, and what it finds in them. */
module HttpHeads {
  import opened Wrappers
  import opened Bytes
  import opened HttpParser
  import opened HttpSegments
  import opened HttpPhases
  import opened HttpPrint
  import opened HttpSyntax

  // ---------------------------------------------------------------- whatever is accepted is a head

  lemma AtRaw(isRequest: bool, h: Head, raw: bytes, w: Start)
    requires StartOk(isRequest, w) && At(isRequest, h, w)
    ensures At(isRequest, h.(raw := raw), w)
  {
    hide Uint16, Digits, FieldsOf;
  }

  /** The end of a head, after a line end of one character... */
  lemma ClosesShort(g: Config, h: Head, b: Block, s: bytes)
    requires BlockOk(g.isRequest, b) && At(g.isRequest, h, AtLine(b)) && s != [] && MayClose(AtLine(b), s[0])
             && |LastEnd(b)| == 1
    ensures var r := HeadRun(g, h, s); r.verdict.Done? && r.n == 1 && Found(r.h, b)
  {
    hide BlockOk, FoundFirst;
    LastEndOk(g.isRequest, b);
  }

  /** ... and after one of two. */
  lemma ClosesLong(g: Config, h: Head, b: Block, s: bytes)
    requires BlockOk(g.isRequest, b) && At(g.isRequest, h, AtLine(b)) && s != [] && MayClose(AtLine(b), s[0])
             && |LastEnd(b)| == 2
    ensures var r := HeadRun(g, h, s);
            if |s| == 1 then r.verdict.More?
            else r.verdict.Done? && r.n == (if s[1] == Other(s[0]) then 2 else 1) && Found(r.h, b)
  {
    hide BlockOk, FoundFirst;
    var state := if s[0] == CR then ExpectFinalNewline else ExpectFinalCr;
    assert HeadSwitch(g.isRequest, h, s[0]) == HMore(h.(state := state));
    var h' := HeadStep(g, h, s[0]).h;
    FinalStays(h, h', b);
    if |s| > 1 {
      assert HeadStep(g, h', s[1]) == HDone(h', s[1] == Other(s[0]));
    }
  }

  /** State and raw headers do not matter. */
  lemma FinalStays(h: Head, h': Head, b: Block)
    requires h' == h.(state := h'.state, raw := h'.raw)
    ensures Found(h', b) == Found(h, b)
  {
    hide Uint16, FieldsOf;
  }

  function Next(s: bytes, n: nat): Option<byte> { if n < |s| then Some(s[n]) else None }

  /** Whatever is accepted is a head, and what has been found is what it says. */
  lemma {:induction false} HeadSound(g: Config, h: Head, w: Start, s: bytes) returns (b: Block, close: bytes)
    requires StartOk(g.isRequest, w) && At(g.isRequest, h, w) && HeadRun(g, h, s).verdict.Done?
    ensures var r := HeadRun(g, h, s);
            && BlockOk(g.isRequest, b) && Closes(b, close, Next(s, r.n)) && Found(r.h, b)
            && BlockText(b) + close == StartText(w) + s[..r.n]
    decreases |s|
  {
    hide StartOk, At, HeadSwitch, Longer, MayClose, BlockOk, Found, StartText, BlockText;
    var c, n := s[0], HeadRun(g, h, s).n;
    if MayClose(w, c) {
      CloseFacts(g.isRequest, w, c);
      b := w.b;
      if |LastEnd(b)| == 1 {
        ClosesShort(g, h, b, s);
      } else {
        ClosesLong(g, h, b, s);
      }
      close := s[..n];
    } else {
      StepAt(g.isRequest, h, w, c);
      var w' := Longer(g.isRequest, w, c);
      assert StartOk(g.isRequest, w');
      TextLonger(g.isRequest, w, c);
      var h' := HeadSwitch(g.isRequest, h, c).h;
      AtRaw(g.isRequest, h', h'.raw + [c], w');
      b, close := HeadSound(g, HeadStep(g, h, c).h, w', s[1..]);
      assert StartText(w) + [c] + s[1..][..n - 1] == StartText(w) + s[..n];
    }
  }

  lemma CloseFacts(isRequest: bool, w: Start, c: byte)
    requires StartOk(isRequest, w) && MayClose(w, c)
    ensures w.AtLine? && BlockOk(isRequest, w.b) && EndOk(LastEnd(w.b)) && IsEnd(c) && StartText(w) == BlockText(w.b)
    ensures |LastEnd(w.b)| == 1 ==> LastEnd(w.b) == [c]
  {
    LastEndOk(isRequest, w.b);
  }

  // ---------------------------------------------------------------- every head is accepted

  /** The block without its last line. */
  function Fewer(b: Block): Block
    requires b.lines != []
  {
    b.(lines := b.lines[..|b.lines| - 1])
  }

  function Init(s: bytes): bytes
    requires s != []
  {
    s[..|s| - 1]
  }

  /** A beginning but for its last byte. */
  function Shorter(w: Start): Start {
    match w
    case InLead(lead) => if lead == [] then Wrong else InLead(Init(lead))
    case InVerb(t) => if |t.verb| <= 1 then InLead(t.lead) else InVerb(t.(verb := Init(t.verb)))
    case InResource(t) => if t.resource == [] then InVerb(t) else InResource(t.(resource := Init(t.resource)))
    case InQuery(t) =>
      if t.query.None? then Wrong else if t.query.value == [] then InResource(t.(query := None))
      else InQuery(t.(query := Some(Init(t.query.value))))
    case InProtocol(target, n) =>
      if n > 0 then InProtocol(target, n - 1) else if target.None? then Wrong
      else if target.value.query.Some? then InQuery(target.value) else InResource(target.value)
    case InMajor(f) => if |f.major| <= 1 then InProtocol(f.target, 5) else InMajor(f.(major := Init(f.major)))
    case InMinor(f) => if f.minor == [] then InMajor(f) else InMinor(f.(minor := Init(f.minor)))
    case InCode(f) =>
      if f.status.None? then Wrong else if f.status.value.0 == [] then InMinor(f.(status := None))
      else InCode(f.(status := Some((Init(f.status.value.0), []))))
    case InReason(f) =>
      if f.status.None? then Wrong else if f.status.value.1 == [] then InCode(f)
      else InReason(f.(status := Some((f.status.value.0, Init(f.status.value.1)))))
    case AtLine(b) => Unended(b)
    case InBlank(b, ws) => if |ws| <= 1 then AtLine(b) else InBlank(b, Init(ws))
    case InName(b, ws, name) =>
      if |name| > 1 then InName(b, ws, Init(name)) else if ws == [] then AtLine(b) else InBlank(b, ws)
    case AtColon(b, ws, name) => InName(b, ws, name)
    case InValue(b, ws, f) => Before(b, ws, f)
    case Wrong => Wrong
  }

  /** A block without the last byte of its last line end. */
  function Unended(b: Block): Start {
    if |LastEnd(b)| == 2 then AtLine(WithEnd(b, Init(LastEnd(b))))
    else if b.lines == [] then (if b.first.status.Some? then InReason(b.first) else InMinor(b.first))
    else
      var l := b.lines[|b.lines| - 1];
      match l.field
      case None => InBlank(Fewer(b), l.lead)
      case Some(f) =>
        if f.spaced || f.value != [] then InValue(Fewer(b), l.lead, f) else AtColon(Fewer(b), l.lead, f.name)
  }

  lemma Inits(s: bytes)
    requires s != []
    ensures Init(s) + [s[|s| - 1]] == s
    ensures Tokens(s) ==> Tokens(Init(s)) && IsToken(s[|s| - 1])
    ensures Digits(s) ==> Digits(Init(s)) && IsDigit(s[|s| - 1])
    ensures NoControls(s) ==> NoControls(Init(s)) && !IsControl(s[|s| - 1])
    ensures Blanks(s) ==> Blanks(Init(s)) && IsBlank(s[|s| - 1])
    ensures LeadOk(s) ==> LeadOk(Init(s)) && (s[|s| - 1] == SP || IsEnd(s[|s| - 1]))
  {
  }

  lemma InitDigits(s: bytes)
    requires s != [] && Digits(s)
    ensures Init(s) + [Final(s)] == s && Digits(Init(s)) && IsDigit(Final(s)) && (|s| == 1 ==> s == [Final(s)])
  {
  }

  lemma InitBlanks(s: bytes)
    requires s != [] && Blanks(s)
    ensures Init(s) + [Final(s)] == s && Blanks(Init(s)) && IsBlank(Final(s)) && (|s| == 1 ==> s == [Final(s)])
  {
  }

  lemma InitName(s: bytes)
    requires NameOk(s)
    ensures if |s| == 1 then s == [Final(s)] else Init(s) + [Final(s)] == s && NameOk(Init(s))
    ensures IsToken(Final(s))
  {
  }

  lemma InitField(f: Field)
    requires IsField(f) && f.value != []
    ensures Init(f.value) + [Final(f.value)] == f.value && !IsControl(Final(f.value))
    ensures f.spaced || |f.value| > 1 ==> IsField(f.(value := Init(f.value)))
    ensures !f.spaced && |f.value| == 1 ==> f.value == [Final(f.value)] && IsToken(Final(f.value))
  {
  }

  /** The last byte of a beginning. */
  function LastByte(w: Start): byte {
    match w
    case InLead(lead) => Final(lead)
    case InVerb(t) => Final(t.verb)
    case InResource(t) => if t.resource == [] then SP else Final(t.resource)
    case InQuery(t) => if t.query.None? || t.query.value == [] then 63 else Final(t.query.value)
    case InProtocol(_, n) => if 0 < n <= 5 then PROTOCOL[n - 1] else SP
    case InMajor(f) => Final(f.major)
    case InMinor(f) => if f.minor == [] then 46 else Final(f.minor)
    case InCode(f) => if f.status.None? || f.status.value.0 == [] then SP else Final(f.status.value.0)
    case InReason(f) => if f.status.None? || f.status.value.1 == [] then SP else Final(f.status.value.1)
    case AtLine(b) => Final(LastEnd(b))
    case InBlank(_, ws) => Final(ws)
    case InName(_, _, name) => Final(name)
    case AtColon(_, _, _) => 58
    case InValue(_, _, f) => if f.value == [] then SP else Final(f.value)
    case Wrong => SP
  }

  function Final(s: bytes): byte { if s == [] then SP else s[|s| - 1] }

  /** Nothing has been read. */
  predicate Empty(w: Start) { (w.InLead? && w.lead == []) || (w.InProtocol? && w.target.None? && w.n == 0) }

  lemma LastOfTarget(isRequest: bool, w: Start)
    requires StartOk(isRequest, w) && !Empty(w) && (w.InLead? || w.InVerb? || w.InResource? || w.InQuery?
             || w.InProtocol?)
    ensures StartOk(isRequest, Shorter(w)) && Longer(isRequest, Shorter(w), LastByte(w)) == w
    ensures !MayClose(Shorter(w), LastByte(w))
  {
    hide Tokens, NoControls, LeadOk, IsToken, IsControl;
    TokenIsNoSpace(LastByte(w));
    match w {
      case InLead(lead) => Inits(lead);
      case InVerb(t) =>
        Inits(t.verb);
        Singles(LastByte(w));
      case InResource(t) => if t.resource != [] { Inits(t.resource); }
      case InQuery(t) => if t.query.value != [] { Inits(t.query.value); }
      case InProtocol(_, _) =>
    }
  }

  lemma TokenIsNoSpace(c: byte)
    ensures IsToken(c) ==> c != SP && !IsEnd(c) && c != 58 && !IsBlank(c)
  {
  }

  lemma LastOfMajor(isRequest: bool, w: Start)
    requires StartOk(isRequest, w) && w.InMajor?
    ensures StartOk(isRequest, Shorter(w)) && Longer(isRequest, Shorter(w), LastByte(w)) == w
    ensures !MayClose(Shorter(w), LastByte(w))
  {
    hide Digits, IsDigit, From, Init, Final;
    var c, f := Final(w.f.major), w.f;
    InitDigits(f.major);
    NotDigits(c);
    if |f.major| == 1 {
      assert Longer(isRequest, InProtocol(f.target, 5), c) == InMajor(First(f.target, [c], [], None));
    } else {
      assert Longer(isRequest, InMajor(f.(major := Init(f.major))), c) == InMajor(f.(major := Init(f.major) + [c]));
    }
  }

  lemma LastOfMinor(isRequest: bool, w: Start)
    requires StartOk(isRequest, w) && w.InMinor?
    ensures StartOk(isRequest, Shorter(w)) && Longer(isRequest, Shorter(w), LastByte(w)) == w
    ensures !MayClose(Shorter(w), LastByte(w))
  {
    hide Digits, NoControls, IsDigit, IsControl, TargetOk, From;
    NotDigits(LastByte(w));
    NothingIsFine(SP);
    if w.f.minor != [] {
      Inits(w.f.minor);
    }
  }

  lemma LastOfCode(isRequest: bool, w: Start)
    requires StartOk(isRequest, w) && w.InCode?
    ensures StartOk(isRequest, Shorter(w)) && Longer(isRequest, Shorter(w), LastByte(w)) == w
    ensures !MayClose(Shorter(w), LastByte(w))
  {
    hide Digits, NoControls, IsDigit, IsControl, TargetOk, From;
    NotDigits(LastByte(w));
    NothingIsFine(SP);
    if w.f.status.value.0 != [] {
      Inits(w.f.status.value.0);
    }
  }

  lemma LastOfReason(isRequest: bool, w: Start)
    requires StartOk(isRequest, w) && w.InReason?
    ensures StartOk(isRequest, Shorter(w)) && Longer(isRequest, Shorter(w), LastByte(w)) == w
    ensures !MayClose(Shorter(w), LastByte(w))
  {
    hide Digits, NoControls, IsDigit, IsControl, TargetOk, From;
    NothingIsFine(LastByte(w));
    if w.f.status.value.1 != [] {
      Inits(w.f.status.value.1);
    }
  }

  lemma NothingIsFine(c: byte)
    ensures Digits([]) && NoControls([]) && (!IsControl(c) ==> !IsEnd(c))
  {
  }

  lemma LastOfBlock(isRequest: bool, b: Block)
    requires BlockOk(isRequest, b)
    ensures StartOk(isRequest, Unended(b)) && Longer(isRequest, Unended(b), Final(LastEnd(b))) == AtLine(b)
    ensures !MayClose(Unended(b), Final(LastEnd(b)))
  {
    hide StartOk, Longer, MayClose, BlockOk, Unended;
    LastEndOk(isRequest, b);
    if |LastEnd(b)| == 2 {
      LastOfEnd(isRequest, b);
    } else if b.lines == [] {
      LastOfFirst(isRequest, b);
    } else {
      LastOfLines(isRequest, b);
    }
  }

  lemma LastOfFirst(isRequest: bool, b: Block)
    requires BlockOk(isRequest, b) && b.lines == [] && |b.end| == 1
    ensures StartOk(isRequest, Unended(b)) && Longer(isRequest, Unended(b), Final(LastEnd(b))) == AtLine(b)
    ensures !MayClose(Unended(b), Final(LastEnd(b)))
  {
    hide FirstOk;
    FirstIsDone(isRequest, b.first);
    assert b.end == [Final(b.end)];
  }

  lemma LastOfLines(isRequest: bool, b: Block)
    requires BlockOk(isRequest, b) && b.lines != [] && |LastEnd(b)| == 1
    ensures StartOk(isRequest, Unended(b)) && Longer(isRequest, Unended(b), Final(LastEnd(b))) == AtLine(b)
    ensures !MayClose(Unended(b), Final(LastEnd(b)))
  {
    hide FirstOk, Blanks, NameOk, ValueOk, StartOk;
    var n := |b.lines| - 1;
    var l := b.lines[n];
    assert IsLine(l);
    assert b.lines[..n] + [l] == b.lines;
    assert l.end == [Final(LastEnd(b))];
    assert BlockOk(isRequest, Fewer(b));
    UnendedOk(isRequest, Fewer(b), l);
  }

  lemma UnendedOk(isRequest: bool, b: Block, l: Line)
    requires BlockOk(isRequest, b) && IsLine(l)
    ensures match l.field
            case None => StartOk(isRequest, InBlank(b, l.lead))
            case Some(f) =>
              StartOk(isRequest, if f.spaced || f.value != [] then InValue(b, l.lead, f)
                  else AtColon(b, l.lead, f.name))
  {
    hide BlockOk, Blanks, NameOk, ValueOk;
  }

  lemma FirstIsDone(isRequest: bool, f: First)
    requires FirstOk(isRequest, f)
    ensures if f.status.Some? then StartOk(isRequest, InReason(f)) && !isRequest
            else StartOk(isRequest, InMinor(f)) && isRequest && f.minor != []
  {
  }

  lemma LastOfEnd(isRequest: bool, b: Block)
    requires BlockOk(isRequest, b) && |LastEnd(b)| == 2
    ensures StartOk(isRequest, Unended(b)) && Longer(isRequest, Unended(b), Final(LastEnd(b))) == AtLine(b)
    ensures !MayClose(Unended(b), Final(LastEnd(b)))
  {
    hide FirstOk, Blanks, IsField;
    var e := LastEnd(b);
    LastEndOk(isRequest, b);
    assert Init(e) == [e[0]] && [e[0]] + [e[1]] == e;
    if b.lines != [] {
      var n := |b.lines| - 1;
      assert IsLine(b.lines[n]);
      var ls := WithEnd(b, Init(e)).lines;
      assert ls[..n] == b.lines[..n];
      assert b.lines[..n] + [b.lines[n]] == b.lines;
      assert ls[n].(end := e) == b.lines[n];
    }
  }

  lemma LastOfBlank(isRequest: bool, b: Block, ws: bytes)
    requires BlockOk(isRequest, b) && Blanks(ws) && ws != []
    ensures var v := if |ws| <= 1 then AtLine(b) else InBlank(b, Init(ws));
            StartOk(isRequest, v) && Longer(isRequest, v, Final(ws)) == InBlank(b, ws) && !MayClose(v, Final(ws))
  {
    hide BlockOk, Blanks, IsBlank, IsEnd, Init, Final, LastEnd;
    InitBlanks(ws);
    BlankIsNoEnd(Final(ws));
    assert |ws| > 1 ==> Init(ws) != [] by { InitLength(ws); }
  }

  lemma InitLength(s: bytes)
    requires s != []
    ensures |Init(s)| == |s| - 1
  {
  }


  lemma LastOfName(isRequest: bool, w: Start)
    requires StartOk(isRequest, w) && w.InName?
    ensures StartOk(isRequest, Shorter(w)) && Longer(isRequest, Shorter(w), LastByte(w)) == w
    ensures !MayClose(Shorter(w), LastByte(w))
  {
    hide BlockOk, Blanks, NameOk, IsToken, IsBlank, IsEnd, Init, Final, LastEnd;
    var c := Final(w.name);
    InitName(w.name);
    TokenIsNoSpace(c);
    if |w.name| > 1 {
      assert Longer(isRequest, InName(w.b, w.ws, Init(w.name)), c) == InName(w.b, w.ws, Init(w.name) + [c]);
    } else {
      assert Longer(isRequest, if w.ws == [] then AtLine(w.b) else InBlank(w.b, w.ws), c) == InName(w.b, w.ws, [c]);
    }
  }

  lemma LastOfColon(isRequest: bool, w: Start)
    requires StartOk(isRequest, w) && w.AtColon?
    ensures StartOk(isRequest, Shorter(w)) && Longer(isRequest, Shorter(w), LastByte(w)) == w
    ensures !MayClose(Shorter(w), LastByte(w))
  {
    hide BlockOk, Tokens, NoControls, Blanks, IsToken, IsControl, IsBlank;
  }

  lemma LastOfValue(isRequest: bool, b: Block, ws: bytes, f: Field)
    requires BlockOk(isRequest, b) && Blanks(ws) && IsField(f) && (f.spaced || f.value != [])
    ensures var v, c := Before(b, ws, f), if f.value == [] then SP else Final(f.value);
            StartOk(isRequest, v) && Longer(isRequest, v, c) == InValue(b, ws, f) && !MayClose(v, c)
  {
    hide BlockOk, Blanks, IsField, IsToken, IsControl, IsBlank, Init, Final;
    NothingIsFine(SP);
    NameIsFine(f);
    if f.value != [] {
      var c := Final(f.value);
      InitField(f);
      InitLength(f.value);
      TokenIsNoSpace(c);
      NothingIsFine(c);
    }
  }

  function Before(b: Block, ws: bytes, f: Field): Start {
    if f.value == [] || (!f.spaced && |f.value| == 1) then AtColon(b, ws, f.name)
    else InValue(b, ws, f.(value := Init(f.value)))
  }

  lemma NameIsFine(f: Field)
    requires IsField(f)
    ensures NameOk(f.name)
  {
  }


  lemma BlankIsNoEnd(c: byte)
    ensures IsBlank(c) ==> !IsEnd(c)
  {
  }

  lemma LastOfStart(isRequest: bool, w: Start)
    requires StartOk(isRequest, w) && !Empty(w)
    ensures StartOk(isRequest, Shorter(w)) && Longer(isRequest, Shorter(w), LastByte(w)) == w
    ensures !MayClose(Shorter(w), LastByte(w))
  {
    hide StartOk, Longer, MayClose, Before, Unended, Init, Final;
    assert !w.Wrong? by { NotWrong(isRequest, w); }
    match w
    case InLead(_) | InVerb(_) | InResource(_) | InQuery(_) | InProtocol(_, _) => LastOfTarget(isRequest, w);
    case InMajor(_) => LastOfMajor(isRequest, w);
    case InMinor(_) => LastOfMinor(isRequest, w);
    case InCode(_) => LastOfCode(isRequest, w);
    case InReason(_) => LastOfReason(isRequest, w);
    case AtLine(b) =>
      BlockIsStart(isRequest, b);
      LastOfBlock(isRequest, b);
    case InBlank(b, ws) =>
      BlockStarts(isRequest, w);
      LastOfBlank(isRequest, b, ws);
    case InName(_, _, _) => LastOfName(isRequest, w);
    case AtColon(_, _, _) => LastOfColon(isRequest, w);
    case InValue(b, ws, f) =>
      BlockStarts(isRequest, w);
      LastOfValue(isRequest, b, ws, f);
  }

  lemma BlockStarts(isRequest: bool, w: Start)
    requires StartOk(isRequest, w)
    ensures w.InBlank? ==> BlockOk(isRequest, w.b) && Blanks(w.ws) && w.ws != []
    ensures w.InValue? ==>
              && BlockOk(isRequest, w.b) && Blanks(w.ws) && IsField(w.field) && (w.field.spaced || w.field.value != [])
  {
  }

  lemma BlockIsStart(isRequest: bool, b: Block)
    ensures StartOk(isRequest, AtLine(b)) == BlockOk(isRequest, b) && LastByte(AtLine(b)) == Final(LastEnd(b))
  {
  }

  /** The parser goes through every beginning of a head. */
  lemma {:induction false} StartReached(g: Config, w: Start)
    requires StartOk(g.isRequest, w)
    ensures var r := HeadRun(g, NewParser(g, EMPTY_MESSAGE).head, StartText(w));
            r.verdict.More? && At(g.isRequest, r.h, w)
    decreases |StartText(w)|
  {
    hide StartOk, At, HeadSwitch, Longer, MayClose, StartText, Shorter, LastByte;
    var h0 := NewParser(g, EMPTY_MESSAGE).head;
    if Empty(w) {
      EmptyStart(g, w);
    } else {
      var v, c := Shorter(w), LastByte(w);
      LastOfStart(g.isRequest, w);
      TextLonger(g.isRequest, v, c);
      StartReached(g, v);
      var h := HeadRun(g, h0, StartText(v)).h;
      StepAt(g.isRequest, h, v, c);
      var h' := HeadSwitch(g.isRequest, h, c).h;
      AtRaw(g.isRequest, h', h'.raw + [c], w);
      HeadRunSplits(g, h0, StartText(v), [c]);
      assert [c][1..] == [];
    }
  }

  lemma EmptyStart(g: Config, w: Start)
    requires StartOk(g.isRequest, w) && Empty(w)
    ensures StartText(w) == [] && At(g.isRequest, NewParser(g, EMPTY_MESSAGE).head, w)
  {
  }

  lemma HeadAccepted(g: Config, b: Block, close: bytes, rest: bytes)
    requires BlockOk(g.isRequest, b) && Closes(b, close, Next(rest, 0))
    ensures var r := HeadRun(g, NewParser(g, EMPTY_MESSAGE).head, BlockText(b) + close + rest);
            r.verdict.Done? && r.n == |BlockText(b) + close| && Found(r.h, b)
  {
    hide BlockOk, BlockText, At, HeadRun, Found;
    var h0 := NewParser(g, EMPTY_MESSAGE).head;
    StartReached(g, AtLine(b));
    LastEndOk(g.isRequest, b);
    var h, s := HeadRun(g, h0, BlockText(b)).h, close + rest;
    HeadRunSplits(g, h0, BlockText(b), s);
    assert BlockText(b) + close + rest == BlockText(b) + s;
    if |LastEnd(b)| == 1 {
      ClosesShort(g, h, b, s);
    } else {
      ClosesLong(g, h, b, s);
    }
  }

  /** The first `n` bytes of `s` are the head `b` with what closes it. */
  predicate IsHead(isRequest: bool, b: Block, close: bytes, s: bytes, n: nat)
    requires n <= |s|
  {
    BlockOk(isRequest, b) && Closes(b, close, Next(s, n)) && BlockText(b) + close == s[..n]
  }

  /** parseHeaders on every byte string, for requests and responses: it stops after n bytes,
      having found the end, if and only if these are a head and what closes it; and then first
      line and headers are what the head says. */
  lemma HeadExactly(g: Config, s: bytes, n: nat)
    requires n <= |s|
    ensures var r := HeadRun(g, NewParser(g, EMPTY_MESSAGE).head, s);
            r.verdict.Done? && r.n == n <==> exists b, close :: IsHead(g.isRequest, b, close, s, n)
    ensures forall b, close :: IsHead(g.isRequest, b, close, s, n) ==>
              Found(HeadRun(g, NewParser(g, EMPTY_MESSAGE).head, s).h, b)
  {
    hide BlockOk, BlockText, At, HeadRun, Found, Closes, StartOk, StartText;
    var h0 := NewParser(g, EMPTY_MESSAGE).head;
    var r := HeadRun(g, h0, s);
    if r.verdict.Done? && r.n == n {
      var w := if g.isRequest then InLead([]) else InProtocol(None, 0);
      assert StartOk(g.isRequest, w) by { NothingRead(g.isRequest); }
      EmptyStart(g, w);
      var b, close := HeadSound(g, h0, w, s);
      assert [] + s[..n] == s[..n];
      assert IsHead(g.isRequest, b, close, s, n);
    }
    forall b, close | IsHead(g.isRequest, b, close, s, n)
      ensures r.verdict.Done? && r.n == n && Found(r.h, b)
    {
      assert s == BlockText(b) + close + s[n..];
      assert Next(s, n) == Next(s[n..], 0);
      HeadAccepted(g, b, close, s[n..]);
    }
  }

  lemma NothingRead(isRequest: bool)
    ensures StartOk(isRequest, if isRequest then InLead([]) else InProtocol(None, 0))
  {
  }

  lemma {:induction false} FieldsAreOk(ls: seq<Line>)
    requires forall i :: 0 <= i < |ls| ==> IsLine(ls[i])
    ensures FieldsOk(FieldsOf(ls))
    decreases |ls|
  {
    hide NameOk, ValueOk, EndOk, Blanks;
    if ls != [] {
      var n := |ls| - 1;
      assert IsLine(ls[n]);
      FieldsAreOk(ls[..n]);
      match ls[n].field {
        case Some(f) => FieldIsOk(f);
        case None =>
      }
    }
  }

  lemma FieldIsOk(f: Field)
    requires IsField(f)
    ensures FieldOk((f.name, f.value))
  {
  }

  /** A request head that is accepted can be printed, and the printed head is read as the same
      first line and headers. */
  lemma AcceptedReprints(g: Config, s: bytes, rest: bytes)
    requires g.isRequest && HeadRun(g, NewParser(g, EMPTY_MESSAGE).head, s).verdict.Done?
    ensures var h := HeadRun(g, NewParser(g, EMPTY_MESSAGE).head, s).h;
            var r := Request(h.verb, h.resource, h.query, h.major, h.minor, [], []);
            var t := HeadRun(g, NewParser(g, EMPTY_MESSAGE).head, PrintHead(r, h.headers) + rest);
            t.verdict == Done && t.n == |PrintHead(r, h.headers)| && HeadOf(t.h, r, h.headers)
  {
    hide HeadRun, PrintHead, IsLine, BlockText, Closes, Uint16;
    var h0 := NewParser(g, EMPTY_MESSAGE).head;
    EmptyStart(g, InLead([]));
    var b, close := HeadSound(g, h0, InLead([]), s);
    FieldsAreOk(b.lines);
    var h := HeadRun(g, h0, s).h;
    SixteenBits(b.first);
    HeadParses(g, Request(h.verb, h.resource, h.query, h.major, h.minor, [], []), h.headers, rest);
  }

  lemma SixteenBits(f: First)
    requires Digits(f.major) && Digits(f.minor)
    ensures Uint16(f.major) < 0x1_0000 && Uint16(f.minor) < 0x1_0000
  {
  }
}
