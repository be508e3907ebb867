/** Exactly which cookie headers parseCookieHeader accepts, and which cookies it finds. */
module HttpCookieSyntax {
  import opened Wrappers
  import opened Bytes
  import opened HttpForms

  // ---------------------------------------------------------------- the grammar

  /** What is left of a text when its spaces are dropped. */
  function Squeeze(s: bytes): (r: bytes)
    ensures |r| <= |s|
  {
    if s == [] then [] else Squeeze(s[..|s| - 1]) + if s[|s| - 1] == SP then [] else [s[|s| - 1]]
  }

  predicate IsQuote(c: byte) { c == 39 || c == QUOTE }

  /** A part of a cookie header: a name; a name and a value; or a name and a quoted value, which
      may be followed by anything up to the next separator, or lack its closing quote. */
  datatype Part =
    | Bare(name: bytes)
    | Plain(name: bytes, value: bytes)
    | InQuotes(name: bytes, lead: bytes, quote: byte, value: bytes, after: Option<bytes>)

  predicate NameText(s: bytes) {
    |Squeeze(s)| <= COOKIE_NAME_MAX && forall i :: 0 <= i < |s| ==> s[i] != EQ && !Separator(s[i]) && !IsControl(s[i])
  }

  predicate ValueText(s: bytes) {
    && |Squeeze(s)| <= COOKIE_VALUE_MAX && (forall i :: 0 <= i < |s| ==> !Separator(s[i]) && !IsControl(s[i]))
    && (Squeeze(s) != [] ==> !IsQuote(Squeeze(s)[0]))
  }

  predicate PartOk(p: Part) {
    && NameText(p.name) && (!p.Bare? ==> Squeeze(p.name) != []) && (p.Plain? ==> ValueText(p.value))
    && (p.InQuotes? ==>
          && Squeeze(p.lead) == [] && IsQuote(p.quote) && p.quote !in p.value && |p.value| <= COOKIE_VALUE_MAX
          && (p.after.Some? ==> forall i :: 0 <= i < |p.after.value| ==> !Separator(p.after.value[i])))
  }

  function PartText(p: Part): bytes {
    match p
    case Bare(n) => n
    case Plain(n, v) => n + [EQ] + v
    case InQuotes(n, lead, q, v, after) =>
      n + [EQ] + lead + [q] + v + match after case Some(junk) => [q] + junk case None => []
  }

  /** A header: parts with a ';' or ',' between them; only the last may lack its closing quote. */
  datatype Header = Last(p: Part) | Then(p: Part, separator: byte, rest: Header)

  predicate HeaderOk(h: Header) {
    PartOk(h.p) && (h.Then? ==> Separator(h.separator) && (h.p.InQuotes? ==> h.p.after.Some?) && HeaderOk(h.rest))
  }

  function HeaderText(h: Header): bytes {
    match h case Last(p) => PartText(p) case Then(p, c, rest) => PartText(p) + [c] + HeaderText(rest)
  }

  /** The cookie of a part, unless its name is an attribute: spaces are dropped outside quotes. */
  function CookieOf(p: Part, setCookie: bool): Dict {
    var value := match p case Bare(_) => [] case Plain(_, v) => Squeeze(v) case InQuotes(_, _, _, v, _) => v;
    if IsCookieAttribute(Squeeze(p.name), setCookie) then [] else [(Squeeze(p.name), value)]
  }

  function CookiesOf(h: Header, setCookie: bool): Dict {
    match h
    case Last(p) => CookieOf(p, setCookie)
    case Then(p, _, rest) => CookieOf(p, setCookie) + CookiesOf(rest, setCookie)
  }

  // ---------------------------------------------------------------- within a part

  /** The parser after the text of the part, when it had found `dict` before. */
  function At(p: Part, quote: byte, dict: Dict, setCookie: bool): Cookie {
    match p
    case Bare(n) => Cookie(InName, Squeeze(n), [], quote, dict)
    case Plain(n, v) => Cookie(InValue, Squeeze(n), Squeeze(v), 0, dict)
    case InQuotes(n, _, q, v, after) =>
      if after.None? then Cookie(InValue, Squeeze(n), v, q, dict)
      else Cookie(Ignoring, [], [], q, dict + CookieOf(p, setCookie))
  }

  /** The byte ends the part. */
  predicate Ends(p: Part, c: byte) { Separator(c) && (p.InQuotes? ==> p.after.Some?) }

  /** The part with one more byte. */
  function Extend(p: Part, c: byte): Part {
    match p
    case Bare(n) => if c == EQ then Plain(n, []) else Bare(n + [c])
    case Plain(n, v) =>
      if IsQuote(c) && Squeeze(v) == [] then InQuotes(n, v, c, [], None) else Plain(n, v + [c])
    case InQuotes(n, lead, q, v, after) =>
      if after.Some? then p.(after := Some(after.value + [c]))
      else if c == q then p.(after := Some([]))
      else p.(value := v + [c])
  }

  lemma SqueezeOne(s: bytes, c: byte)
    ensures Squeeze(s + [c]) == if c == SP then Squeeze(s) else Squeeze(s) + [c]
  {
    assert (s + [c])[..|s|] == s;
    assert Squeeze(s) + [] == Squeeze(s);
  }

  lemma TextExtends(p: Part, c: byte)
    ensures PartText(Extend(p, c)) == PartText(p) + [c]
  {
    hide Squeeze;
  }

  lemma NameExtends(s: bytes, c: byte)
    requires NameText(s)
    ensures NameText(s + [c])
            <==> c != EQ && !Separator(c) && !IsControl(c) && (c == SP || |Squeeze(s)| < COOKIE_NAME_MAX)
  {
    hide Squeeze;
    SqueezeOne(s, c);
    assert (s + [c])[|s|] == c;
  }

  lemma ValueExtends(s: bytes, c: byte)
    requires ValueText(s)
    ensures ValueText(s + [c])
            <==> !Separator(c) && !IsControl(c) && (c == SP || |Squeeze(s)| < COOKIE_VALUE_MAX)
                 && (IsQuote(c) ==> Squeeze(s) != [])
  {
    hide Squeeze;
    SqueezeOne(s, c);
    assert (s + [c])[|s|] == c;
    assert Squeeze(s) != [] ==> Squeeze(s + [c])[0] == Squeeze(s)[0];
  }

  lemma NoValue()
    ensures Squeeze([]) == [] && ValueText([])
  {
  }

  /** A byte that does not end the part extends it: the step of the parser succeeds exactly if
      the longer part is of the grammar. */
  lemma StepExtends(p: Part, c: byte, quote: byte, dict: Dict, setCookie: bool)
    requires PartOk(p) && !Ends(p, c)
    ensures CookieStep(At(p, quote, dict, setCookie), c, setCookie)
            == if PartOk(Extend(p, c)) then Some(At(Extend(p, c), quote, dict, setCookie)) else None
  {
    hide Squeeze, IsCookieAttribute, NameText, ValueText, IsControl;
    assert !IsControl(SP) && !IsControl(EQ) && !IsControl(39) && !IsControl(QUOTE) by { NoneIsControl(); }
    NoValue();
    match p {
      case Bare(n) =>
        NameExtends(n, c);
        SqueezeOne(n, c);
      case Plain(n, v) =>
        ValueExtends(v, c);
        SqueezeOne(v, c);
      case InQuotes(n, lead, q, v, after) =>
        if after.Some? {
          assert (after.value + [c])[|after.value|] == c;
        } else {
          assert CookieOf(p, setCookie) == [] ==> dict + CookieOf(p, setCookie) == dict;
          assert (v + [c])[|v|] == c;
        }
    }
  }

  lemma NoneIsControl()
    ensures !IsControl(SP) && !IsControl(EQ) && !IsControl(39) && !IsControl(QUOTE)
  {
  }

  /** A separator adds the cookie of the part. */
  lemma StepEnds(p: Part, c: byte, quote: byte, dict: Dict, setCookie: bool) returns (quote': byte)
    requires PartOk(p) && Ends(p, c)
    ensures CookieStep(At(p, quote, dict, setCookie), c, setCookie)
            == Some(At(Bare([]), quote', dict + CookieOf(p, setCookie), setCookie))
  {
    hide Squeeze;
    var k := At(p, quote, dict, setCookie);
    quote' := if p.Bare? then quote else if p.Plain? then 0 else p.quote;
    assert CookieOf(p, setCookie) == [] ==> dict + CookieOf(p, setCookie) == dict;
    assert Squeeze([]) == [];
  }

  lemma RunEnds(p: Part, quote: byte, dict: Dict, setCookie: bool)
    requires PartOk(p)
    ensures CookieRun(At(p, quote, dict, setCookie), [], setCookie) == (dict + CookieOf(p, setCookie), true)
  {
    assert CookieOf(p, setCookie) == [] ==> dict + CookieOf(p, setCookie) == dict;
  }

  // ---------------------------------------------------------------- whole headers

  /** Whatever is accepted is of the grammar... */
  lemma {:induction false} Accepted(p: Part, quote: byte, dict: Dict, s: bytes, setCookie: bool) returns (h: Header)
    requires PartOk(p) && CookieRun(At(p, quote, dict, setCookie), s, setCookie).1
    ensures HeaderOk(h) && HeaderText(h) == PartText(p) + s
    ensures CookieRun(At(p, quote, dict, setCookie), s, setCookie).0 == dict + CookiesOf(h, setCookie)
    decreases |s|
  {
    hide PartOk, At, CookieStep, PartText, CookieOf, Extend, Ends;
    if s == [] {
      RunEnds(p, quote, dict, setCookie);
      h := Last(p);
      assert PartText(p) + s == PartText(p);
    } else if Ends(p, s[0]) {
      var quote' := StepEnds(p, s[0], quote, dict, setCookie);
      NothingIsPart();
      var rest := Accepted(Bare([]), quote', dict + CookieOf(p, setCookie), s[1..], setCookie);
      h := Then(p, s[0], rest);
      EndsAtSeparator(p, s[0]);
      assert PartText(p) + [s[0]] + s[1..] == PartText(p) + s;
    } else {
      StepExtends(p, s[0], quote, dict, setCookie);
      TextExtends(p, s[0]);
      h := Accepted(Extend(p, s[0]), quote, dict, s[1..], setCookie);
      assert PartText(p) + [s[0]] + s[1..] == PartText(p) + s;
    }
  }

  lemma NothingIsPart()
    ensures PartOk(Bare([])) && PartText(Bare([])) == []
  {
  }

  lemma EndsAtSeparator(p: Part, c: byte)
    requires Ends(p, c)
    ensures Separator(c) && (p.InQuotes? ==> p.after.Some?)
  {
  }

  // ---------------------------------------------------------------- the grammar is accepted

  /** The parser after the bytes `s`, if none of them is refused. */
  function Reads(k: Cookie, s: bytes, setCookie: bool): Option<Cookie>
    decreases |s|
  {
    if s == [] then Some(k)
    else match CookieStep(k, s[0], setCookie)
      case None => None
      case Some(k') => Reads(k', s[1..], setCookie)
  }

  lemma {:induction false} ReadsThen(k: Cookie, s: bytes, rest: bytes, setCookie: bool)
    requires Reads(k, s, setCookie).Some?
    ensures CookieRun(k, s + rest, setCookie) == CookieRun(Reads(k, s, setCookie).value, rest, setCookie)
    ensures Reads(k, s + rest, setCookie) == Reads(Reads(k, s, setCookie).value, rest, setCookie)
    decreases |s|
  {
    hide CookieStep;
    if s == [] {
      assert s + rest == rest;
    } else {
      assert (s + rest)[0] == s[0] && (s + rest)[1..] == s[1..] + rest;
      ReadsThen(CookieStep(k, s[0], setCookie).value, s[1..], rest, setCookie);
    }
  }

  /** A part but for its last byte. */
  function Shorter(p: Part): Part {
    match p
    case Bare(n) => if n == [] then p else Bare(n[..|n| - 1])
    case Plain(n, v) => if v == [] then Bare(n) else Plain(n, v[..|v| - 1])
    case InQuotes(n, lead, q, v, after) =>
      if after.Some? && after.value != [] then p.(after := Some(after.value[..|after.value| - 1]))
      else if after.Some? then p.(after := None)
      else if v != [] then p.(value := v[..|v| - 1])
      else Plain(n, lead)
  }

  lemma {:induction false} OnlySpaces(s: bytes)
    requires Squeeze(s) == []
    ensures forall i :: 0 <= i < |s| ==> s[i] == SP
    decreases |s|
  {
    if s != [] {
      OnlySpaces(s[..|s| - 1]);
    }
  }

  lemma NameShorter(s: bytes)
    requires NameText(s) && s != []
    ensures NameText(s[..|s| - 1])
  {
  }

  lemma ValueShorter(s: bytes)
    requires ValueText(s) && s != []
    ensures ValueText(s[..|s| - 1])
  {
  }

  lemma SpacesAreValue(s: bytes)
    requires Squeeze(s) == []
    ensures ValueText(s)
  {
    OnlySpaces(s);
  }

  lemma ShorterOk(p: Part)
    requires PartOk(p) && PartText(p) != []
    ensures PartOk(Shorter(p))
  {
    hide NameText, ValueText, Squeeze, IsQuote;
    match p {
      case Bare(n) => NameShorter(n);
      case Plain(n, v) =>
        if v != [] {
          ValueShorter(v);
        }
      case InQuotes(_, lead, _, _, _) => SpacesAreValue(lead);
    }
  }

  lemma LastAndRest(s: bytes)
    requires s != []
    ensures s[..|s| - 1] + [s[|s| - 1]] == s
  {
  }

  lemma ShorterQuoted(p: Part)
    requires PartOk(p) && p.InQuotes?
    ensures var c := PartText(p)[|PartText(p)| - 1]; Extend(Shorter(p), c) == p && !Ends(Shorter(p), c)
  {
    hide Squeeze, NameText, ValueText;
    var t := p.name + [EQ] + p.lead + [p.quote] + p.value;
    if p.after.None? {
      assert PartText(p) == t;
      if p.value != [] {
        LastAndRest(p.value);
        assert p.value[|p.value| - 1] != p.quote;
      }
    } else if p.after.value == [] {
      assert PartText(p) == t + [p.quote];
    } else {
      assert PartText(p) == t + [p.quote] + p.after.value;
      LastAndRest(p.after.value);
      assert !Separator(p.after.value[|p.after.value| - 1]);
    }
  }

  lemma ShorterExtends(p: Part)
    requires PartOk(p) && PartText(p) != []
    ensures var c := PartText(p)[|PartText(p)| - 1]; Extend(Shorter(p), c) == p && !Ends(Shorter(p), c)
  {
    hide Squeeze, IsControl;
    match p {
      case Bare(n) => LastAndRest(n);
      case Plain(n, v) =>
        if v != [] {
          LastAndRest(v);
          SqueezeOne(v[..|v| - 1], v[|v| - 1]);
        }
      case InQuotes(_, _, _, _, _) => ShorterQuoted(p);
    }
  }

  /** Every text of a part is read as that part. */
  lemma {:induction false} PartRead(p: Part, quote: byte, dict: Dict, setCookie: bool)
    requires PartOk(p)
    ensures Reads(At(Bare([]), quote, dict, setCookie), PartText(p), setCookie) == Some(At(p, quote, dict, setCookie))
    decreases |PartText(p)|
  {
    hide PartOk, At, CookieStep, Extend, Ends, Shorter;
    var t, k := PartText(p), At(Bare([]), quote, dict, setCookie);
    if t == [] {
      assert p == Bare([]) by { NoText(p); }
    } else {
      var c, r := t[|t| - 1], Shorter(p);
      ShorterOk(p);
      ShorterExtends(p);
      TextExtends(r, c);
      PartRead(r, quote, dict, setCookie);
      StepExtends(r, c, quote, dict, setCookie);
      ReadsThen(k, PartText(r), [c], setCookie);
      assert [c][1..] == [];
    }
  }

  lemma NoText(p: Part)
    requires PartText(p) == []
    ensures p == Bare([])
  {
  }

  /** ... and all of the grammar is accepted, with its cookies. */
  lemma {:induction false} HeaderAccepted(h: Header, quote: byte, dict: Dict, setCookie: bool)
    requires HeaderOk(h)
    ensures CookieRun(At(Bare([]), quote, dict, setCookie), HeaderText(h), setCookie)
            == (dict + CookiesOf(h, setCookie), true)
    decreases h
  {
    hide PartOk, At, CookieStep, PartText, CookieOf, Ends, CookieRun, Reads;
    var k, p := At(Bare([]), quote, dict, setCookie), h.p;
    PartRead(p, quote, dict, setCookie);
    match h {
      case Last(_) =>
        ReadsThen(k, PartText(p), [], setCookie);
        assert PartText(p) + [] == PartText(p);
        RunEnds(p, quote, dict, setCookie);
      case Then(_, c, rest) =>
        SeparatorEnds(p, c);
        var quote' := StepEnds(p, c, quote, dict, setCookie);
        ReadsThen(k, PartText(p), [c] + HeaderText(rest), setCookie);
        assert PartText(p) + ([c] + HeaderText(rest)) == HeaderText(h);
        StepsOn(At(p, quote, dict, setCookie), c, HeaderText(rest), setCookie);
        HeaderAccepted(rest, quote', dict + CookieOf(p, setCookie), setCookie);
        assert dict + CookieOf(p, setCookie) + CookiesOf(rest, setCookie) == dict + CookiesOf(h, setCookie);
    }
  }

  lemma SeparatorEnds(p: Part, c: byte)
    requires Separator(c) && (p.InQuotes? ==> p.after.Some?)
    ensures Ends(p, c)
  {
  }

  lemma StepsOn(k: Cookie, c: byte, s: bytes, setCookie: bool)
    requires CookieStep(k, c, setCookie).Some?
    ensures CookieRun(k, [c] + s, setCookie) == CookieRun(CookieStep(k, c, setCookie).value, s, setCookie)
  {
    assert ([c] + s)[1..] == s;
  }

  /** parseCookieHeader on every byte string: it succeeds if and only if the header is of the
      grammar, and then adds exactly the cookies of its parts, in order. */
  lemma CookiesExactly(dict: Dict, s: bytes, setCookie: bool)
    ensures ParseCookie(dict, s, setCookie).1 <==> exists h :: HeaderOk(h) && HeaderText(h) == s
    ensures forall h :: HeaderOk(h) && HeaderText(h) == s ==>
              ParseCookie(dict, s, setCookie) == (dict + CookiesOf(h, setCookie), true)
  {
    hide CookieRun, PartOk, PartText;
    NothingIsPart();
    assert Squeeze([]) == [] by { NoValue(); }
    assert At(Bare([]), 0, dict, setCookie) == Cookie(InName, [], [], 0, dict);
    if ParseCookie(dict, s, setCookie).1 {
      var h := Accepted(Bare([]), 0, dict, s, setCookie);
      assert [] + s == s;
      assert HeaderOk(h) && HeaderText(h) == s;
    }
    forall h | HeaderOk(h) && HeaderText(h) == s
      ensures ParseCookie(dict, s, setCookie) == (dict + CookiesOf(h, setCookie), true)
    {
      HeaderAccepted(h, 0, dict, setCookie);
    }
  }
}
