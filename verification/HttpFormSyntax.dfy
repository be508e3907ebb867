/** What the form and cookie parsers make of input that others have written: every way of
    spelling a url-encoded text, query strings with bare or empty parts, and cookies without
    quotes. */
module HttpFormSyntax {
  import opened Wrappers
  import opened Bytes
  import opened HttpForms
  import opened HttpParser
  import opened HttpSegments
  import opened HttpPrint
  import opened HttpReceive

  // ---------------------------------------------------------------- url encoding

  /** A way to spell the byte `c`: as it is, as '+' for a space, or as two hexadecimal digits of
      either case. */
  predicate Spells(e: bytes, c: byte) {
    || (e == [c] && c != 37 && c != 43)
    || (e == [43] && c == SP)
    || (|e| == 3 && e[0] == 37 && IsHexDigit(e[1]) && IsHexDigit(e[2]) && c == DigitValue(e[1]) * 16 + DigitValue(e[2]))
  }

  /** However a text has been url-encoded, decoding gives it back. */
  lemma {:induction false} AnySpellingDecodes(es: seq<bytes>, s: bytes)
    requires |es| == |s| && forall i :: 0 <= i < |s| ==> Spells(es[i], s[i])
    ensures UrlDecode(Concat(es)) == s
    decreases |s|
  {
    if s != [] {
      AnySpellingDecodes(es[1..], s[1..]);
      SpellingDecodes(es[0], s[0], Concat(es[1..]));
      assert Concat(es) == es[0] + Concat(es[1..]);
    }
  }

  lemma SpellingDecodes(e: bytes, c: byte, rest: bytes)
    requires Spells(e, c)
    ensures UrlDecode(e + rest) == [c] + UrlDecode(rest)
  {
    var t := e + rest;
    if |e| == 1 {
      assert t[0] == e[0] && t[1..] == rest;
    } else {
      assert t[0] == 37 && t[1] == e[1] && t[2] == e[2] && t[3..] == rest;
    }
  }

  // ---------------------------------------------------------------- query strings

  /** One part of a query string: "name=value", "name", or nothing. */
  datatype Part = Part(name: bytes, value: bytes, equals: bool)

  predicate PartOk(p: Part) {
    && (forall i :: 0 <= i < |p.name| ==> Collected(p.name[i])) && |p.name| <= QUERY_NAME_MAX
    && (forall i :: 0 <= i < |p.value| ==> OfValue(p.value[i])) && |p.value| <= QUERY_VALUE_MAX
    && (if p.equals then p.name != [] else p.value == [])
  }

  function PartText(p: Part): bytes { p.name + if p.equals then [EQ] + p.value else [] }

  function PartsText(ps: seq<Part>): bytes {
    if ps == [] then []
    else PartText(ps[0]) + if |ps| == 1 then [] else [AMP] + PartsText(ps[1..])
  }

  /** A part without a name says nothing. */
  function PairOf(p: Part): Dict { if p.name == [] then [] else [(p.name, p.value)] }

  function Pairs(ps: seq<Part>): Dict { if ps == [] then [] else PairOf(ps[0]) + Pairs(ps[1..]) }

  lemma PartParses(dict: Dict, p: Part, rest: bytes)
    requires PartOk(p)
    ensures QueryRun(Query(false, [], [], dict), PartText(p) + rest)
            == QueryRun(Query(p.equals, p.name, p.value, dict), rest)
  {
    hide QueryRun;
    var q := Query(false, [], [], dict);
    assert [] + p.name == p.name && [] + p.value == p.value;
    if p.equals {
      assert PartText(p) + rest == p.name + ([EQ] + (p.value + rest));
      NameCollects(q, p.name, [EQ] + (p.value + rest));
      EqualsEnds(p.name, dict, p.value + rest);
      ValueCollects(Query(true, p.name, [], dict), p.value, rest);
    } else {
      assert PartText(p) + rest == p.name + rest;
      NameCollects(q, p.name, rest);
    }
  }

  lemma PartEnds(dict: Dict, p: Part, rest: bytes)
    requires PartOk(p)
    ensures QueryRun(Query(p.equals, p.name, p.value, dict), [AMP] + rest)
            == QueryRun(Query(false, [], [], dict + PairOf(p)), rest)
    ensures QueryRun(Query(p.equals, p.name, p.value, dict), []) == (dict + PairOf(p), true)
  {
    assert ([AMP] + rest)[1..] == rest;
    assert p.name == [] ==> dict + PairOf(p) == dict;
  }

  /** A query string of any such parts gives the pairs of those with a name, in order; a name
      without '=' has the empty value. */
  lemma {:induction false} PartsParse(dict: Dict, ps: seq<Part>)
    requires forall i :: 0 <= i < |ps| ==> PartOk(ps[i])
    ensures ParseQuery(dict, PartsText(ps)) == (dict + Pairs(ps), true)
    decreases |ps|
  {
    hide QueryRun, PartText, PartOk, PairOf;
    if ps == [] {
      NoParts(dict);
    } else {
      var rest := if |ps| == 1 then [] else [AMP] + PartsText(ps[1..]);
      PartParses(dict, ps[0], rest);
      PartEnds(dict, ps[0], PartsText(ps[1..]));
      var first := PairOf(ps[0]);
      if |ps| == 1 {
        assert ps[1..] == [] && first + Pairs([]) == first;
        assert PartText(ps[0]) + [] == PartText(ps[0]);
      } else {
        PartsParse(dict + first, ps[1..]);
        assert dict + first + Pairs(ps[1..]) == dict + Pairs(ps);
      }
    }
  }

  lemma NoParts(dict: Dict)
    ensures ParseQuery(dict, []) == (dict, true) && dict + [] == dict
  {
  }

  /** A text without its line ends. */
  function Unfolded(s: bytes): bytes {
    if s == [] then [] else (if s[0] == CR || s[0] == LF then [] else [s[0]]) + Unfolded(s[1..])
  }

  /** Line ends do not matter. */
  lemma {:induction false} UnfoldedRun(q: Query, s: bytes)
    ensures QueryRun(q, Unfolded(s)) == QueryRun(q, s)
    decreases |s|
  {
    if s == [] {
    } else if s[0] == CR || s[0] == LF {
      assert Unfolded(s) == Unfolded(s[1..]);
      UnfoldedRun(q, s[1..]);
    } else {
      assert Unfolded(s) == [s[0]] + Unfolded(s[1..]) && Unfolded(s)[1..] == Unfolded(s[1..]);
      if QueryStep(q, s[0]).Some? {
        UnfoldedRun(QueryStep(q, s[0]).value, s[1..]);
      }
    }
  }

  predicate NoLineEnds(s: bytes) { forall i :: 0 <= i < |s| ==> s[i] != CR && s[i] != LF }

  lemma {:induction false} UnfoldedHasNone(s: bytes)
    ensures NoLineEnds(Unfolded(s))
    decreases |s|
  {
    if s != [] {
      UnfoldedHasNone(s[1..]);
    }
  }

  function AtPart(dict: Dict, p: Part): Query { Query(p.equals, p.name, p.value, dict) }

  /** The part with one more byte. */
  function LongerPart(p: Part, c: byte): Part {
    if p.equals then p.(value := p.value + [c]) else if c == EQ then p.(equals := true) else p.(name := p.name + [c])
  }

  lemma PartGrows(dict: Dict, p: Part, c: byte)
    requires PartOk(p) && c != AMP && c != CR && c != LF && QueryStep(AtPart(dict, p), c).Some?
    ensures PartOk(LongerPart(p, c)) && PartText(LongerPart(p, c)) == PartText(p) + [c]
    ensures QueryStep(AtPart(dict, p), c) == Some(AtPart(dict, LongerPart(p, c)))
  {
    hide IsControl;
  }

  lemma AmpEnds(dict: Dict, p: Part)
    requires PartOk(p)
    ensures QueryStep(AtPart(dict, p), AMP) == Some(AtPart(dict + PairOf(p), Part([], [], false)))
  {
    assert PairOf(p) == [] ==> dict + PairOf(p) == dict;
  }

  predicate PartsOk(ps: seq<Part>) { ps != [] && forall i :: 0 <= i < |ps| ==> PartOk(ps[i]) }

  /** Whatever is accepted is made of parts. */
  lemma {:induction false} QueryAccepted(dict: Dict, p: Part, s: bytes) returns (ps: seq<Part>)
    requires PartOk(p) && NoLineEnds(s) && QueryRun(AtPart(dict, p), s).1
    ensures PartsOk(ps) && PartsText(ps) == PartText(p) + s
    decreases |s|
  {
    hide PartOk, PartText, QueryStep, AtPart, LongerPart;
    if s == [] {
      ps := [p];
      assert PartText(p) + s == PartText(p);
    } else if s[0] == AMP {
      AmpEnds(dict, p);
      NothingIsPart();
      var tail := QueryAccepted(dict + PairOf(p), Part([], [], false), s[1..]);
      ps := [p] + tail;
      assert ps[1..] == tail && [] + s[1..] == s[1..];
      assert [AMP] + s[1..] == s;
    } else {
      PartGrows(dict, p, s[0]);
      ps := QueryAccepted(dict, LongerPart(p, s[0]), s[1..]);
      assert PartText(p) + [s[0]] + s[1..] == PartText(p) + s;
    }
  }

  lemma NothingIsPart()
    ensures PartOk(Part([], [], false)) && PartText(Part([], [], false)) == []
  {
  }

  /** parseURLEncoded on every byte string: it succeeds if and only if the text, but for line
      ends, is made of parts that are well formed and within the limits, and then adds exactly
      the pairs of those with a name, in order. */
  lemma QueryExactly(dict: Dict, s: bytes)
    ensures ParseQuery(dict, s).1 <==> exists ps :: PartsOk(ps) && PartsText(ps) == Unfolded(s)
    ensures forall ps :: PartsOk(ps) && PartsText(ps) == Unfolded(s) ==>
              ParseQuery(dict, s) == (dict + Pairs(ps), true)
  {
    hide QueryRun, PartOk, PartText;
    var u := Unfolded(s);
    UnfoldedRun(Query(false, [], [], dict), s);
    UnfoldedHasNone(s);
    NothingIsPart();
    if ParseQuery(dict, s).1 {
      var ps := QueryAccepted(dict, Part([], [], false), u);
      assert [] + u == u;
      assert PartsOk(ps) && PartsText(ps) == u;
    }
    forall ps | PartsOk(ps) && PartsText(ps) == u
      ensures ParseQuery(dict, s) == (dict + Pairs(ps), true)
    {
      PartsParse(dict, ps);
    }
  }

  // ---------------------------------------------------------------- cookies without quotes

  /** One part of a cookie header: "name=value" or "name". */
  predicate CookiePartOk(p: Part) {
    && CookieName(p.name) && |p.value| <= COOKIE_VALUE_MAX && (!p.equals ==> p.value == [])
    && (forall i :: 0 <= i < |p.value| ==> !Separator(p.value[i]) && p.value[i] != SP && !IsControl(p.value[i]))
    && (p.value != [] ==> p.value[0] != 39 && p.value[0] != QUOTE)
  }

  function CookieText(ps: seq<Part>): bytes {
    if ps == [] then []
    else PartText(ps[0]) + if |ps| == 1 then [] else [59, SP] + CookieText(ps[1..])
  }

  /** The cookies among the parts: all but the attributes. */
  function CookieOf(p: Part, setCookie: bool): Dict {
    if IsCookieAttribute(p.name, setCookie) then [] else [(p.name, p.value)]
  }

  function Cookies(ps: seq<Part>, setCookie: bool): Dict {
    if ps == [] then [] else CookieOf(ps[0], setCookie) + Cookies(ps[1..], setCookie)
  }

  lemma {:induction false} BareNameCollects(k: Cookie, s: bytes, rest: bytes, setCookie: bool)
    requires k.state.InName? && |k.name| + |s| <= COOKIE_NAME_MAX && forall i :: 0 <= i < |s| ==> NameChar(s[i])
    ensures CookieRun(k, s + rest, setCookie) == CookieRun(k.(name := k.name + s), rest, setCookie)
    decreases |s|
  {
    if s == [] {
      assert s + rest == rest && k.name + s == k.name;
    } else {
      assert (s + rest)[1..] == s[1..] + rest;
      var k' := k.(name := k.name + [s[0]]);
      BareNameCollects(k', s[1..], rest, setCookie);
      assert k.name + s == k'.name + s[1..];
    }
  }

  lemma {:induction false} BareValueCollects(k: Cookie, s: bytes, rest: bytes, setCookie: bool)
    requires k.state.InValue? && k.quote == 0 && |k.value| + |s| <= COOKIE_VALUE_MAX
    requires forall i :: 0 <= i < |s| ==> !Separator(s[i]) && s[i] != SP && !IsControl(s[i])
    requires s != [] && k.value == [] ==> s[0] != 39 && s[0] != QUOTE
    ensures CookieRun(k, s + rest, setCookie) == CookieRun(k.(value := k.value + s), rest, setCookie)
    decreases |s|
  {
    if s == [] {
      assert s + rest == rest && k.value + s == k.value;
    } else {
      assert (s + rest)[1..] == s[1..] + rest;
      var k' := k.(value := k.value + [s[0]]);
      BareValueCollects(k', s[1..], rest, setCookie);
      assert k.value + s == k'.value + s[1..];
    }
  }

  /** The parser within a part. */
  function Within(dict: Dict, p: Part): Cookie {
    Cookie(if p.equals then InValue else InName, p.name, p.value, 0, dict)
  }

  lemma CookieEquals(dict: Dict, name: bytes, rest: bytes, setCookie: bool)
    requires name != []
    ensures CookieRun(Cookie(InName, name, [], 0, dict), [EQ] + rest, setCookie)
            == CookieRun(Cookie(InValue, name, [], 0, dict), rest, setCookie)
  {
    assert ([EQ] + rest)[1..] == rest;
  }

  lemma CookiePartParses(dict: Dict, p: Part, rest: bytes, setCookie: bool)
    requires CookiePartOk(p)
    ensures CookieRun(Cookie(InName, [], [], 0, dict), PartText(p) + rest, setCookie)
            == CookieRun(Within(dict, p), rest, setCookie)
  {
    hide CookieRun, IsControl, NameChar, Separator;
    assert [] + p.name == p.name && [] + p.value == p.value;
    if p.equals {
      assert PartText(p) + rest == p.name + ([EQ] + (p.value + rest));
      BareNameCollects(Cookie(InName, [], [], 0, dict), p.name, [EQ] + (p.value + rest), setCookie);
      CookieEquals(dict, p.name, p.value + rest, setCookie);
      BareValueCollects(Cookie(InValue, p.name, [], 0, dict), p.value, rest, setCookie);
    } else {
      assert PartText(p) + rest == p.name + rest;
      BareNameCollects(Cookie(InName, [], [], 0, dict), p.name, rest, setCookie);
    }
  }

  lemma CookiePartEnds(dict: Dict, p: Part, rest: bytes, setCookie: bool)
    requires CookiePartOk(p)
    ensures CookieRun(Within(dict, p), [59, SP] + rest, setCookie)
            == CookieRun(Cookie(InName, [], [], 0, dict + CookieOf(p, setCookie)), rest, setCookie)
    ensures CookieRun(Within(dict, p), [], setCookie) == (dict + CookieOf(p, setCookie), true)
  {
    hide IsCookieAttribute;
    var s := [59, SP] + rest;
    assert s[1..] == [SP] + rest && s[1..][1..] == rest;
    assert CookieOf(p, setCookie) == [] ==> dict + CookieOf(p, setCookie) == dict;
  }

  /** A cookie header of unquoted parts, as browsers and other servers write it, gives the
      cookies among them in order; a name without '=' that is no attribute is a cookie with the
      empty value. */
  lemma {:induction false} CookieHeaderParses(dict: Dict, ps: seq<Part>, setCookie: bool)
    requires ps != [] && forall i :: 0 <= i < |ps| ==> CookiePartOk(ps[i])
    ensures ParseCookie(dict, CookieText(ps), setCookie) == (dict + Cookies(ps, setCookie), true)
    decreases |ps|
  {
    hide CookieRun, PartText, CookiePartOk, CookieOf;
    var rest := if |ps| == 1 then [] else [59, SP] + CookieText(ps[1..]);
    CookiePartParses(dict, ps[0], rest, setCookie);
    CookiePartEnds(dict, ps[0], CookieText(ps[1..]), setCookie);
    var first := CookieOf(ps[0], setCookie);
    if |ps| == 1 {
      assert ps[1..] == [] && first + Cookies([], setCookie) == first;
      assert PartText(ps[0]) + [] == PartText(ps[0]);
    } else {
      CookieHeaderParses(dict + first, ps[1..], setCookie);
      assert dict + first + Cookies(ps[1..], setCookie) == dict + Cookies(ps, setCookie);
    }
  }

  /** The headers that bear cookies are written like this, `parts[i]` for header `i`. */
  predicate CookieHeaders(d: Dict, key: bytes, parts: seq<seq<Part>>) {
    |parts| == |d|
    && forall i :: 0 <= i < |d| && SameName(d[i].0, key) ==>
         parts[i] != [] && (forall j :: 0 <= j < |parts[i]| ==> CookiePartOk(parts[i][j]))
             && d[i].1 == CookieText(parts[i])
  }

  /** The cookies of all these headers in order. */
  function CookiesIn(d: Dict, key: bytes, parts: seq<seq<Part>>, setCookie: bool): Dict
    requires |parts| == |d|
  {
    if d == [] then []
    else (if SameName(d[0].0, key) then Cookies(parts[0], setCookie) else [])
         + CookiesIn(d[1..], key, parts[1..], setCookie)
  }

  /** Every cookie header counts, whatever other headers there are. */
  lemma {:induction false} AllCookiesParse(dict: Dict, d: Dict, key: bytes, parts: seq<seq<Part>>, setCookie: bool)
    requires CookieHeaders(d, key, parts)
    ensures AllCookies(dict, d, key, setCookie) == dict + CookiesIn(d, key, parts, setCookie)
    decreases |d|
  {
    hide ParseCookie, CookiePartOk, CookieText, SameName, Cookies;
    if d == [] {
      assert dict + [] == dict;
    } else {
      var first := if SameName(d[0].0, key) then Cookies(parts[0], setCookie) else [];
      if SameName(d[0].0, key) {
        CookieHeaderParses(dict, parts[0], setCookie);
      } else {
        assert dict + first == dict;
      }
      assert CookieHeaders(d[1..], key, parts[1..]) by {
        assert forall i :: 0 <= i < |d| - 1 ==> d[1..][i] == d[i + 1] && parts[1..][i] == parts[i + 1];
      }
      AllCookiesParse(dict + first, d[1..], key, parts[1..], setCookie);
      assert dict + first + CookiesIn(d[1..], key, parts[1..], setCookie) == dict + CookiesIn(d, key, parts, setCookie);
    }
  }

  /** The cookies a client sends arrive, all and in order. */
  lemma CookiesArrive(g: Config, r: Request, keepAlive: bool, parts: seq<seq<Part>>, rest: bytes)
    requires g.isRequest && RequestOk(r) && CookieHeaders(Prepared(r, keepAlive), COOKIE, parts)
    ensures Run(g, NewParser(g, EMPTY_MESSAGE), Print(r, keepAlive) + rest).p.msg.cookies
            == CookiesIn(Prepared(r, keepAlive), COOKIE, parts, false)
  {
    hide Run, Print, RequestOk, Prepared, CookiesIn, HeadOf, Params;
    RoundTrip(g, r, keepAlive, rest);
    AllCookiesParse([], Prepared(r, keepAlive), COOKIE, parts, false);
    var all := CookiesIn(Prepared(r, keepAlive), COOKIE, parts, false);
    assert [] + all == all;
  }
}
