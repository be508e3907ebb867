/** URL encoding, query strings and cookies: the printers of HTTPTypes.cpp and the
    character-by-character parsers of HTTPParser.cpp. */
module HttpForms {
  import opened Wrappers
  import opened Bytes

  const QUERY_NAME_MAX: nat := 1024
  const QUERY_VALUE_MAX: nat := 1024 * 1024
  const COOKIE_NAME_MAX: nat := 1024
  const COOKIE_VALUE_MAX: nat := 1024 * 1024

  // ---------------------------------------------------------------- url_encode, url_decode

  /** Characters url_encode leaves alone. */
  predicate Unescaped(c: byte) {
    32 < c < 127
    && c !in {36, 38, 43, 44, 47, 58, 59, 61, 63, 64, 34, 60, 62, 35, 37, 123, 125, 124, 92, 94, 126, 91, 93, 96}
  }

  /** One digit of printf("%.2X"). */
  function UpperDigit(d: nat): byte
    requires d < 16
  {
    if d < 10 then 48 + d else 55 + d
  }

  function Escape(c: byte): bytes {
    if Unescaped(c) then [c] else [37, UpperDigit(c / 16), UpperDigit(c % 16)]
  }

  function UrlEncode(s: bytes): bytes {
    if s == [] then [] else Escape(s[0]) + UrlEncode(s[1..])
  }

  /** strtol on two characters in base 16, as a byte: leading space, a sign, and junk after
      the digits are handled the way strtol does. */
  function HexPair(a: byte, b: byte): byte {
    if IsHexDigit(a) then (if IsHexDigit(b) then DigitValue(a) * 16 + DigitValue(b) else DigitValue(a))
    else if !IsHexDigit(b) then 0
    else if IsSpace(a) || a == 43 then DigitValue(b)
    else if a == 45 then (256 - DigitValue(b)) % 256
    else 0
  }

  function UrlDecode(s: bytes): bytes {
    if s == [] then []
    else if s[0] == 43 then [SP] + UrlDecode(s[1..])
    else if s[0] == 37 && |s| > 2 then [HexPair(s[1], s[2])] + UrlDecode(s[3..])
    else [s[0]] + UrlDecode(s[1..])
  }

  lemma EscapeDecodes(c: byte, rest: bytes)
    ensures UrlDecode(Escape(c) + rest) == [c] + UrlDecode(rest)
  {
    var e := Escape(c) + rest;
    if Unescaped(c) {
      assert e[1..] == rest;
    } else {
      assert e[3..] == rest;
      assert e[1] == UpperDigit(c / 16) && e[2] == UpperDigit(c % 16);
      assert c == c / 16 * 16 + c % 16;
    }
  }

  /** Decoding undoes encoding, on all byte strings. */
  lemma {:induction false} UrlRoundTrip(s: bytes)
    ensures UrlDecode(UrlEncode(s)) == s
  {
    if s != [] {
      UrlRoundTrip(s[1..]);
      EscapeDecodes(s[0], UrlEncode(s[1..]));
    }
  }

  /** The loop of url_encode. */
  method UrlEncodeLoop(s: bytes) returns (result: bytes)
    ensures result == UrlEncode(s) && UrlDecode(result) == s
  {
    hide Escape, UrlDecode;
    result := [];
    for pos := 0 to |s|
      invariant result + UrlEncode(s[pos..]) == UrlEncode(s)
    {
      ghost var escaped, rest := Escape(s[pos]), UrlEncode(s[pos + 1..]);
      assert s[pos..][1..] == s[pos + 1..];
      assert result + (escaped + rest) == result + escaped + rest;
      result := result + Escape(s[pos]);
    }
    assert s[|s|..] == [] && result + [] == result;
    UrlRoundTrip(s);
  }

  /** The loop of url_decode, which skips two more characters after decoding a pair. */
  method UrlDecodeLoop(s: bytes) returns (result: bytes)
    ensures result == UrlDecode(s)
  {
    hide HexPair, UrlDecode;
    result := [];
    var pos := 0;
    assert s[0..] == s && [] + UrlDecode(s) == UrlDecode(s);
    while pos < |s|
      invariant 0 <= pos <= |s|
      invariant result + UrlDecode(s[pos..]) == UrlDecode(s)
    {
      DecodeNext(s, pos, result);
      if s[pos] == 43 {
        result := result + [SP];
      } else if s[pos] == 37 && pos + 2 < |s| {
        result := result + [HexPair(s[pos + 1], s[pos + 2])];
        pos := pos + 2;
      } else {
        result := result + [s[pos]];
      }
      pos := pos + 1;
    }
    NothingDecodes(s, result);
  }

  /** One turn of that loop, on the output so far. */
  lemma DecodeNext(s: bytes, pos: nat, out: bytes)
    requires pos < |s|
    ensures out + UrlDecode(s[pos..])
            == if s[pos] == 43 then out + [SP] + UrlDecode(s[pos + 1..])
               else if s[pos] == 37 && pos + 2 < |s|
                   then out + [HexPair(s[pos + 1], s[pos + 2])] + UrlDecode(s[pos + 3..])
               else out + [s[pos]] + UrlDecode(s[pos + 1..])
  {
    hide HexPair;
    var t := s[pos..];
    assert t[1..] == s[pos + 1..];
    if pos + 2 < |s| {
      assert t[3..] == s[pos + 3..] && t[1] == s[pos + 1] && t[2] == s[pos + 2];
    }
  }

  lemma NothingDecodes(s: bytes, out: bytes)
    ensures out + UrlDecode(s[|s|..]) == out
  {
  }

  // ---------------------------------------------------------------- query strings

  const EQ: byte := 61
  const AMP: byte := 38

  function MakeQuery(ps: Dict): bytes {
    if ps == [] then []
    else UrlEncode(ps[0].0) + [EQ] + UrlEncode(ps[0].1) + (if |ps| == 1 then [] else [AMP] + MakeQuery(ps[1..]))
  }

  /** The variables of parseURLEncoded. */
  datatype Query = Query(inValue: bool, name: bytes, value: bytes, dict: Dict)

  function QueryStep(q: Query, c: byte): Option<Query> {
    if !q.inValue then
      if c == EQ then (if q.name == [] then None else Some(q.(inValue := true)))
      else if c == AMP then
        Some(if q.name != [] then q.(dict := q.dict + [(q.name, q.value)], name := []) else q)
      else if c == CR || c == LF then Some(q)
      else if IsControl(c) || |q.name| >= QUERY_NAME_MAX then None
      else Some(q.(name := q.name + [c]))
    else
      if c == AMP then Some(Query(false, [], [], q.dict + [(q.name, q.value)]))
      else if c == CR || c == LF then Some(q)
      else if IsControl(c) || |q.value| >= QUERY_VALUE_MAX then None
      else Some(q.(value := q.value + [c]))
  }

  /** The dictionary left behind, and whether parsing succeeded. */
  function QueryRun(q: Query, s: bytes): (Dict, bool)
    decreases |s|
  {
    if s == [] then (if q.name != [] then q.dict + [(q.name, q.value)] else q.dict, true)
    else match QueryStep(q, s[0])
      case None => (q.dict, false)
      case Some(q') => QueryRun(q', s[1..])
  }

  function ParseQuery(dict: Dict, s: bytes): (Dict, bool) {
    QueryRun(Query(false, [], [], dict), s)
  }

  /** The loop of parseURLEncoded. */
  method ParseQueryLoop(dict: Dict, s: bytes) returns (dict': Dict, ok: bool)
    ensures (dict', ok) == ParseQuery(dict, s)
  {
    var q := Query(false, [], [], dict);
    for i := 0 to |s|
      invariant QueryRun(q, s[i..]) == ParseQuery(dict, s)
    {
      assert s[i..][1..] == s[i + 1..];
      var next := QueryStep(q, s[i]);
      if next.None? {
        return q.dict, false;
      }
      q := next.value;
    }
    dict' := if q.name != [] then q.dict + [(q.name, q.value)] else q.dict;
    ok := true;
  }

  /** A character that both query states simply collect. */
  predicate Collected(c: byte) { !IsControl(c) && c != EQ && c != AMP }

  /** A character that belongs to the value. */
  predicate OfValue(c: byte) { !IsControl(c) && c != AMP }

  lemma {:induction false} EncodedIsCollected(s: bytes)
    ensures forall i :: 0 <= i < |UrlEncode(s)| ==> Collected(UrlEncode(s)[i])
    ensures UrlEncode(s) == [] <==> s == []
  {
    if s != [] {
      EncodedIsCollected(s[1..]);
    }
  }

  lemma {:induction false} NameCollects(q: Query, s: bytes, rest: bytes)
    requires !q.inValue && |q.name| <= QUERY_NAME_MAX && forall i :: 0 <= i < |s| ==> Collected(s[i])
    ensures |q.name| + |s| <= QUERY_NAME_MAX ==> QueryRun(q, s + rest) == QueryRun(q.(name := q.name + s), rest)
    ensures |q.name| + |s| > QUERY_NAME_MAX ==> !QueryRun(q, s + rest).1
    decreases |s|
  {
    if s == [] {
      assert s + rest == rest && q.name + s == q.name;
    } else {
      assert (s + rest)[1..] == s[1..] + rest;
      if |q.name| < QUERY_NAME_MAX {
        var q' := q.(name := q.name + [s[0]]);
        NameCollects(q', s[1..], rest);
        assert q.name + s == q'.name + s[1..];
      }
    }
  }

  lemma {:induction false} ValueCollects(q: Query, s: bytes, rest: bytes)
    requires q.inValue && |q.value| <= QUERY_VALUE_MAX && forall i :: 0 <= i < |s| ==> OfValue(s[i])
    ensures |q.value| + |s| <= QUERY_VALUE_MAX ==> QueryRun(q, s + rest) == QueryRun(q.(value := q.value + s), rest)
    ensures |q.value| + |s| > QUERY_VALUE_MAX ==> !QueryRun(q, s + rest).1
    decreases |s|
  {
    if s == [] {
      assert s + rest == rest && q.value + s == q.value;
    } else {
      assert (s + rest)[1..] == s[1..] + rest;
      if |q.value| < QUERY_VALUE_MAX {
        var q' := q.(value := q.value + [s[0]]);
        ValueCollects(q', s[1..], rest);
        assert q.value + s == q'.value + s[1..];
      }
    }
  }

  predicate PairFits(p: (bytes, bytes)) {
    p.0 != [] && |UrlEncode(p.0)| <= QUERY_NAME_MAX && |UrlEncode(p.1)| <= QUERY_VALUE_MAX
  }

  function EncodeAll(ps: Dict): Dict {
    if ps == [] then [] else [(UrlEncode(ps[0].0), UrlEncode(ps[0].1))] + EncodeAll(ps[1..])
  }

  function DecodeAll(ps: Dict): Dict {
    if ps == [] then [] else [(UrlDecode(ps[0].0), UrlDecode(ps[0].1))] + DecodeAll(ps[1..])
  }

  lemma {:induction false} DecodeEncodeAll(ps: Dict)
    ensures DecodeAll(EncodeAll(ps)) == ps
  {
    if ps != [] {
      DecodeEncodeAll(ps[1..]);
      UrlRoundTrip(ps[0].0);
      UrlRoundTrip(ps[0].1);
    }
  }

  /** The '=' after a name. */
  lemma EqualsEnds(name: bytes, dict: Dict, rest: bytes)
    ensures name != [] ==>
              QueryRun(Query(false, name, [], dict), [EQ] + rest) == QueryRun(Query(true, name, [], dict), rest)
    ensures name == [] ==> !QueryRun(Query(false, name, [], dict), [EQ] + rest).1
  {
    assert ([EQ] + rest)[1..] == rest;
  }

  /** One printed pair, up to the '&' or the end. */
  lemma PairParses(dict: Dict, p: (bytes, bytes), rest: bytes)
    ensures var s := UrlEncode(p.0) + [EQ] + UrlEncode(p.1) + rest;
            && (PairFits(p) ==> QueryRun(Query(false, [], [], dict), s)
                                == QueryRun(Query(true, UrlEncode(p.0), UrlEncode(p.1), dict), rest))
            && (!PairFits(p) ==> !QueryRun(Query(false, [], [], dict), s).1)
  {
    hide UrlEncode, QueryRun, QueryStep;
    var n, v := UrlEncode(p.0), UrlEncode(p.1);
    EncodedIsCollected(p.0);
    EncodedIsCollected(p.1);
    var q := Query(false, [], [], dict);
    assert n + [EQ] + v + rest == n + ([EQ] + (v + rest));
    NameCollects(q, n, [EQ] + (v + rest));
    assert [] + n == n && [] + v == v;
    EqualsEnds(n, dict, v + rest);
    if n != [] && |n| <= QUERY_NAME_MAX {
      ValueCollects(Query(true, n, [], dict), v, rest);
    }
  }

  lemma {:induction false} QueryParses(dict: Dict, ps: Dict)
    ensures (forall i :: 0 <= i < |ps| ==> PairFits(ps[i])) ==>
            ParseQuery(dict, MakeQuery(ps)) == (dict + EncodeAll(ps), true)
    ensures !(forall i :: 0 <= i < |ps| ==> PairFits(ps[i])) ==> !ParseQuery(dict, MakeQuery(ps)).1
    decreases |ps|
  {
    if ps != [] {
      var p, tail := ps[0], ps[1..];
      var n, v := UrlEncode(p.0), UrlEncode(p.1);
      var rest := if |ps| == 1 then [] else [AMP] + MakeQuery(tail);
      PairParses(dict, p, rest);
      EncodedIsCollected(p.0);
      QueryParses(dict + [(n, v)], tail);
      assert rest != [] ==> rest[1..] == MakeQuery(tail);
      assert dict + [(n, v)] + EncodeAll(tail) == dict + EncodeAll(ps);
      assert (forall i :: 0 <= i < |ps| ==> PairFits(ps[i]))
          <==> PairFits(p) && (forall i :: 0 <= i < |tail| ==> PairFits(tail[i])) by {
        assert forall i :: 1 <= i < |ps| ==> ps[i] == tail[i - 1];
        assert forall i :: 0 <= i < |tail| ==> tail[i] == ps[i + 1];
      }
    } else {
      assert dict + EncodeAll(ps) == dict;
    }
  }

  lemma {:induction false} EncodeAllAppend(ps: Dict, qs: Dict)
    ensures EncodeAll(ps + qs) == EncodeAll(ps) + EncodeAll(qs)
  {
    if ps == [] {
      assert ps + qs == qs;
    } else {
      assert (ps + qs)[1..] == ps[1..] + qs;
      EncodeAllAppend(ps[1..], qs);
    }
  }

  /** Parsing a printed query string succeeds exactly when every name is non-empty and
      every encoded form fits its limit, and then url-decoding gives the pairs back. */
  lemma QueryRoundTrip(ps: Dict)
    ensures ParseQuery([], MakeQuery(ps)).1 <==> forall i :: 0 <= i < |ps| ==> PairFits(ps[i])
    ensures ParseQuery([], MakeQuery(ps)).1 ==> DecodeAll(ParseQuery([], MakeQuery(ps)).0) == ps
  {
    QueryParses([], ps);
    assert [] + EncodeAll(ps) == EncodeAll(ps);
    DecodeEncodeAll(ps);
  }

  // ---------------------------------------------------------------- cookies

  const QUOTE: byte := 34

  datatype CookieState = InName | InValue | Ignoring

  /** The variables of parseCookieHeader; quote 0 means not quoted. */
  datatype Cookie = Cookie(state: CookieState, name: bytes, value: bytes, quote: byte, dict: Dict)

  predicate IsCookieAttribute(name: bytes, setCookie: bool) {
    name == [] || name[0] == 36
    || (setCookie && name in {Str("Comment"), Str("Domain"), Str("Max-Age"), Str("Path"), Str("Secure"),
                              Str("Version"), Str("Expires")})
  }

  predicate Separator(c: byte) { c == 59 || c == 44 }

  /** Insert the cookie unless its name is an attribute. */
  function Keep(k: Cookie, setCookie: bool): Dict {
    if IsCookieAttribute(k.name, setCookie) then k.dict else k.dict + [(k.name, k.value)]
  }

  function CookieStep(k: Cookie, c: byte, setCookie: bool): Option<Cookie> {
    match k.state
    case InName =>
      if c == EQ then (if k.name == [] then None else Some(k.(quote := 0, state := InValue)))
      else if Separator(c) then
        Some(if k.name != [] then k.(dict := Keep(k, setCookie), name := []) else k)
      else if c == SP then Some(k)
      else if IsControl(c) || |k.name| >= COOKIE_NAME_MAX then None
      else Some(k.(name := k.name + [c]))
    case InValue =>
      if k.quote == 0 then
        if Separator(c) then Some(Cookie(InName, [], [], 0, Keep(k, setCookie)))
        else if c == 39 || c == QUOTE then
          if k.value == [] then Some(k.(quote := c))
          else if |k.value| >= COOKIE_VALUE_MAX then None
          else Some(k.(value := k.value + [c]))
        else if c == SP then Some(k)
        else if IsControl(c) || |k.value| >= COOKIE_VALUE_MAX then None
        else Some(k.(value := k.value + [c]))
      else
        if c == k.quote then Some(k.(dict := Keep(k, setCookie), name := [], value := [], state := Ignoring))
        else if |k.value| >= COOKIE_VALUE_MAX then None
        else Some(k.(value := k.value + [c]))
    case Ignoring => Some(if Separator(c) then k.(state := InName) else k)
  }

  function CookieRun(k: Cookie, s: bytes, setCookie: bool): (Dict, bool)
    decreases |s|
  {
    if s == [] then (Keep(k, setCookie), true)
    else match CookieStep(k, s[0], setCookie)
      case None => (k.dict, false)
      case Some(k') => CookieRun(k', s[1..], setCookie)
  }

  function ParseCookie(dict: Dict, s: bytes, setCookie: bool): (Dict, bool) {
    CookieRun(Cookie(InName, [], [], 0, dict), s, setCookie)
  }

  /** The loop of parseCookieHeader. */
  method ParseCookieLoop(dict: Dict, s: bytes, setCookie: bool) returns (dict': Dict, ok: bool)
    ensures (dict', ok) == ParseCookie(dict, s, setCookie)
  {
    var k := Cookie(InName, [], [], 0, dict);
    for i := 0 to |s|
      invariant CookieRun(k, s[i..], setCookie) == ParseCookie(dict, s, setCookie)
    {
      assert s[i..][1..] == s[i + 1..];
      var next := CookieStep(k, s[i], setCookie);
      if next.None? {
        return k.dict, false;
      }
      k := next.value;
    }
    dict' := Keep(k, setCookie);
    ok := true;
  }

  /** name="value" */
  function Quoted(name: bytes, value: bytes): bytes { name + [EQ, QUOTE] + value + [QUOTE] }

  function MakeSetCookie(name: bytes, value: bytes, path: bytes, hasMaxAge: bool, maxAge: nat): bytes {
    Quoted(name, value) + [59, SP] + Quoted(Str("Version"), Str("1"))
    + (if path != [] then [59, SP] + Quoted(Str("Path"), path) else [])
    + (if hasMaxAge then [59, SP] + Quoted(Str("Max-Age"), Numeral(maxAge, 10)) else [])
  }

  predicate NameChar(c: byte) { c != EQ && !Separator(c) && c != SP && !IsControl(c) }

  predicate CookieName(name: bytes) {
    name != [] && |name| <= COOKIE_NAME_MAX && forall i :: 0 <= i < |name| ==> NameChar(name[i])
  }

  predicate CookieValue(value: bytes) { QUOTE !in value && |value| <= COOKIE_VALUE_MAX }

  lemma {:induction false} CookieNameCollects(k: Cookie, s: bytes, rest: bytes)
    requires k.state.InName? && |k.name| + |s| <= COOKIE_NAME_MAX && forall i :: 0 <= i < |s| ==> NameChar(s[i])
    ensures CookieRun(k, s + rest, true) == CookieRun(k.(name := k.name + s), rest, true)
    decreases |s|
  {
    if s == [] {
      assert s + rest == rest && k.name + s == k.name;
    } else {
      assert (s + rest)[1..] == s[1..] + rest;
      var k' := k.(name := k.name + [s[0]]);
      CookieNameCollects(k', s[1..], rest);
      assert k.name + s == k'.name + s[1..];
    }
  }

  lemma {:induction false} CookieValueCollects(k: Cookie, s: bytes, rest: bytes)
    requires k.state.InValue? && k.quote == QUOTE && QUOTE !in s && |k.value| + |s| <= COOKIE_VALUE_MAX
    ensures CookieRun(k, s + rest, true) == CookieRun(k.(value := k.value + s), rest, true)
    decreases |s|
  {
    if s == [] {
      assert s + rest == rest && k.value + s == k.value;
    } else {
      assert (s + rest)[1..] == s[1..] + rest;
      var k' := k.(value := k.value + [s[0]]);
      CookieValueCollects(k', s[1..], rest);
      assert k.value + s == k'.value + s[1..];
    }
  }

  /** One quoted pair is read as a whole and leaves the parser ignoring until a separator. */
  lemma QuotedParses(dict: Dict, quote: byte, name: bytes, value: bytes, rest: bytes)
    requires CookieName(name) && CookieValue(value)
    ensures CookieRun(Cookie(InName, [], [], quote, dict), Quoted(name, value) + rest, true)
            == CookieRun(Cookie(Ignoring, [], [], QUOTE, if IsCookieAttribute(name, true) then dict
                else dict + [(name, value)]),
                         rest, true)
  {
    hide CookieRun, IsCookieAttribute;
    var k := Cookie(InName, [], [], quote, dict);
    var r3 := [QUOTE] + rest;
    var r2 := value + r3;
    var r1 := [EQ, QUOTE] + r2;
    assert Quoted(name, value) + rest == name + r1;
    CookieNameCollects(k, name, r1);
    assert [] + name == name && [] + value == value;
    OpeningQuote(dict, quote, name, r2);
    CookieValueCollects(Cookie(InValue, name, [], QUOTE, dict), value, r3);
    ClosingQuote(dict, name, value, rest);
  }

  lemma OpeningQuote(dict: Dict, quote: byte, name: bytes, rest: bytes)
    requires name != []
    ensures CookieRun(Cookie(InName, name, [], quote, dict), [EQ, QUOTE] + rest, true)
            == CookieRun(Cookie(InValue, name, [], QUOTE, dict), rest, true)
  {
    var s := [EQ, QUOTE] + rest;
    assert s[1..] == [QUOTE] + rest && s[1..][1..] == rest;
  }

  lemma ClosingQuote(dict: Dict, name: bytes, value: bytes, rest: bytes)
    ensures CookieRun(Cookie(InValue, name, value, QUOTE, dict), [QUOTE] + rest, true)
            == CookieRun(Cookie(Ignoring, [], [], QUOTE, if IsCookieAttribute(name, true) then dict
                else dict + [(name, value)]),
                         rest, true)
  {
    hide IsCookieAttribute;
    assert ([QUOTE] + rest)[1..] == rest;
  }

  lemma SeparatorParses(dict: Dict, rest: bytes)
    ensures CookieRun(Cookie(Ignoring, [], [], QUOTE, dict), [59, SP] + rest, true)
            == CookieRun(Cookie(InName, [], [], QUOTE, dict), rest, true)
  {
    var s := [59, SP] + rest;
    assert s[1..] == [SP] + rest && s[1..][1..] == rest;
  }

  /** "; name=\"value\"" for an attribute leaves the dictionary alone. */
  lemma AttributeParses(dict: Dict, name: bytes, value: bytes, rest: bytes)
    requires CookieName(name) && CookieValue(value) && IsCookieAttribute(name, true)
    ensures CookieRun(Cookie(Ignoring, [], [], QUOTE, dict), [59, SP] + Quoted(name, value) + rest, true)
            == CookieRun(Cookie(Ignoring, [], [], QUOTE, dict), rest, true)
  {
    assert [59, SP] + Quoted(name, value) + rest == [59, SP] + (Quoted(name, value) + rest);
    SeparatorParses(dict, Quoted(name, value) + rest);
    QuotedParses(dict, QUOTE, name, value, rest);
  }

  lemma NumeralIsValue(n: nat)
    requires n <= SIZE_MAX
    ensures CookieValue(Numeral(n, 10))
  {
    hide Numeral;
    DecimalDigits(n);
    NumeralFits(n);
  }

  lemma VersionReserved()
    ensures CookieName(Str("Version")) && IsCookieAttribute(Str("Version"), true) && CookieValue(Str("1"))
  {
  }

  lemma PathReserved()
    ensures CookieName(Str("Path")) && IsCookieAttribute(Str("Path"), true)
  {
  }

  lemma MaxAgeReserved()
    ensures CookieName(Str("Max-Age")) && IsCookieAttribute(Str("Max-Age"), true)
  {
  }

  lemma IgnoringEnds(dict: Dict)
    ensures CookieRun(Cookie(Ignoring, [], [], QUOTE, dict), [], true) == (dict, true)
  {
  }

  /** Parsing a printed Set-Cookie header yields exactly the one cookie: Version, Path and
      Max-Age are dropped, and an empty value is kept. */
  lemma SetCookieRoundTrip(dict: Dict, name: bytes, value: bytes, path: bytes, hasMaxAge: bool, maxAge: nat)
    requires CookieName(name) && !IsCookieAttribute(name, true)
    requires CookieValue(value) && CookieValue(path) && maxAge <= SIZE_MAX
    ensures ParseCookie(dict, MakeSetCookie(name, value, path, hasMaxAge, maxAge), true)
            == (dict + [(name, value)], true)
  {
    hide CookieRun, IsCookieAttribute, CookieName, CookieValue, Numeral;
    var d := dict + [(name, value)];
    var age := if hasMaxAge then [59, SP] + Quoted(Str("Max-Age"), Numeral(maxAge, 10)) else [];
    var pth := if path != [] then [59, SP] + Quoted(Str("Path"), path) else [];
    var ver := [59, SP] + Quoted(Str("Version"), Str("1"));
    assert MakeSetCookie(name, value, path, hasMaxAge, maxAge) == Quoted(name, value) + (ver + (pth + age));
    QuotedParses(dict, 0, name, value, ver + (pth + age));
    VersionReserved();
    PathReserved();
    MaxAgeReserved();
    AttributeParses(d, Str("Version"), Str("1"), pth + age);
    if path != [] {
      AttributeParses(d, Str("Path"), path, age);
    } else {
      assert pth + age == age;
    }
    IgnoringEnds(d);
    if hasMaxAge {
      NumeralIsValue(maxAge);
      assert age == age + [];
      AttributeParses(d, Str("Max-Age"), Numeral(maxAge, 10), []);
    }
  }
}
