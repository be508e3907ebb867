/** base64_encode and base64_decode of HTTPTypes.cpp, and the credentials of HTTPBasicAuth. */
module Base64 {
  import opened Wrappers
  import opened Bytes

  const PAD: byte := 61
  const COLON: byte := 58

  /** encoding_data */
  function EncodeSextet(n: nat): byte
    requires n < 64
  {
    if n < 26 then 65 + n else if n < 52 then 71 + n else if n < 62 then n - 4 else if n == 62 then 43 else 47
  }

  /** decoding_data, for characters 0..127; None is the table's "nop". */
  function DecodeSextet(c: byte): (r: Option<nat>)
    ensures r.Some? ==> r.value < 64
  {
    if 65 <= c <= 90 then Some(c - 65) else if 97 <= c <= 122 then Some(c - 71)
    else if 48 <= c <= 57 then Some(c + 4) else if c == 43 then Some(62) else if c == 47 then Some(63) else None
  }

  /** The alphabet of section 4 of RFC 4648. */
  const ALPHABET: bytes := Str("ABCDEFGHIJKLMNOPQRSTUVWXYZ") + Str("abcdefghijklmnopqrstuvwxyz") + Str("0123456789+/")

  lemma UpperPart(n: nat)
    requires n < 26
    ensures Str("ABCDEFGHIJKLMNOPQRSTUVWXYZ")[n] == 65 + n
  {
  }

  lemma LowerPart(n: nat)
    requires n < 26
    ensures Str("abcdefghijklmnopqrstuvwxyz")[n] == 97 + n
  {
  }

  lemma LastPart(n: nat)
    requires n < 12
    ensures Str("0123456789+/")[n] == if n < 10 then 48 + n else if n == 10 then 43 else 47
  {
  }

  /** The table is the standard alphabet. */
  lemma Alphabet(n: nat)
    requires n < 64
    ensures |ALPHABET| == 64 && EncodeSextet(n) == ALPHABET[n]
  {
    hide Str;
    if n < 26 {
      UpperPart(n);
    } else if n < 52 {
      LowerPart(n - 26);
    } else {
      LastPart(n - 52);
    }
  }

  lemma SextetRoundTrip(n: nat)
    requires n < 64
    ensures DecodeSextet(EncodeSextet(n)) == Some(n) && EncodeSextet(n) != PAD && EncodeSextet(n) < 128
  {
  }

  // ---------------------------------------------------------------- encoding

  /** The four characters for up to three bytes. */
  function EncodeGroup(s: bytes): bytes
    requires 1 <= |s|
  {
    var c0, c1 := s[0] / 4, s[0] % 4 * 16;
    if |s| == 1 then [EncodeSextet(c0), EncodeSextet(c1), PAD, PAD]
    else
      var d1, d2 := c1 + s[1] / 16, s[1] % 16 * 4;
      if |s| == 2 then [EncodeSextet(c0), EncodeSextet(d1), EncodeSextet(d2), PAD]
      else [EncodeSextet(c0), EncodeSextet(d1), EncodeSextet(d2 + s[2] / 64), EncodeSextet(s[2] % 64)]
  }

  function Encode(s: bytes): (r: bytes)
    ensures |r| == (|s| + 2) / 3 * 4
  {
    if s == [] then [] else if |s| <= 3 then EncodeGroup(s) else EncodeGroup(s[..3]) + Encode(s[3..])
  }

  lemma GroupOfThree(s: bytes)
    requires |s| > 3
    ensures EncodeGroup(s) == EncodeGroup(s[..3])
  {
    hide EncodeSextet;
    var g := s[..3];
    assert g[0] == s[0] && g[1] == s[1] && g[2] == s[2];
  }

  lemma EncodeSplit(s: bytes)
    requires s != []
    ensures |s| <= 3 ==> Encode(s) == EncodeGroup(s)
    ensures |s| > 3 ==> Encode(s) == EncodeGroup(s) + Encode(s[3..])
  {
    hide EncodeGroup;
    if |s| > 3 {
      GroupOfThree(s);
    }
  }

  /** The body of the encoding loop: up to three bytes from index `i`. */
  method EncodeAt(input: bytes, i: nat) returns (group: bytes, i': nat)
    requires i < |input|
    ensures group == EncodeGroup(input[i..]) && i' == (if i + 3 < |input| then i + 3 else |input|)
  {
    i' := i;
    group := [EncodeSextet(input[i'] / 4)];
    var code := input[i'] % 4 * 16;
    i' := i' + 1;
    if i' < |input| {
      code := code + input[i'] / 16;
      group := group + [EncodeSextet(code)];
      code := input[i'] % 16 * 4;
      i' := i' + 1;
      if i' < |input| {
        group := group + [EncodeSextet(code + input[i'] / 64), EncodeSextet(input[i'] % 64)];
        i' := i' + 1;
      } else {
        group := group + [EncodeSextet(code), PAD];
      }
    } else {
      group := group + [EncodeSextet(code), PAD, PAD];
    }
  }

  /** The loop of base64_encode. */
  method EncodeLoop(input: bytes) returns (output: bytes)
    ensures output == Encode(input)
  {
    output := [];
    var i := 0;
    while i < |input|
      invariant 0 <= i <= |input|
      invariant output + Encode(input[i..]) == Encode(input)
    {
      EncodeSplit(input[i..]);
      var group, next := EncodeAt(input, i);
      assert |input[i..]| > 3 ==> input[i..][3..] == input[next..];
      output := output + group;
      i := next;
    }
  }

  // ---------------------------------------------------------------- decoding

  /** What base64_decode does: the output, "return false", a failed padding assertion, or a
      character above 127, which is a negative index outside the table. */
  datatype Decoded = Ok(out: bytes) | Bad | AssertionFailed | OutOfTable

  function Then(out: bytes, d: Decoded): Decoded { if d.Ok? then Ok(out + d.out) else d }

  predicate SevenBit(s: bytes) { forall i :: 0 <= i < |s| ==> s[i] < 128 }

  function Decode(s: bytes): Decoded {
    if s == [] then Ok([])
    else if s[0] >= 128 then OutOfTable
    else if DecodeSextet(s[0]).None? || |s| == 1 then Bad
    else if s[1] >= 128 then OutOfTable
    else if DecodeSextet(s[1]).None? then Bad
    else
      var c0, c1 := DecodeSextet(s[0]).value, DecodeSextet(s[1]).value;
      var b0 := c0 * 4 + c1 / 16;
      if |s| == 2 then Ok([b0])
      else if s[2] == PAD then (if c1 % 16 == 0 then Ok([b0]) else AssertionFailed)
      else if s[2] >= 128 then OutOfTable
      else if DecodeSextet(s[2]).None? then Bad
      else
        var c2 := DecodeSextet(s[2]).value;
        var b1 := c1 % 16 * 16 + c2 / 4;
        if |s| == 3 then Ok([b0, b1])
        else if s[3] == PAD then (if c2 % 4 == 0 then Ok([b0, b1]) else AssertionFailed)
        else if s[3] >= 128 then OutOfTable
        else if DecodeSextet(s[3]).None? then Bad
        else Then([b0, b1, c2 % 4 * 64 + DecodeSextet(s[3]).value], Decode(s[4..]))
  }

  /** On characters up to 127 the table is never left. */
  lemma {:induction false} StaysInTable(s: bytes)
    requires SevenBit(s)
    ensures !Decode(s).OutOfTable?
    decreases |s|
  {
    if |s| >= 4 {
      StaysInTable(s[4..]);
    }
  }

  /** The body of the decoding loop: up to four characters from index `i`.  Either it
      returns, or the three bytes of a full group have been put out, or the input has ended. */
  method DecodeAt(input: bytes, i: nat) returns (group: bytes, stop: Option<Decoded>)
    requires i < |input|
    ensures stop.Some? ==> Decode(input[i..]) == stop.value
    ensures stop.None? ==> i + 4 <= |input| && Decode(input[i..]) == Then(group, Decode(input[i + 4..]))
  {
    hide DecodeSextet;
    ghost var s := input[i..];
    assert |s| >= 4 ==> s[4..] == input[i + 4..];
    group, stop := [], Some(Bad);
    if input[i] >= 128 {
      return group, Some(OutOfTable);
    }
    var code0 := DecodeSextet(input[i]);
    if code0.None? || i + 1 >= |input| {
      return;
    }
    if input[i + 1] >= 128 {
      return group, Some(OutOfTable);
    }
    var code1 := DecodeSextet(input[i + 1]);
    if code1.None? {
      return;
    }
    group := [code0.value * 4 + code1.value / 16];
    if i + 2 >= |input| {
      return group, Some(Ok(group));
    }
    if input[i + 2] == PAD {
      return group, Some(if code1.value % 16 == 0 then Ok(group) else AssertionFailed);
    }
    if input[i + 2] >= 128 {
      return group, Some(OutOfTable);
    }
    var code2 := DecodeSextet(input[i + 2]);
    if code2.None? {
      return;
    }
    group := group + [code1.value % 16 * 16 + code2.value / 4];
    if i + 3 >= |input| {
      return group, Some(Ok(group));
    }
    if input[i + 3] == PAD {
      return group, Some(if code2.value % 4 == 0 then Ok(group) else AssertionFailed);
    }
    if input[i + 3] >= 128 {
      return group, Some(OutOfTable);
    }
    var code3 := DecodeSextet(input[i + 3]);
    if code3.None? {
      return;
    }
    group, stop := group + [code2.value % 4 * 64 + code3.value], None;
  }

  /** The loop of base64_decode. */
  method DecodeLoop(input: bytes) returns (d: Decoded)
    ensures d == Decode(input)
  {
    hide Decode;
    var output, i := [], 0;
    assert input[0..] == input;
    assert Then([], Decode(input)) == Decode(input);
    while i < |input|
      invariant 0 <= i <= |input|
      invariant Then(output, Decode(input[i..])) == Decode(input)
    {
      var group, stop := DecodeAt(input, i);
      if stop.Some? {
        return Then(output, stop.value);
      }
      ThenThen(output, group, Decode(input[i + 4..]));
      output := output + group;
      i := i + 4;
    }
    assert input[i..] == [];
    NothingDecodes();
    assert output + [] == output;
    d := Ok(output);
  }

  lemma ThenThen(a: bytes, b: bytes, d: Decoded)
    ensures Then(a, Then(b, d)) == Then(a + b, d)
  {
    if d.Ok? {
      assert a + (b + d.out) == a + b + d.out;
    }
  }

  lemma NothingDecodes()
    ensures Decode([]) == Ok([])
  {
  }

  lemma FourSextetsDecode(c0: nat, c1: nat, c2: nat, c3: nat, rest: bytes)
    requires c0 < 64 && c1 < 64 && c2 < 64 && c3 < 64
    ensures var e := [EncodeSextet(c0), EncodeSextet(c1), EncodeSextet(c2), EncodeSextet(c3)] + rest;
            Decode(e) == Then([c0 * 4 + c1 / 16, c1 % 16 * 16 + c2 / 4, c2 % 4 * 64 + c3], Decode(rest))
  {
    hide EncodeSextet, DecodeSextet;
    var e := [EncodeSextet(c0), EncodeSextet(c1), EncodeSextet(c2), EncodeSextet(c3)] + rest;
    SextetRoundTrip(c0);
    SextetRoundTrip(c1);
    SextetRoundTrip(c2);
    SextetRoundTrip(c3);
    assert e[4..] == rest;
  }

  lemma FullGroupDecodes(s: bytes, rest: bytes)
    requires |s| == 3
    ensures Decode(EncodeGroup(s) + rest) == Then(s, Decode(rest))
  {
    hide Decode, EncodeSextet;
    FourSextetsDecode(s[0] / 4, s[0] % 4 * 16 + s[1] / 16, s[1] % 16 * 4 + s[2] / 64, s[2] % 64, rest);
    assert [s[0], s[1], s[2]] == s;
  }

  lemma ShortGroupDecodes(s: bytes)
    requires 1 <= |s| <= 2
    ensures Decode(EncodeGroup(s)) == Ok(s)
  {
    hide EncodeSextet, DecodeSextet;
    SextetRoundTrip(s[0] / 4);
    if |s| == 1 {
      SextetRoundTrip(s[0] % 4 * 16);
      assert [s[0]] == s;
    } else {
      SextetRoundTrip(s[0] % 4 * 16 + s[1] / 16);
      SextetRoundTrip(s[1] % 16 * 4);
      assert [s[0], s[1]] == s;
    }
  }

  lemma {:induction false} EncodeSevenBit(s: bytes)
    ensures SevenBit(Encode(s))
    decreases |s|
  {
    if |s| > 3 {
      EncodeSevenBit(s[3..]);
    }
  }

  /** Decoding the encoder's output always succeeds with the original bytes, and the
      padding assertions never fire on it. */
  lemma {:induction false} RoundTrip(s: bytes)
    ensures SevenBit(Encode(s)) && Decode(Encode(s)) == Ok(s)
    decreases |s|
  {
    EncodeSevenBit(s);
    if s == [] {
    } else if |s| <= 2 {
      ShortGroupDecodes(s);
    } else if |s| == 3 {
      assert EncodeGroup(s) + [] == EncodeGroup(s) && s + [] == s;
      FullGroupDecodes(s, []);
    } else {
      RoundTrip(s[3..]);
      FullGroupDecodes(s[..3], Encode(s[3..]));
      assert s[..3] + s[3..] == s;
    }
  }

  // ---------------------------------------------------------------- credentials

  /** std::string::find of one character. */
  function IndexOf(s: bytes, c: byte): Option<nat> {
    if s == [] then None else if s[0] == c then Some(0)
    else match IndexOf(s[1..], c) case None => None case Some(i) => Some(i + 1)
  }

  lemma {:induction false} IndexOfFirst(a: bytes, c: byte, b: bytes)
    requires c !in a
    ensures IndexOf(a + [c] + b, c) == Some(|a|)
  {
    if a != [] {
      IndexOfFirst(a[1..], c, b);
      assert (a + [c] + b)[1..] == a[1..] + [c] + b;
    }
  }

  lemma {:induction false} IndexOfSound(s: bytes, c: byte)
    ensures match IndexOf(s, c) case None => c !in s case Some(i) => i < |s| && s[i] == c && c !in s[..i]
  {
    if s != [] {
      IndexOfSound(s[1..], c);
      match IndexOf(s, c)
      case None =>
        assert s == [s[0]] + s[1..];
      case Some(i) =>
        assert i > 0 ==> s[..i] == [s[0]] + s[1..][..i - 1];
    }
  }

  function ParseAuthorization(header: bytes): Option<bytes> {
    var basic := Str("Basic ");
    if basic <= header && |header| > |basic| then Some(header[|basic|..]) else None
  }

  /** A user and password, "return false", or whatever decoding ran into. */
  datatype Credentials = User(name: bytes, password: bytes) | Rejected | Failed(d: Decoded)

  function ParseCredentials(credentials: bytes): Credentials {
    match Decode(credentials)
    case Ok(text) =>
      (match IndexOf(text, COLON)
       case None => Rejected
       case Some(i) => IndexOfSound(text, COLON); if i == 0 then Rejected else User(text[..i], text[i + 1..]))
    case Bad => Rejected
    case d => Failed(d)
  }

  /** The Authorization header a client builds for a user is understood exactly when the
      user name is not empty, provided it has no colon; the password may be anything. */
  lemma CredentialsRoundTrip(user: bytes, password: bytes)
    requires COLON !in user
    ensures ParseAuthorization(Str("Basic ") + Encode(user + [COLON] + password))
            == Some(Encode(user + [COLON] + password))
    ensures ParseCredentials(Encode(user + [COLON] + password)) == if user == [] then Rejected else User(user, password)
  {
    hide Encode, Decode;
    var text := user + [COLON] + password;
    RoundTrip(text);
    IndexOfFirst(user, COLON, password);
    var header := Str("Basic ") + Encode(text);
    assert header[|Str("Basic ")|..] == Encode(text);
    assert text[..|user|] == user && text[|user| + 1..] == password;
  }

  /** A user name with a colon is cut at the first one. */
  lemma ColonCutsUser(user: bytes, more: bytes, password: bytes)
    requires COLON !in user && user != []
    ensures ParseCredentials(Encode(user + [COLON] + more + [COLON] + password))
            == User(user, more + [COLON] + password)
  {
    hide Encode, Decode;
    var rest := more + [COLON] + password;
    assert user + [COLON] + more + [COLON] + password == user + [COLON] + rest;
    CredentialsRoundTrip(user, rest);
  }
}
