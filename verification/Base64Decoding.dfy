/** What base64_decode makes of any byte string, encoded by whom it may be. */
module Base64Decoding {
  import opened Wrappers
  import opened Bytes
  import opened Base64

  /** The number of characters of the alphabet that the string begins with. */
  function Letters(s: bytes): (n: nat)
    ensures n <= |s|
  {
    if s == [] || DecodeSextet(s[0]).None? then 0 else 1 + Letters(s[1..])
  }

  /** A character is decoded exactly if it is of the alphabet. */
  lemma OnlyTheAlphabet(c: byte)
    ensures DecodeSextet(c).Some? <==> c in ALPHABET
  {
    hide EncodeSextet;
    Alphabet(0);
    if DecodeSextet(c).Some? {
      Alphabet(DecodeSextet(c).value);
      DecodedLetter(c);
    }
    if c in ALPHABET {
      var n :| 0 <= n < 64 && ALPHABET[n] == c;
      Alphabet(n);
      SextetRoundTrip(n);
    }
  }

  lemma DecodedLetter(c: byte)
    requires DecodeSextet(c).Some?
    ensures EncodeSextet(DecodeSextet(c).value) == c && c < 128 && c != PAD
  {
  }

  /** The bits of the last character of the run that are not part of any byte. */
  function LeftOver(s: bytes): nat {
    var n := Letters(s);
    if n % 4 == 2 then LastBits(s[n - 1], 16) else if n % 4 == 3 then LastBits(s[n - 1], 4) else 0
  }

  function LastBits(c: byte, m: nat): nat
    requires m > 0
  {
    match DecodeSextet(c) case Some(v) => v % m case None => 0
  }

  /** The padding an encoder writes after a run of this length. */
  function Padding(n: nat): bytes { if n % 4 == 2 then [PAD, PAD] else if n % 4 == 3 then [PAD] else [] }

  /** What becomes of a string: it is decoded if it ends with its run, unless one character
      stands alone, or if padding follows where it may. */
  datatype Ending = Fine | NotDecoded | BadPadding | NotAscii

  function EndingOf(s: bytes): Ending {
    var n := Letters(s);
    if n == |s| then (if n % 4 == 1 then NotDecoded else Fine)
    else if s[n] >= 128 then NotAscii
    else if s[n] == PAD && n % 4 >= 2 then (if LeftOver(s) == 0 then Fine else BadPadding)
    else NotDecoded
  }

  predicate EndsAs(d: Decoded, e: Ending) {
    match e
    case Fine => d.Ok?
    case NotDecoded => d.Bad?
    case BadPadding => d.AssertionFailed?
    case NotAscii => d.OutOfTable?
  }

  lemma {:induction false} RunOfLetters(s: bytes, k: nat)
    requires k <= Letters(s)
    ensures forall i :: 0 <= i < Letters(s) ==> DecodeSextet(s[i]).Some?
    ensures Letters(s) < |s| ==> DecodeSextet(s[Letters(s)]).None?
    ensures Letters(s[k..]) == Letters(s) - k
    decreases |s|
  {
    hide DecodeSextet;
    if k == 0 {
      assert s[k..] == s;
    }
    if Letters(s) > 0 {
      RunOfLetters(s[1..], if k == 0 then 0 else k - 1);
      if k > 0 {
        assert s[1..][k - 1..] == s[k..];
      }
    }
  }

  /** Four letters make no difference to how a string ends. */
  lemma FourLetters(s: bytes)
    requires Letters(s) >= 4
    ensures Letters(s[4..]) == Letters(s) - 4 && EndingOf(s[4..]) == EndingOf(s) && LeftOver(s[4..]) == LeftOver(s)
  {
    hide Letters, LastBits;
    var n := Letters(s);
    RunOfLetters(s, 4);
    assert n < |s| ==> s[4..][n - 4] == s[n];
    assert n > 4 ==> s[4..][n - 5] == s[n - 1];
    assert (n - 4) % 4 == n % 4;
  }

  lemma ThreeBytes(v0: nat, v1: nat, v2: nat, v3: nat)
    requires v0 < 64 && v1 < 64 && v2 < 64 && v3 < 64
    ensures EncodeGroup([v0 * 4 + v1 / 16, v1 % 16 * 16 + v2 / 4, v2 % 4 * 64 + v3])
            == [EncodeSextet(v0), EncodeSextet(v1), EncodeSextet(v2), EncodeSextet(v3)]
  {
    hide EncodeSextet;
    var b0, b1, b2 := v0 * 4 + v1 / 16, v1 % 16 * 16 + v2 / 4, v2 % 4 * 64 + v3;
    assert b0 / 4 == v0 && b0 % 4 == v1 / 16;
    assert b1 / 16 == v1 % 16 && b1 % 16 == v2 / 4;
    assert b2 / 64 == v2 % 4 && b2 % 64 == v3;
  }

  lemma GroupFirst(g: bytes, out: bytes)
    requires |g| == 3
    ensures Encode(g + out) == EncodeGroup(g) + Encode(out)
  {
    hide EncodeGroup;
    EncodeSplit(g + out);
    if out == [] {
      assert g + out == g;
      assert Encode(out) == [];
    } else {
      assert (g + out)[3..] == out && (g + out)[..3] == g;
      GroupOfThree(g + out);
    }
  }

  /** A group of four letters is put out as three bytes, whose encoding it is. */
  lemma GroupDecodes(s: bytes)
    requires |s| >= 4 && forall i :: 0 <= i < 4 ==> DecodeSextet(s[i]).Some?
    ensures var d := Decode(s[4..]);
            if d.Ok? then Decode(s).Ok? && |Decode(s).out| == 3 + |d.out|
                && Encode(Decode(s).out) == s[..4] + Encode(d.out)
            else Decode(s) == d
  {
    hide EncodeSextet, DecodeSextet, EncodeGroup;
    DecodedLetter(s[0]);
    DecodedLetter(s[1]);
    DecodedLetter(s[2]);
    DecodedLetter(s[3]);
    var v0, v1, v2, v3 := DecodeSextet(s[0]).value, DecodeSextet(s[1]).value, DecodeSextet(s[2]).value,
        DecodeSextet(s[3]).value;
    var g := [v0 * 4 + v1 / 16, v1 % 16 * 16 + v2 / 4, v2 % 4 * 64 + v3];
    var d := Decode(s[4..]);
    assert Decode(s) == Then(g, d);
    if d.Ok? {
      ThreeBytes(v0, v1, v2, v3);
      GroupFirst(g, d.out);
      assert s[..4] == [s[0], s[1], s[2], s[3]];
    }
  }

  lemma ShortBytes(v0: nat, v1: nat, v2: nat)
    requires v0 < 64 && v1 < 64 && v2 < 64
    ensures v1 % 16 == 0 ==>
              EncodeGroup([v0 * 4 + v1 / 16]) == [EncodeSextet(v0), EncodeSextet(v1), PAD, PAD]
    ensures v2 % 4 == 0 ==>
              EncodeGroup([v0 * 4 + v1 / 16, v1 % 16 * 16 + v2 / 4])
              == [EncodeSextet(v0), EncodeSextet(v1), EncodeSextet(v2), PAD]
  {
    hide EncodeSextet;
    var b0, b1 := v0 * 4 + v1 / 16, v1 % 16 * 16 + v2 / 4;
    assert b0 / 4 == v0 && b0 % 4 == v1 / 16;
    assert b1 / 16 == v1 % 16 && b1 % 16 == v2 / 4;
  }

  /** Fewer than four characters of the alphabet are left. */
  lemma LastGroup(s: bytes)
    requires Letters(s) < 4
    ensures EndsAs(Decode(s), EndingOf(s))
    ensures Decode(s).Ok? ==> |Decode(s).out| == Letters(s) * 3 / 4
    ensures Decode(s).Ok? && LeftOver(s) == 0 ==> Encode(Decode(s).out) == s[..Letters(s)] + Padding(Letters(s))
  {
    hide EncodeSextet, DecodeSextet, EncodeGroup, Letters;
    var n := Letters(s);
    RunOfLetters(s, 0);
    PadIsNone();
    assert forall i :: 0 <= i < n ==> s[i] < 128 && s[i] != PAD by {
      forall i | 0 <= i < n
        ensures s[i] < 128 && s[i] != PAD
      {
        DecodedLetter(s[i]);
      }
    }
    if n >= 2 {
      DecodedLetter(s[0]);
      DecodedLetter(s[1]);
      if n == 3 {
        DecodedLetter(s[2]);
        ShortBytes(DecodeSextet(s[0]).value, DecodeSextet(s[1]).value, DecodeSextet(s[2]).value);
        assert s[..3] == [s[0], s[1], s[2]];
      } else {
        ShortBytes(DecodeSextet(s[0]).value, DecodeSextet(s[1]).value, 0);
        assert s[..2] == [s[0], s[1]];
      }
    }
  }

  lemma PadIsNone()
    ensures DecodeSextet(PAD).None?
  {
  }

  /** For every byte string: base64_decode succeeds, returns false, fails an assertion on the
      padding, or leaves its table, exactly as the string ends after its run of characters of
      the alphabet.  On success the output is as long as the run demands and, no bits being
      left over, it is the one byte string whose encoding is the run with its padding. */
  lemma {:induction false} DecodesExactly(s: bytes)
    ensures EndsAs(Decode(s), EndingOf(s))
    ensures Decode(s).Ok? ==> |Decode(s).out| == Letters(s) * 3 / 4
    ensures Decode(s).Ok? && LeftOver(s) == 0 ==> Encode(Decode(s).out) == s[..Letters(s)] + Padding(Letters(s))
    decreases |s|
  {
    hide DecodeSextet, Letters, EndingOf, LeftOver, Encode, Decode, EndsAs;
    if Letters(s) < 4 {
      LastGroup(s);
    } else {
      var n, t := Letters(s), s[4..];
      FourLetters(s);
      RunOfLetters(s, 4);
      GroupDecodes(s);
      DecodesExactly(t);
      SameEnd(Decode(t), Decode(s), EndingOf(s));
      assert (n - 4) * 3 / 4 + 3 == n * 3 / 4;
      assert Padding(n - 4) == Padding(n);
      Regroup(s, n);
    }
  }

  lemma SameEnd(d: Decoded, d': Decoded, e: Ending)
    requires if d.Ok? then d'.Ok? else d == d'
    ensures EndsAs(d, e) == EndsAs(d', e)
  {
  }

  lemma Regroup(s: bytes, n: nat)
    requires 4 <= n <= |s|
    ensures s[..n] + Padding(n) == s[..4] + (s[4..][..n - 4] + Padding(n))
  {
    assert s[..n] == s[..4] + s[4..][..n - 4];
  }
}
