/** Bytes, character classes, numerals and the case-insensitive dictionaries of HTTP. */
module Bytes {
  import opened Wrappers

  type byte = x: int | 0 <= x < 256
  type bytes = seq<byte>

  const CR: byte := 13
  const LF: byte := 10
  const SP: byte := 32
  const HT: byte := 9
  const CRLF: bytes := [CR, LF]

  /** The bytes of an ASCII literal. */
  function Str(s: string): (r: bytes)
    ensures |r| == |s|
  {
    seq(|s|, i requires 0 <= i < |s| => s[i] as int % 256)
  }

  // ---------------------------------------------------------------- character classes (HTTPParser.hpp)

  predicate IsChar(c: byte) { c < 128 }
  predicate IsControl(c: byte) { c < 32 || c == 127 }
  predicate IsSpecial(c: byte) {
    c == 40 || c == 41 || c == 60 || c == 62 || c == 64 || c == 44 || c == 59 || c == 58 || c == 92 || c == 34
    || c == 47 || c == 91 || c == 93 || c == 63 || c == 61 || c == 123 || c == 125 || c == SP || c == HT
  }
  predicate IsToken(c: byte) { IsChar(c) && !IsControl(c) && !IsSpecial(c) }
  predicate IsBlank(c: byte) { c == SP || c == HT }
  predicate IsDigit(c: byte) { 48 <= c <= 57 }
  predicate IsHexDigit(c: byte) { IsDigit(c) || 97 <= c <= 102 || 65 <= c <= 70 }

  // ---------------------------------------------------------------- numerals

  /** What lexical_cast and printf("%lx") write, for base 10 and 16. */
  function Digit(d: nat): byte
    requires d < 16
  {
    if d < 10 then 48 + d else 87 + d
  }

  function DigitValue(c: byte): nat
    requires IsHexDigit(c)
  {
    if IsDigit(c) then c - 48 else if c >= 97 then c - 87 else c - 55
  }

  /** The two bases in use. */
  type Base = b: nat | b == 10 || b == 16 witness 10

  function Quotient(n: nat, base: Base): nat { if base == 10 then n / 10 else n / 16 }
  function Remainder(n: nat, base: Base): nat { if base == 10 then n % 10 else n % 16 }
  function Times(n: nat, base: Base): nat { if base == 10 then 10 * n else 16 * n }

  function Numeral(n: nat, base: Base): (r: bytes)
    ensures r != [] && forall i :: 0 <= i < |r| ==> IsHexDigit(r[i])
    decreases n
  {
    if n < base then [Digit(n)] else Numeral(Quotient(n, base), base) + [Digit(Remainder(n, base))]
  }

  /** Positional value, most significant digit first. */
  function NumeralValue(s: bytes, base: Base): nat
    requires forall i :: 0 <= i < |s| ==> IsHexDigit(s[i])
  {
    if s == [] then 0 else Times(NumeralValue(s[..|s| - 1], base), base) + DigitValue(s[|s| - 1])
  }

  lemma DigitRoundTrip(d: nat)
    requires d < 16
    ensures IsHexDigit(Digit(d)) && DigitValue(Digit(d)) == d
  {
  }

  lemma AppendDigit(s: bytes, c: byte, base: Base)
    requires IsHexDigit(c) && forall i :: 0 <= i < |s| ==> IsHexDigit(s[i])
    ensures NumeralValue(s + [c], base) == Times(NumeralValue(s, base), base) + DigitValue(c)
  {
    assert (s + [c])[..|s|] == s;
  }

  lemma OneDigit(c: byte, base: Base)
    requires IsHexDigit(c)
    ensures NumeralValue([c], base) == DigitValue(c)
  {
    assert [c][..0] == [];
  }

  /** Reading a printed numeral gives the number back. */
  lemma {:induction false} NumeralRoundTrip(n: nat, base: Base)
    ensures NumeralValue(Numeral(n, base), base) == n
  {
    hide NumeralValue;
    var q, r := Quotient(n, base), Remainder(n, base);
    DigitRoundTrip(r);
    if n < base {
      OneDigit(Digit(n), base);
    } else {
      NumeralRoundTrip(q, base);
      AppendDigit(Numeral(q, base), Digit(r), base);
    }
  }

  lemma {:induction false} DecimalDigits(n: nat)
    ensures forall i :: 0 <= i < |Numeral(n, 10)| ==> IsDigit(Numeral(n, 10)[i])
  {
    if n >= 10 {
      DecimalDigits(n / 10);
    }
  }

  const SIZE_MAX: nat := 0xFFFF_FFFF_FFFF_FFFF
  const LONG_MAX: nat := 0x7FFF_FFFF_FFFF_FFFF

  function Power(k: nat): nat { if k == 0 then 1 else 10 * Power(k - 1) }

  /** A number below 10^k has at most k digits. */
  lemma {:induction false} NumeralShort(n: nat, k: nat)
    requires k > 0 && n < Power(k)
    ensures |Numeral(n, 10)| <= k
    decreases k
  {
    if n >= 10 {
      NumeralShort(n / 10, k - 1);
    }
  }

  lemma NumeralFits(n: nat)
    requires n <= SIZE_MAX
    ensures |Numeral(n, 10)| <= 20
  {
    assert Power(5) == 10_0000;
    assert Power(10) == 100_0000_0000;
    assert Power(15) == 1000_0000_0000_0000;
    assert Power(20) == 1_0000_0000_0000_0000_0000;
    NumeralShort(n, 20);
  }

  /** lexical_cast<std::size_t>: a non-empty run of digits that fits. */
  function ParseSize(s: bytes): Option<nat> {
    if s != [] && (forall i :: 0 <= i < |s| ==> IsDigit(s[i])) && NumeralValue(s, 10) <= SIZE_MAX
    then Some(NumeralValue(s, 10)) else None
  }

  /** strtol(s, 0, 16) on a run of hexadecimal digits. */
  function ParseHex(s: bytes): nat
    requires forall i :: 0 <= i < |s| ==> IsHexDigit(s[i])
  {
    if NumeralValue(s, 16) <= LONG_MAX then NumeralValue(s, 16) else LONG_MAX
  }

  predicate IsSpace(c: byte) { 9 <= c <= 13 || c == SP }

  /** boost::algorithm::trim */
  function Trim(s: bytes): bytes
    decreases |s|
  {
    if s != [] && IsSpace(s[0]) then Trim(s[1..])
    else if s != [] && IsSpace(s[|s| - 1]) then Trim(s[..|s| - 1])
    else s
  }

  // ---------------------------------------------------------------- dictionaries (PionHashMap.hpp)

  function Lower(c: byte): byte { if 65 <= c <= 90 then c + 32 else c }

  predicate SameName(a: bytes, b: bytes) {
    |a| == |b| && forall i :: 0 <= i < |a| ==> Lower(a[i]) == Lower(b[i])
  }

  lemma SameTransitive(a: bytes, b: bytes, c: bytes)
    requires SameName(a, b) && SameName(a, c)
    ensures SameName(b, c)
  {
  }

  /** A case-insensitive multimap, in the order in which it is iterated. */
  type Dict = seq<(bytes, bytes)>

  predicate Has(d: Dict, key: bytes) {
    exists i :: 0 <= i < |d| && SameName(d[i].0, key)
  }

  /** find: the first value under the key. */
  function Find(d: Dict, key: bytes): Option<bytes> {
    if d == [] then None else if SameName(d[0].0, key) then Some(d[0].1) else Find(d[1..], key)
  }

  lemma {:induction false} FindHas(d: Dict, key: bytes)
    ensures Find(d, key).Some? <==> Has(d, key)
  {
    if d != [] {
      FindHas(d[1..], key);
      if Has(d[1..], key) {
        var i :| 0 <= i < |d[1..]| && SameName(d[1..][i].0, key);
        assert d[i + 1] == d[1..][i];
      }
      if Has(d, key) && !SameName(d[0].0, key) {
        var i :| 0 <= i < |d| && SameName(d[i].0, key);
        assert d[1..][i - 1] == d[i];
      }
    }
  }

  /** What is found is the value of an entry under the key. */
  lemma {:induction false} FoundAt(d: Dict, key: bytes)
    requires Find(d, key).Some?
    ensures exists i :: 0 <= i < |d| && SameName(d[i].0, key) && d[i].1 == Find(d, key).value
  {
    if !SameName(d[0].0, key) {
      FoundAt(d[1..], key);
      var i :| 0 <= i < |d[1..]| && SameName(d[1..][i].0, key) && d[1..][i].1 == Find(d[1..], key).value;
      assert d[i + 1] == d[1..][i];
    }
  }

  /** Entry `i` is the first one under the key. */
  predicate FirstUnder(d: Dict, key: bytes, i: int) {
    0 <= i < |d| && SameName(d[i].0, key) && forall j :: 0 <= j < i ==> !SameName(d[j].0, key)
  }

  /** What is found is the value of the first entry. */
  lemma {:induction false} FindsFirst(d: Dict, key: bytes)
    ensures match Find(d, key)
            case None => forall i :: 0 <= i < |d| ==> !SameName(d[i].0, key)
            case Some(v) => exists i :: 0 <= i < |d| && FirstUnder(d, key, i) && d[i].1 == v
  {
    hide SameName;
    if d != [] && !SameName(d[0].0, key) {
      FindsFirst(d[1..], key);
      if Find(d, key).Some? {
        var i :| 0 <= i < |d[1..]| && FirstUnder(d[1..], key, i) && d[1..][i].1 == Find(d, key).value;
        assert forall j :: 0 < j <= i + 1 ==> d[j] == d[1..][j - 1];
        assert FirstUnder(d, key, i + 1);
      } else {
        assert forall j :: 0 < j < |d| ==> d[j] == d[1..][j - 1];
      }
    } else if d != [] {
      assert FirstUnder(d, key, 0);
    }
  }

  /** Every entry under the key is dropped. */
  function Without(d: Dict, key: bytes): Dict {
    if d == [] then [] else (if SameName(d[0].0, key) then [] else [d[0]]) + Without(d[1..], key)
  }

  /** changeValue: the first entry under the key gets the value and the other entries under
      it are removed; a missing key is added. */
  function ChangeValue(d: Dict, key: bytes, value: bytes): Dict {
    if d == [] then [(key, value)]
    else if SameName(d[0].0, key) then [(d[0].0, value)] + Without(d[1..], key)
    else [d[0]] + ChangeValue(d[1..], key, value)
  }

  /** After changeValue the key has exactly the new value... */
  lemma {:induction false} ChangedFound(d: Dict, key: bytes, value: bytes)
    ensures Find(ChangeValue(d, key, value), key) == Some(value)
    ensures exists name ::
              && SameName(name, key)
              && multiset(ChangeValue(d, key, value)) == multiset(Without(d, key)) + multiset{(name, value)}
  {
    if d == [] {
      assert ChangeValue(d, key, value) == [(key, value)];
    } else if SameName(d[0].0, key) {
      var r := ChangeValue(d, key, value);
      assert r == [(d[0].0, value)] + Without(d[1..], key);
      assert Without(d, key) == Without(d[1..], key);
    } else {
      ChangedFound(d[1..], key, value);
      var r := ChangeValue(d[1..], key, value);
      var name :| SameName(name, key) && multiset(r) == multiset(Without(d[1..], key)) + multiset{(name, value)};
      assert ([d[0]] + r)[1..] == r;
      assert Without(d, key) == [d[0]] + Without(d[1..], key);
      assert multiset(ChangeValue(d, key, value)) == multiset(Without(d, key)) + multiset{(name, value)};
    }
  }

  lemma {:induction false} WithoutFind(d: Dict, key: bytes, other: bytes)
    requires !SameName(key, other)
    ensures Find(Without(d, key), other) == Find(d, other)
  {
    if d != [] {
      WithoutFind(d[1..], key, other);
      if !SameName(d[0].0, key) {
        assert Without(d, key)[1..] == Without(d[1..], key);
      } else {
        assert Without(d, key) == Without(d[1..], key);
        if SameName(d[0].0, other) {
          SameTransitive(d[0].0, key, other);
        }
      }
    }
  }

  /** ... and every other key is untouched. */
  lemma {:induction false} ChangedElsewhere(d: Dict, key: bytes, value: bytes, other: bytes)
    requires !SameName(key, other)
    ensures Find(ChangeValue(d, key, value), other) == Find(d, other)
  {
    if d != [] {
      var r := ChangeValue(d, key, value);
      if SameName(d[0].0, key) {
        WithoutFind(d[1..], key, other);
        assert r[1..] == Without(d[1..], key);
        if SameName(d[0].0, other) {
          SameTransitive(d[0].0, key, other);
        }
      } else {
        ChangedElsewhere(d[1..], key, value, other);
        assert r[1..] == ChangeValue(d[1..], key, value);
      }
    }
  }

  // ---------------------------------------------------------------- sequences of sequences

  function Concat<T>(xs: seq<seq<T>>): seq<T> {
    if xs == [] then [] else xs[0] + Concat(xs[1..])
  }

  function Take<T>(s: seq<T>, n: nat): seq<T> { if n < |s| then s[..n] else s }
}
