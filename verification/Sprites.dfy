/** The sprite planner of slicedice.rb: images packed into rows of one sheet. */
module Sprites {

  // ---------------------------------------------------------------- least common multiples

  /** The first multiple of `a`, from the k-th on, that `b` divides. */
  function LcmFrom(a: nat, b: nat, k: nat): (r: nat)
    requires a > 0 && b > 0 && 0 < k <= b
    requires forall j {:trigger j * a} :: 0 < j < k ==> (j * a) % b != 0
    ensures r > 0 && r % a == 0 && r % b == 0
    ensures forall j {:trigger j * a} :: 0 < j && j * a < r ==> (j * a) % b != 0
    decreases b - k
  {
    Multiples(a, b, k);
    if (k * a) % b == 0 then k * a else LcmFrom(a, b, k + 1)
  }

  lemma Multiples(a: nat, b: nat, k: nat)
    requires a > 0 && b > 0 && k > 0
    ensures k * a > 0 && (k * a) % a == 0 && (b * a) % b == 0
    ensures forall j {:trigger j * a} :: 0 < j && j * a < k * a ==> j < k
  {
    MultipleOf(k, a);
    MultipleOf(a, b);
    assert b * a == a * b;
    forall j {:trigger j * a} | 0 < j && j * a < k * a
      ensures j < k
    {
      if j >= k {
        Monotone(a, k, j);
      }
    }
  }

  lemma Monotone(a: nat, k: nat, j: nat)
    requires k <= j
    ensures k * a <= j * a
  {
    assert j * a - k * a == (j - k) * a;
    assert (j - k) * a >= 0;
  }

  lemma MultipleOf(k: nat, a: nat)
    requires a > 0
    ensures (k * a) % a == 0
  {
    var q, r := (k * a) / a, (k * a) % a;
    assert k * a == a * q + r;
    assert (k - q) * a == r;
    NoRemainder(k - q, a, r);
  }

  lemma NoRemainder(d: int, a: nat, r: nat)
    requires r < a && d * a == r
    ensures r == 0
  {
    if d >= 1 {
      Monotone(a, 1, d);
    } else {
      Monotone(a, 0, -d);
      assert (-d) * a == -(d * a);
    }
  }

  /** Integer#lcm: a common multiple, and no smaller positive one is. */
  function Lcm(a: nat, b: nat): (r: nat)
    requires a > 0 && b > 0
    ensures r > 0 && r % a == 0 && r % b == 0
    ensures forall j {:trigger j * a} :: 0 < j && j * a < r ==> (j * a) % b != 0
  {
    LcmFrom(a, b, 1)
  }

  /** Every common multiple is a multiple of the least one. */
  lemma LcmDivides(a: nat, b: nat, m: nat)
    requires a > 0 && b > 0 && m % a == 0 && m % b == 0
    ensures m % Lcm(a, b) == 0
  {
    hide Lcm;
    var r := Lcm(a, b);
    var q, d := m / r, m % r;
    assert m == q * r + d && 0 <= d < r;
    if d > 0 {
      RemainderDivides(a, m, r, q);
      RemainderDivides(b, m, r, q);
      SmallerIsNotCommon(a, b, d);
    }
  }

  lemma SmallerIsNotCommon(a: nat, b: nat, d: nat)
    requires a > 0 && b > 0 && 0 < d < Lcm(a, b) && d % a == 0
    ensures d % b != 0
  {
    var j := d / a;
    assert d == j * a;
  }

  lemma FactorOrder(a: nat, k: nat, i: nat)
    requires a > 0 && k * a <= i * a
    ensures k <= i
  {
    if i < k {
      Monotone(a, i + 1, k);
    }
  }

  lemma RemainderDivides(a: nat, m: nat, r: nat, q: nat)
    requires a > 0 && m % a == 0 && r % a == 0 && m >= q * r
    ensures (m - q * r) % a == 0
  {
    var i, j := m / a, r / a;
    assert m == i * a && r == j * a;
    assert q * r == (q * j) * a;
    assert m - q * r == (i - q * j) * a;
    FactorOrder(a, q * j, i);
    MultipleOf(i - q * j, a);
  }

  /** The least common multiple of all of them, 1 if there are none. */
  function LcmAll(ns: seq<nat>): nat {
    if ns == [] then 1
    else
      var r, n := LcmAll(ns[..|ns| - 1]), ns[|ns| - 1];
      if r > 0 && n > 0 then Lcm(r, n) else 0
  }

  lemma {:induction false} LcmAllIsLeast(ns: seq<nat>)
    requires forall i :: 0 <= i < |ns| ==> ns[i] > 0
    ensures LcmAll(ns) > 0
    ensures forall i :: 0 <= i < |ns| ==> LcmAll(ns) % ns[i] == 0
    ensures forall m: nat :: (forall i :: 0 <= i < |ns| ==> m % ns[i] == 0) ==> m % LcmAll(ns) == 0
    decreases |ns|
  {
    hide Lcm;
    if ns != [] {
      var k := |ns| - 1;
      var t, n := ns[..k], ns[k];
      LcmAllIsLeast(t);
      var r := LcmAll(t);
      forall i | 0 <= i < |ns|
        ensures LcmAll(ns) % ns[i] == 0
      {
        if i < k {
          DividesOn(t[i], r, Lcm(r, n));
        }
      }
      forall m: nat | forall i :: 0 <= i < |ns| ==> m % ns[i] == 0
        ensures m % LcmAll(ns) == 0
      {
        assert forall i :: 0 <= i < |t| ==> t[i] == ns[i];
        LcmDivides(r, n, m);
      }
    }
  }

  lemma DividesOn(a: nat, m: nat, n: nat)
    requires a > 0 && m > 0 && m % a == 0 && n % m == 0
    ensures n % a == 0
  {
    var i, j := m / a, n / m;
    assert m == i * a && n == j * m;
    assert n == (j * i) * a;
    MultipleOf(j * i, a);
  }

  // ---------------------------------------------------------------- images and sheets

  datatype Anchor = NoAnchor | Left | Right

  datatype Image = Image(key: int, width: nat, height: nat, repeatX: bool, anchor: Anchor, clear: bool)

  datatype Placed = Placed(img: Image, x: int, y: int, w: int, h: int)

  predicate Positive(images: seq<Image>) { forall i :: 0 <= i < |images| ==>
      images[i].width > 0 && images[i].height > 0 }

  predicate NoDuplicates(images: seq<Image>) { forall i, j :: 0 <= i < j < |images| ==> images[i] != images[j] }

  /** Different images have different keys. */
  predicate DistinctKeys(images: seq<Image>) { forall i, j :: 0 <= i < j < |images| ==> images[i].key != images[j].key }

  /** Two rectangles do not overlap. */
  predicate Apart(p: Placed, q: Placed) {
    p.x + p.w <= q.x || q.x + q.w <= p.x || p.y + p.h <= q.y || q.y + q.h <= p.y
  }

  predicate AllApart(plan: seq<Placed>) { forall i, j :: 0 <= i < j < |plan| ==> Apart(plan[i], plan[j]) }

  /** The rectangle lies on a sheet of this size. */
  predicate Inside(p: Placed, width: int, height: int) {
    0 <= p.x && p.x + p.w <= width && 0 <= p.y && p.y + p.h <= height
  }

  /** The rectangle has the image's size, except that a repeated image spans the sheet, and
      anchored images touch their edge. */
  predicate Shaped(p: Placed, width: int) {
    && p.h == p.img.height && p.h > 0 && p.w > 0
    && (if p.img.repeatX && p.img.anchor.NoAnchor? then p.x == 0 && p.w == width else p.w == p.img.width)
    && (p.img.anchor.Left? ==> p.x == 0)
    && (p.img.anchor.Right? ==> p.x + p.w == width)
  }

  function ImagesOf(plan: seq<Placed>): seq<Image> {
    if plan == [] then [] else ImagesOf(plan[..|plan| - 1]) + [plan[|plan| - 1].img]
  }

  /** The original areas, added up. */
  function Areas(plan: seq<Placed>): nat {
    if plan == [] then 0
    else Areas(plan[..|plan| - 1]) + plan[|plan| - 1].img.width * plan[|plan| - 1].img.height
  }

  lemma Appended(plan: seq<Placed>, p: Placed)
    ensures ImagesOf(plan + [p]) == ImagesOf(plan) + [p.img]
    ensures Areas(plan + [p]) == Areas(plan) + p.img.width * p.img.height
  {
    assert (plan + [p])[..|plan|] == plan;
  }

  // ---------------------------------------------------------------- a row being filled

  /** A row in the making: its height so far, the free span [x, x + space), and the place
      from which on it is taken from the right. */
  datatype Row = Row(y: int, height: int, x: int, space: int, right: int)

  predicate InRow(p: Placed, r: Row, width: int) {
    p.y == r.y && p.h <= r.height && 0 <= p.x && p.x + p.w <= width && (p.x + p.w <= r.x || r.right <= p.x)
  }

  predicate RowOk(plan: seq<Placed>, r: Row, width: int) {
    && 0 <= r.y && 0 <= r.height && 0 <= r.x && 0 <= r.space && r.x + r.space <= r.right <= width
    && AllApart(plan)
    && forall i :: 0 <= i < |plan| ==>
         Shaped(plan[i], width) && (Inside(plan[i], width, r.y) || InRow(plan[i], r, width))
  }

  function Max(a: int, b: int): int { if a >= b then a else b }

  /** The row after an image has been put at the left end of the free span. */
  function PutLeft(r: Row, img: Image): Row {
    r.(height := Max(r.height, img.height), x := r.x + img.width, space := if img.clear then 0 else r.space - img.width)
  }

  /** The row after an image has been put at the right edge. */
  function PutRight(r: Row, img: Image): Row {
    r.(height := Max(r.height, img.height), right := r.right - img.width,
       space := if img.clear then 0 else r.space - img.width)
  }

  lemma ApartFromAll(plan: seq<Placed>, p: Placed)
    requires AllApart(plan) && forall i :: 0 <= i < |plan| ==> Apart(plan[i], p)
    ensures AllApart(plan + [p])
  {
  }

  lemma LeftKeepsRow(plan: seq<Placed>, r: Row, width: int, p: Placed)
    requires RowOk(plan, r, width) && p.x == r.x && p.y == r.y && p.w == p.img.width <= r.space && Shaped(p, width)
    ensures RowOk(plan + [p], PutLeft(r, p.img), width)
  {
    ApartFromAll(plan, p);
  }

  lemma RightKeepsRow(plan: seq<Placed>, r: Row, width: int, p: Placed)
    requires RowOk(plan, r, width) && r.right == width && p.x == width - p.w && p.y == r.y
    requires p.w == p.img.width <= r.space && Shaped(p, width)
    ensures RowOk(plan + [p], PutRight(r, p.img), width)
  {
    ApartFromAll(plan, p);
  }

  /** A repeated image takes the whole of an empty row. */
  lemma RepeatKeepsRow(plan: seq<Placed>, r: Row, width: int, p: Placed)
    requires RowOk(plan, r, width) && r.height == 0 && p.x == 0 && p.w == width && p.y == r.y && Shaped(p, width)
    ensures RowOk(plan + [p], Row(r.y, p.h, 0, 0, 0), width)
  {
    forall i | 0 <= i < |plan|
      ensures Apart(plan[i], p) && Inside(plan[i], width, r.y)
    {
      assert Shaped(plan[i], width);
    }
    ApartFromAll(plan, p);
  }

  lemma Product(a: int, b: int, c: int, d: int)
    requires 0 <= a <= b && 0 <= c <= d
    ensures a * c <= b * d
  {
    assert b * d - a * c == (b - a) * d + a * (d - c);
    assert (b - a) * d >= 0 && a * (d - c) >= 0;
  }

  // ---------------------------------------------------------------- worklists

  /** Array#delete */
  function Delete(s: seq<Image>, e: Image): seq<Image> {
    if s == [] then [] else Delete(s[..|s| - 1], e) + (if s[|s| - 1] == e then [] else [s[|s| - 1]])
  }

  function Minus(s: seq<Image>, gone: seq<Image>): seq<Image> {
    if s == [] then [] else Minus(s[..|s| - 1], gone) + (if s[|s| - 1] in gone then [] else [s[|s| - 1]])
  }

  lemma {:induction false} DeleteMinus(s: seq<Image>, gone: seq<Image>, e: Image)
    ensures Delete(Minus(s, gone), e) == Minus(s, gone + [e])
  {
    if s != [] {
      var t, l := s[..|s| - 1], s[|s| - 1];
      DeleteMinus(t, gone, e);
      if l !in gone {
        assert (Minus(t, gone) + [l])[..|Minus(t, gone)|] == Minus(t, gone);
      } else {
        assert Minus(s, gone) == Minus(t, gone);
      }
    }
  }

  lemma {:induction false} MinusNothing(s: seq<Image>)
    ensures Minus(s, []) == s
  {
    if s != [] {
      MinusNothing(s[..|s| - 1]);
    }
  }

  lemma {:induction false} MinusOther(s: seq<Image>, gone: seq<Image>, e: Image)
    requires e !in s
    ensures Minus(s, gone + [e]) == Minus(s, gone)
  {
    if s != [] {
      assert s[|s| - 1] in s;
      forall x | x in s[..|s| - 1]
        ensures x in s
      {
      }
      MinusOther(s[..|s| - 1], gone, e);
    }
  }

  lemma MinusLast(s: seq<Image>, i: nat, gone: seq<Image>)
    requires i < |s|
    ensures Minus(s[..i + 1], gone) == Minus(s[..i], gone) + if s[i] in gone then [] else [s[i]]
  {
    assert s[..i + 1][..i] == s[..i];
  }

  /** Nothing of the rest has been processed. */
  lemma {:induction false} MinusRest(s: seq<Image>, i: nat, gone: seq<Image>)
    requires i <= |s| && forall k :: i <= k < |s| ==> s[k] !in gone
    ensures Minus(s, gone) == Minus(s[..i], gone) + s[i..]
    decreases |s|
  {
    if i == |s| {
      assert s[..i] == s && s[i..] == [];
    } else {
      var n := |s| - 1;
      MinusRest(s[..n], i, gone);
      assert s[..n][..i] == s[..i] && s[..n][i..] + [s[n]] == s[i..];
    }
  }

  lemma {:induction false} MinusKeeps(s: seq<Image>, gone: seq<Image>)
    ensures forall e :: e in Minus(s, gone) <==> e in s && e !in gone
    ensures NoDuplicates(s) ==> NoDuplicates(Minus(s, gone))
  {
    if s != [] {
      var n := |s| - 1;
      MinusKeeps(s[..n], gone);
      assert s == s[..n] + [s[n]];
    }
  }
}
