/** What the planner's waste leaves out, measured on the placed rectangles alone: the space
    above images that are shorter than their row, and what a row loses after an image with
    clear.  A row is made of the rectangles with the same top. */
module SpriteGaps {
  import opened Sprites

  /** The height and the width taken of the row at `y`. */
  function RowHeight(plan: seq<Placed>, y: int): int {
    if plan == [] then 0
    else
      var p := plan[|plan| - 1];
      Max(RowHeight(plan[..|plan| - 1], y), if p.y == y then p.h else 0)
  }

  function RowWidth(plan: seq<Placed>, y: int): int {
    if plan == [] then 0
    else var p := plan[|plan| - 1]; RowWidth(plan[..|plan| - 1], y) + if p.y == y then p.w else 0
  }

  /** The row holds an image with clear. */
  predicate RowCleared(plan: seq<Placed>, y: int) { exists i :: 0 <= i < |plan| && plan[i].y == y && plan[i].img.clear }

  /** The space above the first `n` images, up to the top of their rows. */
  function ShortTo(plan: seq<Placed>, n: nat): int
    requires n <= |plan|
  {
    if n == 0 then 0
    else ShortTo(plan, n - 1) + (RowHeight(plan, plan[n - 1].y) - plan[n - 1].h) * plan[n - 1].w
  }

  function Short(plan: seq<Placed>): int { ShortTo(plan, |plan|) }

  predicate FirstOfRow(plan: seq<Placed>, i: nat)
    requires i < |plan|
  {
    forall j :: 0 <= j < i ==> plan[j].y != plan[i].y
  }

  /** What the rows of the first `n` images lose after an image with clear, each row counted once. */
  function LostTo(plan: seq<Placed>, width: int, n: nat): int
    requires n <= |plan|
  {
    if n == 0 then 0
    else
      var y := plan[n - 1].y;
      LostTo(plan, width, n - 1)
      + if FirstOfRow(plan, n - 1) && RowCleared(plan, y) then (width - RowWidth(plan, y)) * RowHeight(plan, y) else 0
  }

  function Lost(plan: seq<Placed>, width: int): int { LostTo(plan, width, |plan|) }

  /** The extra pixels of repeated images. */
  function Repeats(plan: seq<Placed>): int {
    if plan == [] then 0
    else var p := plan[|plan| - 1]; Repeats(plan[..|plan| - 1]) + (p.w - p.img.width) * p.h
  }

  // ---------------------------------------------------------------- one row more

  lemma LastRow(plan: seq<Placed>, p: Placed, y: int)
    ensures RowHeight(plan + [p], y) == Max(RowHeight(plan, y), if p.y == y then p.h else 0)
    ensures RowWidth(plan + [p], y) == RowWidth(plan, y) + if p.y == y then p.w else 0
    ensures RowCleared(plan + [p], y) <==> RowCleared(plan, y) || (p.y == y && p.img.clear)
    ensures Repeats(plan + [p]) == Repeats(plan) + (p.w - p.img.width) * p.h
  {
    assert (plan + [p])[..|plan|] == plan;
    assert forall i :: 0 <= i < |plan| ==> (plan + [p])[i] == plan[i];
    assert (plan + [p])[|plan|] == p;
  }

  lemma {:induction false} RowsApart(done: seq<Placed>, row: seq<Placed>, y: int)
    ensures RowHeight(done + row, y) == Max(RowHeight(done, y), RowHeight(row, y))
    ensures RowWidth(done + row, y) == RowWidth(done, y) + RowWidth(row, y)
    ensures RowCleared(done + row, y) <==> RowCleared(done, y) || RowCleared(row, y)
    ensures RowHeight(row, y) >= 0 && RowHeight(done, y) >= 0
    decreases |row|
  {
    HeightNatural(done, y);
    HeightNatural(row, y);
    if row == [] {
      assert done + row == done;
    } else {
      var n := |row| - 1;
      var t, p := row[..n], row[n];
      assert row == t + [p] && done + row == (done + t) + [p];
      RowsApart(done, t, y);
      LastRow(done + t, p, y);
      LastRow(t, p, y);
    }
  }

  lemma {:induction false} HeightNatural(plan: seq<Placed>, y: int)
    ensures RowHeight(plan, y) >= 0
    decreases |plan|
  {
    if plan != [] {
      HeightNatural(plan[..|plan| - 1], y);
    }
  }

  /** Nothing of the row lies at `y`. */
  lemma {:induction false} Elsewhere(plan: seq<Placed>, y: int)
    requires forall i :: 0 <= i < |plan| ==> plan[i].y != y
    ensures RowHeight(plan, y) == 0 && RowWidth(plan, y) == 0 && !RowCleared(plan, y)
    decreases |plan|
  {
    if plan != [] {
      Elsewhere(plan[..|plan| - 1], y);
    }
  }

  /** The rows of `done` and of `row` are different ones. */
  predicate Separate(done: seq<Placed>, row: seq<Placed>) {
    forall i, j :: 0 <= i < |done| && 0 <= j < |row| ==> done[i].y != row[j].y
  }

  lemma RowOfDone(done: seq<Placed>, row: seq<Placed>, i: nat)
    requires Separate(done, row) && i < |done|
    ensures var y := done[i].y;
            && RowHeight(done + row, y) == RowHeight(done, y) && RowWidth(done + row, y) == RowWidth(done, y)
            && (RowCleared(done + row, y) <==> RowCleared(done, y))
  {
    RowsApart(done, row, done[i].y);
    Elsewhere(row, done[i].y);
  }

  lemma RowOfNew(done: seq<Placed>, row: seq<Placed>, j: nat)
    requires Separate(done, row) && j < |row|
    ensures var y := row[j].y;
            && RowHeight(done + row, y) == RowHeight(row, y) && RowWidth(done + row, y) == RowWidth(row, y)
            && (RowCleared(done + row, y) <==> RowCleared(row, y))
  {
    RowsApart(done, row, row[j].y);
    Elsewhere(done, row[j].y);
  }

  lemma {:induction false} DoneTo(done: seq<Placed>, row: seq<Placed>, width: int, n: nat)
    requires Separate(done, row) && n <= |done|
    ensures ShortTo(done + row, n) == ShortTo(done, n) && LostTo(done + row, width, n) == LostTo(done, width, n)
    decreases n
  {
    if n > 0 {
      DoneTo(done, row, width, n - 1);
      RowOfDone(done, row, n - 1);
      assert forall i :: 0 <= i < n ==> (done + row)[i] == done[i];
      assert FirstOfRow(done + row, n - 1) <==> FirstOfRow(done, n - 1);
    }
  }

  lemma FirstIsFirst(done: seq<Placed>, row: seq<Placed>, j: nat)
    requires Separate(done, row) && j < |row|
    ensures FirstOfRow(done + row, |done| + j) <==> FirstOfRow(row, j)
  {
    var plan, n := done + row, |done|;
    assert plan[n + j] == row[j];
    assert forall i :: 0 <= i < n ==> plan[i] == done[i];
    assert forall i :: 0 <= i < j ==> plan[n + i] == row[i];
    if FirstOfRow(row, j) {
      forall i | 0 <= i < n + j
        ensures plan[i].y != plan[n + j].y
      {
        assert i >= n ==> plan[i] == row[i - n];
      }
    }
  }

  lemma {:induction false} NewTo(done: seq<Placed>, row: seq<Placed>, width: int, j: nat)
    requires Separate(done, row) && j <= |row|
    ensures ShortTo(done + row, |done| + j) == Short(done) + ShortTo(row, j)
    ensures LostTo(done + row, width, |done| + j) == Lost(done, width) + LostTo(row, width, j)
    decreases j
  {
    if j == 0 {
      DoneTo(done, row, width, |done|);
    } else {
      NewTo(done, row, width, j - 1);
      RowOfNew(done, row, j - 1);
      FirstIsFirst(done, row, j - 1);
      assert (done + row)[|done| + j - 1] == row[j - 1];
    }
  }

  /** The gaps of finished rows are not changed by another row. */
  lemma GapsAdd(done: seq<Placed>, row: seq<Placed>, width: int)
    requires Separate(done, row)
    ensures Short(done + row) == Short(done) + Short(row)
    ensures Lost(done + row, width) == Lost(done, width) + Lost(row, width)
  {
    NewTo(done, row, width, |row|);
    assert |done + row| == |done| + |row|;
  }

  // ---------------------------------------------------------------- the gaps of one row

  predicate OneRow(row: seq<Placed>, y: int) { forall i :: 0 <= i < |row| ==> row[i].y == y }

  /** The rectangles, added up. */
  function Covered(plan: seq<Placed>): int {
    if plan == [] then 0 else Covered(plan[..|plan| - 1]) + plan[|plan| - 1].w * plan[|plan| - 1].h
  }

  lemma {:induction false} CoveredIsAreas(plan: seq<Placed>, width: int)
    requires forall i :: 0 <= i < |plan| ==> Shaped(plan[i], width)
    ensures Covered(plan) == Areas(plan) + Repeats(plan)
    decreases |plan|
  {
    if plan != [] {
      var n := |plan| - 1;
      CoveredIsAreas(plan[..n], width);
      var p := plan[n];
      assert Shaped(p, width);
      assert p.w * p.h == p.img.width * p.h + (p.w - p.img.width) * p.h;
    }
  }

  /** With `h` the height of the row: the rectangles and the space above them fill its taken width. */
  lemma {:induction false} RowFilled(row: seq<Placed>, y: int, n: nat)
    requires OneRow(row, y) && n <= |row|
    ensures Covered(row[..n]) + ShortTo(row, n) == RowHeight(row, y) * RowWidth(row[..n], y)
    decreases n
  {
    if n == 0 {
      assert row[..0] == [];
    } else {
      RowFilled(row, y, n - 1);
      var p, h := row[n - 1], RowHeight(row, y);
      assert row[..n][..n - 1] == row[..n - 1] && row[..n][n - 1] == p;
      assert h * (RowWidth(row[..n - 1], y) + p.w) == h * RowWidth(row[..n - 1], y) + h * p.w;
      assert p.w * p.h + (h - p.h) * p.w == h * p.w;
    }
  }

  lemma {:induction false} RowLost(row: seq<Placed>, y: int, width: int, n: nat)
    requires OneRow(row, y) && n <= |row|
    ensures LostTo(row, width, n)
            == if n > 0 && RowCleared(row, y) then (width - RowWidth(row, y)) * RowHeight(row, y) else 0
    decreases n
  {
    if n > 0 {
      RowLost(row, y, width, n - 1);
      assert n > 1 ==> row[0].y == row[n - 1].y;
    }
  }

  lemma {:induction false} TallEnough(plan: seq<Placed>, i: nat)
    requires i < |plan|
    ensures plan[i].h <= RowHeight(plan, plan[i].y)
    decreases |plan|
  {
    var n := |plan| - 1;
    assert plan == plan[..n] + [plan[n]];
    if i < n {
      TallEnough(plan[..n], i);
      LastRow(plan[..n], plan[n], plan[i].y);
    }
  }

  /** No image is higher than its row. */
  lemma {:induction false} ShortNatural(plan: seq<Placed>, n: nat)
    requires n <= |plan| && forall i :: 0 <= i < |plan| ==> plan[i].w >= 0
    ensures ShortTo(plan, n) >= 0
    decreases n
  {
    if n > 0 {
      ShortNatural(plan, n - 1);
      TallEnough(plan, n - 1);
      Product(0, RowHeight(plan, plan[n - 1].y) - plan[n - 1].h, 0, plan[n - 1].w);
    }
  }

  // ---------------------------------------------------------------- when there are no gaps

  /** No image has clear, and the images of each row have one height. */
  predicate Even(plan: seq<Placed>) {
    && (forall i :: 0 <= i < |plan| ==> !plan[i].img.clear)
    && forall i, j :: 0 <= i < |plan| && 0 <= j < |plan| && plan[i].y == plan[j].y ==> plan[i].h == plan[j].h
  }

  lemma {:induction false} EvenHeight(plan: seq<Placed>, y: int, h: int)
    requires h >= 0 && forall i :: 0 <= i < |plan| && plan[i].y == y ==> plan[i].h == h
    ensures RowHeight(plan, y) == 0 || RowHeight(plan, y) == h
    decreases |plan|
  {
    if plan != [] {
      EvenHeight(plan[..|plan| - 1], y, h);
    }
  }

  lemma {:induction false} NoGapsTo(plan: seq<Placed>, width: int, n: nat)
    requires Even(plan) && n <= |plan| && forall i :: 0 <= i < |plan| ==> plan[i].h > 0
    ensures ShortTo(plan, n) == 0 && LostTo(plan, width, n) == 0
    decreases n
  {
    if n > 0 {
      NoGapsTo(plan, width, n - 1);
      var p := plan[n - 1];
      EvenHeight(plan, p.y, p.h);
      TallEnough(plan, n - 1);
    }
  }

  /** Then there are no gaps. */
  lemma NoGaps(plan: seq<Placed>, width: int)
    requires Even(plan) && forall i :: 0 <= i < |plan| ==> plan[i].h > 0
    ensures Short(plan) == 0 && Lost(plan, width) == 0
  {
    NoGapsTo(plan, width, |plan|);
  }
}
