/** plan and yplan of slicedice.rb: the loops that lay out the sheets, with the geometry and
    the accounting of wasted pixels. */
module SpritePlanner {
  import opened Sprites
  import opened SpriteGaps

  /** The images still to be placed. */
  datatype Work = Work(normal: seq<Image>, left: seq<Image>, right: seq<Image>)

  predicate WorkOk(w: Work, width: int) {
    && Fits(w.normal, NoAnchor, width) && Fits(w.left, Left, width) && Fits(w.right, Right, width)
        && NoDuplicates(w.normal)
  }

  /** Images of one anchor, none wider than the sheet. */
  predicate Fits(images: seq<Image>, anchor: Anchor, width: int) {
    forall i :: 0 <= i < |images| ==> images[i].anchor == anchor && 0 < images[i].width <= width && images[i].height > 0
  }

  function Count(w: Work): nat { |w.normal| + |w.left| + |w.right| }

  /** Everything placed and everything still to be placed. */
  function All(plan: seq<Placed>, w: Work): multiset<Image> {
    multiset(ImagesOf(plan)) + multiset(w.normal) + multiset(w.left) + multiset(w.right)
  }

  /** The guard of the second fill loop. */
  predicate FillsAgain(normal: seq<Image>, space: int) {
    normal != [] && !normal[0].repeatX && normal[0].width <= space
  }

  /** The finished rows, and the waste counted for them. */
  datatype Ledger = Ledger(done: seq<Placed>, wasted: int)

  predicate HasClear(row: seq<Placed>) { exists i :: 0 <= i < |row| && row[i].img.clear }

  /** What has been placed since makes up the row: its height, the width taken, and what is
      left of it, which is nothing after an image with clear. */
  ghost predicate Tally(led: Ledger, plan: seq<Placed>, wasted: int, r: Row, width: int) {
    && led.done <= plan
    && var row := plan[|led.done|..];
       && OneRow(row, r.y) && r.height == RowHeight(row, r.y) && r.x + width - r.right == RowWidth(row, r.y)
       && r.space == (if HasClear(row) then 0 else width - RowWidth(row, r.y))
       && wasted == led.wasted + Repeats(row)
  }

  /** What every step of filling a row keeps. */
  ghost predicate Filling(led: Ledger, plan: seq<Placed>, wasted: int, r: Row, width: int) {
    RowOk(plan, r, width) && Tally(led, plan, wasted, r, width)
  }

  lemma TallyNext(led: Ledger, plan: seq<Placed>, wasted: int, r: Row, width: int, p: Placed, r': Row)
    requires Tally(led, plan, wasted, r, width) && p.y == r.y && p.h == p.img.height
    requires 0 < p.w == p.img.width <= r.space && (r' == PutLeft(r, p.img) || r' == PutRight(r, p.img))
    ensures Tally(led, plan + [p], wasted, r', width)
  {
    var row := plan[|led.done|..];
    assert (plan + [p])[|led.done|..] == row + [p];
    LastRow(row, p, r.y);
    assert HasClear(row + [p]) == (HasClear(row) || p.img.clear) by { ClearNext(row, p); }
  }

  lemma ClearNext(row: seq<Placed>, p: Placed)
    ensures HasClear(row + [p]) == (HasClear(row) || p.img.clear)
  {
    assert (row + [p])[|row|] == p;
    assert forall i :: 0 <= i < |row| ==> (row + [p])[i] == row[i];
  }

  /** An image that has been passed over stays too wide. */
  predicate Passed(images: seq<Image>, processed: seq<Image>, space: int) {
    forall k :: 0 <= k < |images| ==> images[k] in processed || images[k].repeatX || images[k].width > space
  }

  lemma PutNext(led: Ledger, plan: seq<Placed>, wasted: int, r: Row, width: int, e: Image)
    requires Filling(led, plan, wasted, r, width) && 0 < e.width <= r.space && e.height > 0
    requires !e.anchor.Right? && (e.anchor.Left? ==> r.x == 0) && !(e.repeatX && e.anchor.NoAnchor?)
    ensures Filling(led, plan + [Placed(e, r.x, r.y, e.width, e.height)], wasted, PutLeft(r, e), width)
  {
    hide Tally, RowOk;
    var p := Placed(e, r.x, r.y, e.width, e.height);
    LeftKeepsRow(plan, r, width, p);
    TallyNext(led, plan, wasted, r, width, p, PutLeft(r, e));
  }

  lemma PutAtRight(led: Ledger, plan: seq<Placed>, wasted: int, r: Row, width: int, e: Image)
    requires Filling(led, plan, wasted, r, width) && 0 < e.width <= r.space && e.height > 0
    requires e.anchor.Right? && r.right == width
    ensures Filling(led, plan + [Placed(e, width - e.width, r.y, e.width, e.height)], wasted, PutRight(r, e), width)
  {
    hide Tally, RowOk;
    var p := Placed(e, width - e.width, r.y, e.width, e.height);
    RightKeepsRow(plan, r, width, p);
    TallyNext(led, plan, wasted, r, width, p, PutRight(r, e));
  }

  lemma PutRepeated(led: Ledger, plan: seq<Placed>, wasted: int, y: int, width: int, e: Image)
    requires Filling(led, plan, wasted, Row(y, 0, 0, width, width), width) && plan == led.done
    requires 0 < e.width <= width && e.height > 0 && e.anchor.NoAnchor? && e.repeatX
    ensures Filling(led, plan + [Placed(e, 0, y, width, e.height)], wasted + (width - e.width) * e.height,
                    Row(y, e.height, 0, 0, 0), width)
  {
    hide RowOk;
    var p := Placed(e, 0, y, width, e.height);
    RepeatKeepsRow(plan, Row(y, 0, 0, width, width), width, p);
    assert plan[|led.done|..] == [] && (plan + [p])[|led.done|..] == [] + [p] == [p];
    LastRow([], p, y);
  }

  /** The first `i` images, divided into those placed and the others. */
  predicate Divided(normal: seq<Image>, i: nat, processed: seq<Image>)
    requires i <= |normal|
  {
    && (forall e :: e in processed ==> e in normal[..i])
    && multiset(Minus(normal[..i], processed)) + multiset(processed) == multiset(normal[..i])
  }

  lemma NotBefore(normal: seq<Image>, i: nat)
    requires i < |normal| && NoDuplicates(normal)
    ensures normal[i] !in normal[..i] && normal[..i + 1] == normal[..i] + [normal[i]]
  {
  }

  lemma DividedSkip(normal: seq<Image>, i: nat, processed: seq<Image>)
    requires i < |normal| && NoDuplicates(normal) && Divided(normal, i, processed)
    ensures Divided(normal, i + 1, processed)
  {
    hide Minus, NoDuplicates;
    NotBefore(normal, i);
    MinusLast(normal, i, processed);
    assert normal[i] !in processed;
    assert multiset(normal[..i] + [normal[i]]) == multiset(normal[..i]) + multiset{normal[i]};
  }

  lemma DividedPlace(normal: seq<Image>, i: nat, processed: seq<Image>)
    requires i < |normal| && NoDuplicates(normal) && Divided(normal, i, processed)
    ensures Divided(normal, i + 1, processed + [normal[i]])
  {
    hide Minus, NoDuplicates;
    var e := normal[i];
    NotBefore(normal, i);
    MinusLast(normal, i, processed + [e]);
    MinusOther(normal[..i], processed, e);
    assert e in processed + [e];
    assert Minus(normal[..i], processed) + [] == Minus(normal[..i], processed);
    assert multiset(normal[..i] + [e]) == multiset(normal[..i]) + multiset{e};
    assert multiset(processed + [e]) == multiset(processed) + multiset{e};
  }

  lemma PassedNext(normal: seq<Image>, i: nat, processed: seq<Image>, space: int, processed': seq<Image>, space': int)
    requires i < |normal| && Passed(normal[..i], processed, space) && space' <= space
    requires processed <= processed' && (normal[i] in processed' || normal[i].repeatX || normal[i].width > space')
    ensures Passed(normal[..i + 1], processed', space')
  {
    forall k | 0 <= k < i + 1
      ensures normal[k] in processed' || normal[k].repeatX || normal[k].width > space'
    {
      if k < i {
        assert normal[..i][k] == normal[k];
      }
    }
  }

  /** A full row passes over everything else. */
  lemma PassedFull(normal: seq<Image>, i: nat, processed: seq<Image>, space: int, width: int)
    requires i <= |normal| && Passed(normal[..i], processed, space) && (i == |normal| || space == 0)
             && Fits(normal, NoAnchor, width)
    ensures Passed(normal, processed, space)
  {
    if i == |normal| {
      assert normal[..i] == normal;
    }
  }

  /** Putting an image into the plan, with its bookkeeping. */
  lemma PlanGrows(plan: seq<Placed>, p: Placed, placed: multiset<Image>, processed: seq<Image>)
    requires multiset(ImagesOf(plan)) == placed + multiset(processed)
    ensures multiset(ImagesOf(plan + [p])) == placed + multiset(processed + [p.img])
  {
    Appended(plan, p);
    assert multiset(processed + [p.img]) == multiset(processed) + multiset{p.img};
    assert multiset(ImagesOf(plan) + [p.img]) == multiset(ImagesOf(plan)) + multiset{p.img};
  }

  /** The plan has grown by images of this list. */
  predicate Grown(plan: seq<Placed>, plan': seq<Placed>, images: seq<Image>) {
    plan <= plan' && forall i :: |plan| <= i < |plan'| ==> plan'[i].img in images
  }

  /** The pass over the normal images: each is put next if it fits. */
  method FillPass(normal: seq<Image>, plan: seq<Placed>, r: Row, width: int, ghost led: Ledger, ghost wasted: int)
    returns (processed: seq<Image>, plan': seq<Placed>, r': Row)
    requires Filling(led, plan, wasted, r, width) && Fits(normal, NoAnchor, width) && NoDuplicates(normal)
    ensures Filling(led, plan', wasted, r', width) && r'.y == r.y && r'.right == r.right
    ensures multiset(ImagesOf(plan')) == multiset(ImagesOf(plan)) + multiset(processed)
    ensures multiset(Minus(normal, processed)) + multiset(processed) == multiset(normal)
    ensures Passed(normal, processed, r'.space) && Grown(plan, plan', normal)
    ensures FillsAgain(normal, r.space) ==> processed != []
  {
    hide Filling, Divided, Passed, Minus, ImagesOf, NoDuplicates;
    processed, plan', r' := [], plan, r;
    var i := 0;
    NothingPassed(normal, r.space);
    ghost var placed := multiset(ImagesOf(plan));
    while i < |normal|
      invariant 0 <= i <= |normal|
      invariant Filling(led, plan', wasted, r', width) && r'.y == r.y && r'.right == r.right
      invariant multiset(ImagesOf(plan')) == placed + multiset(processed)
      invariant Divided(normal, i, processed) && Passed(normal[..i], processed, r'.space) && Grown(plan, plan', normal)
      invariant i == 0 ==> r' == r
      invariant i > 0 && FillsAgain(normal, r.space) ==> processed != []
    {
      var e := normal[i];
      if e.repeatX || e.width > r'.space {
        DividedSkip(normal, i, processed);
        PassedNext(normal, i, processed, r'.space, processed, r'.space);
        i := i + 1;
        continue;
      }
      PutNext(led, plan', wasted, r', width, e);
      var p := Placed(e, r'.x, r'.y, e.width, e.height);
      PlanGrows(plan', p, placed, processed);
      DividedPlace(normal, i, processed);
      assert (processed + [e])[|processed|] == e;
      PassedNext(normal, i, processed, r'.space, processed + [e], PutLeft(r', e).space);
      processed := processed + [e];
      plan' := plan' + [p];
      r' := PutLeft(r', e);
      i := i + 1;
      if r'.space == 0 {
        break;
      }
    }
    RestUntouched(normal, i, processed);
    PassedFull(normal, i, processed, r'.space, width);
  }

  lemma NothingPassed(normal: seq<Image>, space: int)
    ensures Divided(normal, 0, []) && Passed(normal[..0], [], space)
  {
    assert normal[..0] == [];
    MinusNothing([]);
  }

  /** After the pass has stopped, the rest of the list is as it was. */
  lemma RestUntouched(normal: seq<Image>, i: nat, processed: seq<Image>)
    requires i <= |normal| && NoDuplicates(normal) && Divided(normal, i, processed)
    ensures multiset(Minus(normal, processed)) + multiset(processed) == multiset(normal)
  {
    hide Minus;
    forall k | i <= k < |normal|
      ensures normal[k] !in processed
    {
      assert normal[k] !in normal[..i];
    }
    MinusRest(normal, i, processed);
    assert normal == normal[..i] + normal[i..];
  }

  /** Filling a row: the pass, and the removal of what it has placed.  The loop that would
      go on filling afterwards finds its guard false. */
  method FillRow(normal: seq<Image>, plan: seq<Placed>, r: Row, width: int, ghost led: Ledger, ghost wasted: int)
    returns (normal': seq<Image>, plan': seq<Placed>, r': Row)
    requires Filling(led, plan, wasted, r, width) && Fits(normal, NoAnchor, width) && NoDuplicates(normal)
    ensures Filling(led, plan', wasted, r', width) && r'.y == r.y && r'.right == r.right
    ensures multiset(ImagesOf(plan')) + multiset(normal') == multiset(ImagesOf(plan)) + multiset(normal)
    ensures Fits(normal', NoAnchor, width) && NoDuplicates(normal')
    ensures !FillsAgain(normal', r'.space) && Grown(plan, plan', normal)
    ensures forall e :: e in normal' ==> e in normal && (e.repeatX || e.width > r'.space)
    ensures |normal'| <= |normal| && (FillsAgain(normal, r.space) ==> |normal'| < |normal|)
  {
    hide Filling, Minus, Delete;
    var processed;
    processed, plan', r' := FillPass(normal, plan, r, width, led, wasted);
    normal' := normal;
    MinusNothing(normal);
    assert processed[..0] == [];
    for j := 0 to |processed|
      invariant normal' == Minus(normal, processed[..j])
    {
      DeleteMinus(normal, processed[..j], processed[j]);
      assert processed[..j + 1] == processed[..j] + [processed[j]];
      normal' := Delete(normal', processed[j]);
    }
    assert processed[..|processed|] == processed;
    MinusKeeps(normal, processed);
    assert |multiset(normal')| + |multiset(processed)| == |multiset(normal)|;
    forall e | e in normal'
      ensures e in normal && (e.repeatX || e.width > r'.space)
    {
    }
  }

  // ---------------------------------------------------------------- rows

  /** A sheet of finished rows. */
  predicate Sheet(plan: seq<Placed>, width: int, height: int) {
    AllApart(plan) && forall i :: 0 <= i < |plan| ==> Shaped(plan[i], width) && Inside(plan[i], width, height)
  }

  /** The books of the finished rows: the original areas, the waste counted and the two gaps
      make up the sheet. */
  ghost predicate Settled(plan: seq<Placed>, wasted: int, width: int, height: int) {
    && Areas(plan) + wasted + Short(plan) + Lost(plan, width) == width * height
    && Short(plan) >= 0 && Lost(plan, width) >= 0
  }

  lemma RowStarts(plan: seq<Placed>, wasted: int, y: int, width: int)
    requires Sheet(plan, width, y) && 0 <= y && 0 <= width
    ensures Filling(Ledger(plan, wasted), plan, wasted, Row(y, 0, 0, width, width), width)
  {
    assert plan[|plan|..] == [];
  }

  lemma {:induction false} AreasAdd(a: seq<Placed>, b: seq<Placed>)
    ensures Areas(a + b) == Areas(a) + Areas(b)
    decreases |b|
  {
    if b == [] {
      assert a + b == a;
    } else {
      var n := |b| - 1;
      AreasAdd(a, b[..n]);
      assert a + b == (a + b[..n]) + [b[n]] && b == b[..n] + [b[n]];
      Appended(a + b[..n], b[n]);
      Appended(b[..n], b[n]);
    }
  }

  lemma RowsSeparate(done: seq<Placed>, row: seq<Placed>, width: int, y: int)
    requires Sheet(done, width, y) && OneRow(row, y)
    ensures Separate(done, row)
  {
    forall i, j | 0 <= i < |done| && 0 <= j < |row|
      ensures done[i].y != row[j].y
    {
      assert Shaped(done[i], width) && Inside(done[i], width, y);
    }
  }

  /** The books of one row. */
  lemma RowBalance(row: seq<Placed>, y: int, width: int, space: int)
    requires OneRow(row, y) && forall i :: 0 <= i < |row| ==> Shaped(row[i], width)
    requires space == (if HasClear(row) then 0 else width - RowWidth(row, y)) && RowWidth(row, y) <= width
    ensures var h := RowHeight(row, y);
            Areas(row) + Repeats(row) + h * space + Short(row) + Lost(row, width) == width * h
    ensures Short(row) >= 0 && Lost(row, width) >= 0
  {
    hide Covered, Areas, Repeats, RowHeight, RowWidth, ShortTo, LostTo, RowCleared;
    var h, w := RowHeight(row, y), RowWidth(row, y);
    CoveredIsAreas(row, width);
    RowFilled(row, y, |row|);
    assert row[..|row|] == row;
    RowLost(row, y, width, |row|);
    ShortNatural(row, |row|);
    HeightNatural(row, y);
    ClearIsCleared(row, y);
    NoRow(row, y);
    RowSum(Covered(row), Short(row), Lost(row, width), h, w, width, space, row != [] && HasClear(row));
  }

  lemma ClearIsCleared(row: seq<Placed>, y: int)
    requires OneRow(row, y)
    ensures HasClear(row) <==> RowCleared(row, y)
  {
  }

  lemma NoRow(row: seq<Placed>, y: int)
    ensures row == [] ==> RowHeight(row, y) == 0 && RowWidth(row, y) == 0 && !HasClear(row)
  {
  }

  lemma RowSum(covered: int, short: int, lost: int, h: int, w: int, width: int, space: int, cleared: bool)
    requires covered + short == h * w && h >= 0 && w <= width
    requires lost == (if cleared then (width - w) * h else 0) && space == (if cleared then 0 else width - w)
    ensures covered + h * space + short + lost == width * h && lost >= 0
  {
    Product(0, width - w, 0, h);
    assert h * w + h * (width - w) == width * h;
    assert (width - w) * h == h * (width - w);
  }

  lemma RowJoins(plan: seq<Placed>, r: Row, width: int)
    requires RowOk(plan, r, width)
    ensures Sheet(plan, width, r.y + r.height) && r.height >= 0 && r.x + width - r.right <= width
  {
  }

  /** The unused span of the row is waste, and the row joins the sheet. */
  lemma RowEnds(led: Ledger, plan: seq<Placed>, wasted: int, r: Row, width: int)
    requires Filling(led, plan, wasted, r, width) && Sheet(led.done, width, r.y)
    requires Settled(led.done, led.wasted, width, r.y)
    ensures Sheet(plan, width, r.y + r.height) && r.height >= 0
    ensures Settled(plan, wasted + r.height * r.space, width, r.y + r.height)
  {
    hide RowOk, Sheet, Short, Lost, Areas, Repeats, RowHeight, RowWidth, HasClear, OneRow, Separate;
    RowJoins(plan, r, width);
    var row := plan[|led.done|..];
    assert plan == led.done + row;
    RowsSeparate(led.done, row, width, r.y);
    GapsAdd(led.done, row, width);
    AreasAdd(led.done, row);
    RowShapes(plan, row, r, width);
    RowBalance(row, r.y, width, r.space);
    assert width * (r.y + r.height) == width * r.y + width * r.height;
  }

  lemma RowShapes(plan: seq<Placed>, row: seq<Placed>, r: Row, width: int)
    requires RowOk(plan, r, width) && |row| <= |plan| && row == plan[|plan| - |row|..]
    ensures forall i :: 0 <= i < |row| ==> Shaped(row[i], width)
  {
  }

  // ---------------------------------------------------------------- no room is given away

  /** Room at `y` is left that no image of this width could have taken. */
  predicate TooNarrow(plan: seq<Placed>, width: int, y: int, w: int) {
    RowCleared(plan, y) || width - RowWidth(plan, y) < w
  }

  predicate Free(img: Image) { img.anchor.NoAnchor? && !img.repeatX }

  /** No image still to come would have fitted into a finished row. */
  predicate Tight(plan: seq<Placed>, width: int, coming: seq<Image>) {
    forall i, k :: 0 <= i < |plan| && 0 <= k < |coming| && !coming[k].repeatX ==>
      TooNarrow(plan, width, plan[i].y, coming[k].width)
  }

  /** No image in a lower row would have fitted into a row above it. */
  predicate Greedy(plan: seq<Placed>, width: int) {
    forall i, j :: 0 <= i < |plan| && 0 <= j < |plan| && plan[i].y < plan[j].y && Free(plan[j].img) ==>
      TooNarrow(plan, width, plan[i].y, plan[j].w)
  }

  /** The images without anchor in the new row are from the list. */
  predicate RowFrom(row: seq<Placed>, normal: seq<Image>) {
    forall i :: 0 <= i < |row| && row[i].img.anchor.NoAnchor? ==> row[i].img in normal
  }

  /** A new row keeps the sheet tight: what was passed over is too wide for it. */
  lemma TightKept(led: Ledger, plan: seq<Placed>, wasted: int, r: Row, width: int, normal: seq<Image>,
      normal': seq<Image>)
    requires Filling(led, plan, wasted, r, width) && Sheet(led.done, width, r.y)
    requires Tight(led.done, width, normal) && Greedy(led.done, width) && RowFrom(plan[|led.done|..], normal)
    requires forall e :: e in normal' ==> e in normal && (e.repeatX || e.width > r.space)
    ensures Tight(plan, width, normal') && Greedy(plan, width)
  {
    hide RowOk, TooNarrow;
    var done, row := led.done, plan[|led.done|..];
    assert plan == done + row;
    RowsSeparate(done, row, width, r.y);
    RowShapes(plan, row, r, width);
    forall i, k | 0 <= i < |plan| && 0 <= k < |normal'| && !normal'[k].repeatX
      ensures TooNarrow(plan, width, plan[i].y, normal'[k].width)
    {
      assert normal'[k] in normal';
      if i < |done| {
        var m :| 0 <= m < |normal| && normal[m] == normal'[k];
        StillNarrow(done, row, width, i, normal[m].width);
      } else {
        NewNarrow(done, row, r, width, i - |done|, normal'[k].width);
      }
    }
    forall i, j | 0 <= i < |plan| && 0 <= j < |plan| && plan[i].y < plan[j].y && Free(plan[j].img)
      ensures TooNarrow(plan, width, plan[i].y, plan[j].w)
    {
      SheetBelow(done, width, r.y);
      assert i < |done|;
      if j < |done| {
        StillNarrow(done, row, width, i, done[j].w);
      } else {
        assert row[j - |done|].img in normal;
        var m :| 0 <= m < |normal| && normal[m] == plan[j].img;
        StillNarrow(done, row, width, i, normal[m].width);
      }
    }
  }

  lemma SheetBelow(done: seq<Placed>, width: int, y: int)
    requires Sheet(done, width, y)
    ensures forall i :: 0 <= i < |done| ==> done[i].y < y
  {
    forall i | 0 <= i < |done|
      ensures done[i].y < y
    {
      assert Shaped(done[i], width) && Inside(done[i], width, y);
    }
  }

  lemma StillNarrow(done: seq<Placed>, row: seq<Placed>, width: int, i: nat, w: int)
    requires Separate(done, row) && i < |done| && TooNarrow(done, width, done[i].y, w)
    ensures TooNarrow(done + row, width, (done + row)[i].y, w)
  {
    RowOfDone(done, row, i);
  }

  lemma NewNarrow(done: seq<Placed>, row: seq<Placed>, r: Row, width: int, j: nat, w: int)
    requires Separate(done, row) && j < |row| && OneRow(row, r.y) && w > r.space
    requires r.space == (if HasClear(row) then 0 else width - RowWidth(row, r.y))
    ensures TooNarrow(done + row, width, (done + row)[|done| + j].y, w)
  {
    RowOfNew(done, row, j);
    assert HasClear(row) ==> RowCleared(row, r.y);
  }

  lemma Shifted(xs: seq<Image>)
    requires xs != []
    ensures multiset(xs) == multiset(xs[1..]) + multiset{xs[0]}
  {
    assert xs == [xs[0]] + xs[1..];
  }

  lemma FitsTail(xs: seq<Image>, anchor: Anchor, width: int)
    requires xs != [] && Fits(xs, anchor, width)
    ensures Fits(xs[1..], anchor, width) && (NoDuplicates(xs) ==> NoDuplicates(xs[1..]))
    ensures xs[0].anchor == anchor && 0 < xs[0].width <= width && xs[0].height > 0
  {
  }

  /** An image moves from the head of its list into the plan. */
  lemma Moved(plan: seq<Placed>, p: Placed, xs: seq<Image>)
    requires xs != [] && p.img == xs[0]
    ensures multiset(ImagesOf(plan + [p])) + multiset(xs[1..]) == multiset(ImagesOf(plan)) + multiset(xs)
  {
    Appended(plan, p);
    Shifted(xs);
  }

  lemma Exchange(a: multiset<Image>, l: multiset<Image>, a': multiset<Image>, l': multiset<Image>,
      n: multiset<Image>, r: multiset<Image>)
    requires a + l == a' + l'
    ensures a + n + l + r == a' + n + l' + r
    ensures a + n + r + l == a' + n + r + l'
  {
    assert a + n + l + r == (a + l) + n + r && a' + n + l' + r == (a' + l') + n + r;
    assert a + n + r + l == (a + l) + n + r && a' + n + r + l' == (a' + l') + n + r;
  }

  /** The start of a row: a repeated image takes the whole row. */
  method StartRow(width: int, y: int, normal: seq<Image>, plan: seq<Placed>, wasted: int)
    returns (r: Row, normal': seq<Image>, plan': seq<Placed>, wasted': int)
    requires Fits(normal, NoAnchor, width) && NoDuplicates(normal) && Sheet(plan, width, y) && 0 <= y && 0 < width
    ensures Filling(Ledger(plan, wasted), plan', wasted', r, width) && r.y == y && r.x == 0
    ensures Fits(normal', NoAnchor, width) && NoDuplicates(normal') && Grown(plan, plan', normal)
    ensures multiset(ImagesOf(plan')) + multiset(normal') == multiset(ImagesOf(plan)) + multiset(normal)
    ensures forall e :: e in normal' ==> e in normal
    ensures if normal != [] && normal[0].repeatX then |normal'| < |normal| && r.space == 0
            else normal' == normal && r.space == width && r.right == width
  {
    hide Filling, Sheet, ImagesOf, NoDuplicates, Areas;
    RowStarts(plan, wasted, y, width);
    r, normal', plan', wasted' := Row(y, 0, 0, width, width), normal, plan, wasted;
    if normal != [] && normal[0].repeatX {
      var img := normal[0];
      FitsTail(normal, NoAnchor, width);
      PutRepeated(Ledger(plan, wasted), plan, wasted, y, width, img);
      Moved(plan, Placed(img, 0, y, width, img.height), normal);
      normal' := normal[1..];
      plan' := plan + [Placed(img, 0, y, width, img.height)];
      wasted' := wasted + (width - img.width) * img.height;
      r := Row(y, img.height, 0, 0, 0);
    }
  }

  /** The next anchored images are put at their edges, if they fit. */
  method PutAnchored(width: int, y: int, w: Work, plan: seq<Placed>, r: Row, ghost led: Ledger, ghost wasted: int)
    returns (left: seq<Image>, right: seq<Image>, plan': seq<Placed>, r': Row)
    requires WorkOk(w, width) && Filling(led, plan, wasted, r, width) && r.y == y && r.x == 0
    requires r.space > 0 ==> r.right == width
    ensures Filling(led, plan', wasted, r', width) && r'.y == y
    ensures Fits(left, Left, width) && Fits(right, Right, width)
            && All(plan', w.(left := left, right := right)) == All(plan, w)
    ensures plan <= plan' && forall i :: |plan| <= i < |plan'| ==> !plan'[i].img.anchor.NoAnchor?
    ensures |left| <= |w.left| && |right| <= |w.right|
    ensures left == w.left && right == w.right ==> r' == r && plan' == plan
    ensures r.space == width ==>
              (w.left != [] ==> |left| < |w.left|) && (w.left == [] && w.right != [] ==> |right| < |w.right|)
  {
    hide Filling, ImagesOf, NoDuplicates, Fits;
    FirstFits(w, width);
    left, right, plan', r' := w.left, w.right, plan, r;
    if left != [] && left[0].width <= r'.space {
      FitsTail(left, Left, width);
      var p := Placed(left[0], 0, y, left[0].width, left[0].height);
      PutNext(led, plan', wasted, r', width, left[0]);
      Moved(plan', p, left);
      Exchange(multiset(ImagesOf(plan' + [p])), multiset(left[1..]), multiset(ImagesOf(plan')), multiset(left),
               multiset(w.normal), multiset(right));
      r' := PutLeft(r', left[0]);
      left, plan' := left[1..], plan' + [p];
    }
    assert All(plan', w.(left := left)) == All(plan, w);
    if right != [] && right[0].width <= r'.space {
      FitsTail(right, Right, width);
      var p := Placed(right[0], width - right[0].width, y, right[0].width, right[0].height);
      PutAtRight(led, plan', wasted, r', width, right[0]);
      Moved(plan', p, right);
      Exchange(multiset(ImagesOf(plan' + [p])), multiset(right[1..]), multiset(ImagesOf(plan')), multiset(right),
               multiset(w.normal), multiset(left));
      r' := PutRight(r', right[0]);
      right, plan' := right[1..], plan' + [p];
    }
    assert All(plan', w.(left := left, right := right)) == All(plan, w);
  }

  /** One row: a repeated image, or a left and a right anchored image and what fits between. */
  method PlaceRow(width: int, y: int, w: Work, plan: seq<Placed>, wasted: int)
    returns (w': Work, plan': seq<Placed>, wasted': int, height: int)
    requires WorkOk(w, width) && Count(w) > 0 && Sheet(plan, width, y) && 0 <= y && 0 < width
    requires Settled(plan, wasted, width, y) && Tight(plan, width, w.normal) && Greedy(plan, width)
    ensures WorkOk(w', width) && Count(w') < Count(w)
    ensures Sheet(plan', width, y + height) && height >= 0 && Settled(plan', wasted', width, y + height)
    ensures Tight(plan', width, w'.normal) && Greedy(plan', width)
    ensures All(plan', w') == All(plan, w)
  {
    hide Filling, Sheet, ImagesOf, NoDuplicates, Areas, Fits, Settled, Tight, Greedy, Grown;
    ghost var led := Ledger(plan, wasted);
    var r, normal, left, right;
    r, normal, plan', wasted' := StartRow(width, y, w.normal, plan, wasted);
    ghost var plan1, normal1 := plan', normal;
    left, right, plan', r := PutAnchored(width, y, w.(normal := normal), plan', r, led, wasted');
    FirstFits(w, width);
    ghost var plan2 := plan';
    normal, plan', r := FillRow(normal, plan', r, width, led, wasted');
    RowComesFrom(plan, plan1, plan2, plan', w.normal, normal1);
    TightKept(led, plan', wasted', r, width, w.normal, normal);
    RowEnds(led, plan', wasted', r, width);
    wasted' := wasted' + r.height * r.space;
    height := r.height;
    w' := Work(normal, left, right);
  }

  /** Where the images of the row have come from. */
  lemma RowComesFrom(plan: seq<Placed>, plan1: seq<Placed>, plan2: seq<Placed>, plan3: seq<Placed>,
                     normal: seq<Image>, normal1: seq<Image>)
    requires Grown(plan, plan1, normal) && Grown(plan2, plan3, normal1) && forall e :: e in normal1 ==> e in normal
    requires plan1 <= plan2 && forall i :: |plan1| <= i < |plan2| ==> !plan2[i].img.anchor.NoAnchor?
    ensures plan <= plan3 && RowFrom(plan3[|plan|..], normal)
  {
    var row := plan3[|plan|..];
    assert forall k :: 0 <= k < |plan2| ==> plan3[k] == plan2[k];
    assert forall k :: 0 <= k < |plan1| ==> plan2[k] == plan1[k];
    forall i | 0 <= i < |row| && row[i].img.anchor.NoAnchor?
      ensures row[i].img in normal
    {
      assert row[i] == plan3[|plan| + i];
      assert !(|plan1| <= |plan| + i < |plan2|);
    }
  }

  lemma FirstFits(w: Work, width: int)
    requires WorkOk(w, width)
    ensures w.left != [] ==> w.left[0].width <= width
    ensures w.right != [] ==> 0 < w.right[0].width <= width
    ensures w.normal != [] && !w.normal[0].repeatX ==> FillsAgain(w.normal, width)
  {
  }

  // ---------------------------------------------------------------- plan

  /** images.select */
  function Select(images: seq<Image>, anchor: Anchor): seq<Image> {
    if images == [] then []
    else Select(images[..|images| - 1], anchor)
         + if images[|images| - 1].anchor == anchor then [images[|images| - 1]] else []
  }

  lemma {:induction false} Selected(images: seq<Image>, anchor: Anchor, width: int)
    requires Positive(images) && forall i :: 0 <= i < |images| ==> images[i].width <= width
    ensures Fits(Select(images, anchor), anchor, width)
    ensures forall e :: e in Select(images, anchor) ==> e in images
    ensures NoDuplicates(images) ==> NoDuplicates(Select(images, anchor))
  {
    if images != [] {
      var n := |images| - 1;
      Selected(images[..n], anchor, width);
      assert images == images[..n] + [images[n]];
      assert NoDuplicates(images) ==> images[n] !in images[..n];
      assert NoDuplicates(images) ==> images[n] !in Select(images[..n], anchor);
    }
  }

  lemma SelectLast(images: seq<Image>, anchor: Anchor)
    requires images != []
    ensures var n := |images| - 1;
            multiset(Select(images, anchor))
            == multiset(Select(images[..n], anchor)) + if images[n].anchor == anchor then multiset{images[n]}
                else multiset{}
  {
  }

  lemma {:induction false} SelectAll(images: seq<Image>)
    ensures multiset(Select(images, NoAnchor)) + multiset(Select(images, Left)) + multiset(Select(images, Right))
            == multiset(images)
  {
    hide Select;
    if images == [] {
      NoneSelected();
    } else {
      var n := |images| - 1;
      var t, e := images[..n], images[n];
      SelectAll(t);
      assert images == t + [e];
      SelectLast(images, NoAnchor);
      SelectLast(images, Left);
      SelectLast(images, Right);
      OneMore(multiset(Select(t, NoAnchor)), multiset(Select(t, Left)), multiset(Select(t, Right)), multiset(t),
          multiset{e});
    }
  }

  lemma NoneSelected()
    ensures forall anchor :: Select([], anchor) == []
  {
  }

  lemma OneMore(a: multiset<Image>, b: multiset<Image>, c: multiset<Image>, m: multiset<Image>, e: multiset<Image>)
    requires a + b + c == m
    ensures (a + e) + (b + multiset{}) + (c + multiset{}) == m + e
    ensures (a + multiset{}) + (b + e) + (c + multiset{}) == m + e
    ensures (a + multiset{}) + (b + multiset{}) + (c + e) == m + e
  {
    assert a + multiset{} == a && b + multiset{} == b && c + multiset{} == c;
    assert (a + e) + b + c == (a + b + c) + e;
    assert a + (b + e) + c == (a + b + c) + e;
  }

  /** The widths of the repeated images. */
  function RepeatedWidths(images: seq<Image>): seq<nat> {
    if images == [] then []
    else
      var e := images[|images| - 1];
      RepeatedWidths(images[..|images| - 1]) + if e.repeatX then [e.width] else []
  }

  lemma {:induction false} RepeatedPositive(images: seq<Image>)
    requires Positive(images)
    ensures forall i :: 0 <= i < |RepeatedWidths(images)| ==> RepeatedWidths(images)[i] > 0
    ensures forall i :: 0 <= i < |images| && images[i].repeatX ==> images[i].width in RepeatedWidths(images)
  {
    if images != [] {
      var n := |images| - 1;
      RepeatedPositive(images[..n]);
      assert images == images[..n] + [images[n]];
    }
  }

  /** `max` is the width of the widest image. */
  predicate Widest(images: seq<Image>, max: nat) {
    (exists i :: 0 <= i < |images| && images[i].width == max)
    && forall i :: 0 <= i < |images| ==> images[i].width <= max
  }

  /** The widest image, and the least common multiple of the repeated widths. */
  method Measure(images: seq<Image>) returns (max: nat, lcm: nat)
    requires Positive(images) && images != []
    ensures max > 0 && Widest(images, max) && lcm == LcmAll(RepeatedWidths(images)) > 0
  {
    hide Lcm;
    max, lcm := 0, 1;
    assert images[..0] == [];
    for i := 0 to |images|
      invariant i > 0 ==> max > 0 && Widest(images[..i], max)
      invariant i == 0 ==> max == 0
      invariant lcm == LcmAll(RepeatedWidths(images[..i])) > 0
    {
      ghost var seen, next := images[..i], images[..i + 1];
      assert next == seen + [images[i]] && next[..i] == seen;
      WidestNext(seen, images[i], max);
      max := if max >= images[i].width then max else images[i].width;
      if images[i].repeatX {
        ghost var ws := RepeatedWidths(seen);
        assert RepeatedWidths(next) == ws + [images[i].width] && (ws + [images[i].width])[..|ws|] == ws;
        lcm := Lcm(lcm, images[i].width);
      } else {
        assert RepeatedWidths(next) == RepeatedWidths(seen);
      }
    }
    assert images[..|images|] == images;
  }

  lemma WidestNext(seen: seq<Image>, e: Image, max: nat)
    requires seen == [] || Widest(seen, max)
    requires seen == [] ==> max == 0
    ensures Widest(seen + [e], if max >= e.width then max else e.width) || (seen == [] && e.width == 0)
  {
    var next := seen + [e];
    assert next[|seen|] == e;
    assert forall i :: 0 <= i < |seen| ==> next[i] == seen[i];
    if seen != [] && max >= e.width {
      var i :| 0 <= i < |seen| && seen[i].width == max;
      assert next[i].width == max;
    }
  }

  lemma SmallRemainder(u: nat, m: nat)
    requires u < m
    ensures u % m == u
  {
  }

  /** The sheet is wide enough for every image, and a multiple of every repeated width. */
  lemma WideEnough(images: seq<Image>, max: nat, lcm: nat, aim: nat)
    requires Positive(images) && max > 0 && Widest(images, max) && lcm == LcmAll(RepeatedWidths(images)) > 0 && aim > 0
    ensures var width := Lcm(max, lcm) * aim;
            forall i :: 0 <= i < |images| ==>
              0 < images[i].width <= width && (images[i].repeatX ==> width % images[i].width == 0)
  {
    hide Lcm, LcmAll;
    var unit := Lcm(max, lcm);
    if unit < max {
      SmallRemainder(unit, max);
    }
    Monotone(unit, 1, aim);
    MultipleOf(aim, unit);
    assert aim * unit == unit * aim;
    DividesOn(lcm, unit, unit * aim);
    RepeatedPositive(images);
    LcmAllIsLeast(RepeatedWidths(images));
    forall i | 0 <= i < |images| && images[i].repeatX
      ensures (unit * aim) % images[i].width == 0
    {
      DividesOn(images[i].width, lcm, unit * aim);
    }
  }

  /** The width of the sheet, and the three worklists. */
  method Prepare(images: seq<Image>, aim: nat) returns (width: int, w: Work)
    requires Positive(images) && NoDuplicates(images) && images != [] && aim >= 1
    ensures WorkOk(w, width) && 0 < width && All([], w) == multiset(images)
    ensures forall i :: 0 <= i < |images| ==>
              0 < images[i].width <= width && (images[i].repeatX ==> width % images[i].width == 0)
    ensures exists max: nat :: max > 0 && LcmAll(RepeatedWidths(images)) > 0 && Widest(images, max)
                               && width == Lcm(max, LcmAll(RepeatedWidths(images))) * aim
  {
    hide Select, Fits, Lcm, LcmAll, Widest, RepeatedWidths, NoDuplicates;
    var max, lcm := Measure(images);
    width := Lcm(max, lcm) * aim;
    WideEnough(images, max, lcm, aim);
    assert images[0].width <= width;
    Selected(images, NoAnchor, width);
    Selected(images, Left, width);
    Selected(images, Right, width);
    SelectAll(images);
    w := Work(Select(images, NoAnchor), Select(images, Left), Select(images, Right));
  }

  /** plan: every image is placed exactly once, inside the sheet and apart from the others,
      anchored images at their edge and repeated ones across the sheet; no image would have
      fitted into a row above its own; the width is `aim` times the least common multiple of
      the greatest width and the repeated widths; and the original areas, the wasted pixels,
      the space above short images and what rows lose after an image with clear make up
      exactly the sheet.  (An empty list gives an empty plan.) */
  method Plan(images: seq<Image>, aim: nat) returns (plan: seq<Placed>, width: int, height: int, wasted: int)
    requires Positive(images) && DistinctKeys(images) && aim >= 1
    ensures multiset(ImagesOf(plan)) == multiset(images)
    ensures Sheet(plan, width, height) && Greedy(plan, width)
    ensures forall i :: 0 <= i < |images| ==>
              0 < images[i].width <= width && (images[i].repeatX ==> width % images[i].width == 0)
    ensures images != [] ==>
              exists max: nat :: max > 0 && LcmAll(RepeatedWidths(images)) > 0 && Widest(images, max)
                                 && width == Lcm(max, LcmAll(RepeatedWidths(images))) * aim
    ensures Areas(plan) + wasted + Short(plan) + Lost(plan, width) == width * height
    ensures Areas(plan) + wasted <= width * height
    ensures Even(plan) ==> Areas(plan) + wasted == width * height
    ensures images == [] ==> plan == [] && wasted == 0
  {
    hide Select, Areas, ImagesOf, Fits, Greedy, Tight, Lcm, LcmAll, Settled, Widest, RepeatedWidths, Short,
         Lost, Sheet, Even, NoDuplicates;
    plan, width, height, wasted := [], 0, 0, 0;
    EmptySheet(0);
    if images == [] {
      SettledMeans(plan, wasted, width, height);
      return;
    }
    var w;
    KeysDistinguish(images);
    width, w := Prepare(images, aim);
    EmptySheet(width);
    NothingGreedy(width, w.normal);
    var y := 0;
    while w.normal != [] || w.left != [] || w.right != []
      invariant WorkOk(w, width) && 0 <= y && 0 < width
      invariant Sheet(plan, width, y) && Settled(plan, wasted, width, y)
      invariant Tight(plan, width, w.normal) && Greedy(plan, width)
      invariant All(plan, w) == multiset(images)
      decreases Count(w)
    {
      var rowHeight;
      w, plan, wasted, rowHeight := PlaceRow(width, y, w, plan, wasted);
      y := y + rowHeight;
    }
    height := y;
    SettledMeans(plan, wasted, width, height);
  }

  lemma KeysDistinguish(images: seq<Image>)
    requires DistinctKeys(images)
    ensures NoDuplicates(images)
  {
  }

  lemma SettledMeans(plan: seq<Placed>, wasted: int, width: int, height: int)
    requires Settled(plan, wasted, width, height) && Sheet(plan, width, height)
    ensures Areas(plan) + wasted + Short(plan) + Lost(plan, width) == width * height
    ensures Areas(plan) + wasted <= width * height
    ensures Even(plan) ==> Areas(plan) + wasted == width * height
  {
    if Even(plan) {
      assert forall i :: 0 <= i < |plan| ==> Shaped(plan[i], width);
      NoGaps(plan, width);
    }
  }

  lemma NothingGreedy(width: int, coming: seq<Image>)
    ensures Tight([], width, coming) && Greedy([], width)
  {
  }

  lemma EmptySheet(width: int)
    ensures Sheet([], width, 0) && Areas([]) == 0 && ImagesOf([]) == [] && Settled([], 0, width, 0) && Greedy([], width)
  {
  }

  // ---------------------------------------------------------------- yplan

  function Heights(images: seq<Image>): seq<nat> { seq(|images|, i requires 0 <= i < |images| => images[i].height) }

  /** A column of the sheet for images repeated downwards. */
  predicate Column(p: Placed, height: int) {
    p.y == 0 && p.h == height && p.w == p.img.width && p.w > 0 && p.img.height > 0 && height % p.img.height == 0
  }

  /** The least common multiple of all heights. */
  method CommonHeight(images: seq<Image>) returns (lcm: nat)
    requires Positive(images)
    ensures lcm == LcmAll(Heights(images)) > 0 && forall k :: 0 <= k < |images| ==> lcm % images[k].height == 0
  {
    hide Lcm;
    lcm := 1;
    ghost var heights := Heights(images);
    assert heights[..0] == [];
    for i := 0 to |images|
      invariant lcm == LcmAll(heights[..i]) > 0
    {
      assert heights[..i + 1][..i] == heights[..i];
      lcm := Lcm(lcm, images[i].height);
    }
    assert heights[..|images|] == heights;
    LcmAllIsLeast(heights);
    assert forall k :: 0 <= k < |images| ==> heights[k] == images[k].height;
  }

  /** Columns side by side from the left edge up to `x`, with their books balanced. */
  predicate Laid(plan: seq<Placed>, x: int, height: int, wasted: int) {
    && AllApart(plan) && 0 <= x && Areas(plan) + wasted == x * height
    && forall k :: 0 <= k < |plan| ==> Column(plan[k], height) && Inside(plan[k], x, height)
  }

  lemma LaidNext(plan: seq<Placed>, x: int, height: int, wasted: int, img: Image)
    requires Laid(plan, x, height, wasted) && img.width > 0 && img.height > 0 && height % img.height == 0 && height >= 0
    ensures Laid(plan + [Placed(img, x, 0, img.width, height)], x + img.width, height,
                 wasted + (height - img.height) * img.width)
  {
    hide Areas;
    var p := Placed(img, x, 0, img.width, height);
    Appended(plan, p);
    ApartFromAll(plan, p);
    assert (height - img.height) * img.width + img.width * img.height == img.width * height;
    assert (x + img.width) * height == x * height + img.width * height;
  }

  /** yplan: every image is placed exactly once, in order, over the whole height of the
      sheet, which is the least common multiple of all heights; the columns do not overlap, and
      original areas and wasted pixels make up exactly the sheet. */
  method YPlan(images: seq<Image>) returns (plan: seq<Placed>, width: int, height: int, wasted: int)
    requires Positive(images)
    ensures ImagesOf(plan) == images && AllApart(plan)
    ensures forall i :: 0 <= i < |plan| ==> Column(plan[i], height) && Inside(plan[i], width, height)
    ensures Areas(plan) + wasted == width * height
    ensures images != [] ==> height == LcmAll(Heights(images))
  {
    hide Areas, ImagesOf, LcmAll, Settled;
    plan, width, height, wasted := [], 0, 0, 0;
    EmptySheet(0);
    if images == [] {
      return;
    }
    height := CommonHeight(images);
    var x := 0;
    assert images[..0] == [];
    for i := 0 to |images|
      invariant ImagesOf(plan) == images[..i] && Laid(plan, x, height, wasted)
    {
      var img := images[i];
      LaidNext(plan, x, height, wasted, img);
      Appended(plan, Placed(img, x, 0, img.width, height));
      assert images[..i + 1] == images[..i] + [img];
      plan := plan + [Placed(img, x, 0, img.width, height)];
      wasted := wasted + (height - img.height) * img.width;
      x := x + img.width;
    }
    width := x;
    assert images[..|images|] == images;
  }
}
