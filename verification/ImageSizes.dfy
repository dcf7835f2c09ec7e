/**
 The size arithmetic of resizing (images/manipulation.go:36-69, 91-96) and of the 95% rounds of
 CompressToFileLimits (images/encode.go:72-100).  Quotients are exact here where the
 code uses floating point.
 */
module ImageSizes {
  /** Bounds with a non-negative origin. */
  datatype Rect = Rect(minX: nat, minY: nat, maxX: nat, maxY: nat) {
    function Dx(): int { maxX - minX }
    function Dy(): int { maxY - minY }
    predicate Visible() { Dx() >= 1 && Dy() >= 1 }
    predicate Anchored() { minX == 0 && minY == 0 }
    /** Has pixels, or is a line without pixels left over from a side that was rounded to zero. */
    predicate Solid() { Visible() || (Anchored() && maxX + maxY >= 1) }
    /** A single pixel, or a pixelless line of length one. */
    predicate Least() { Anchored() && maxX <= 1 && maxY <= 1 }
  }

  const LONG_SIDE_MAX := 2000

  /** An exact quotient; the code computes it in floating point. */
  datatype Ratio = Ratio(num: nat, den: nat)

  /** Scaling factors; a zero target side is derived from the other one. */
  function CalcFactors(width: nat, height: nat, oldWidth: nat, oldHeight: nat): (Ratio, Ratio) {
    if width == 0 then
      if height == 0 then (Ratio(1, 1), Ratio(1, 1))
      else (Ratio(oldHeight, height), Ratio(oldHeight, height))
    else
      var scaleX := Ratio(oldWidth, width);
      if height == 0 then (scaleX, scaleX) else (scaleX, Ratio(oldHeight, height))
  }

  /** int(0.7 + x / scale), over the common denominator 10 * scale.num. */
  function DerivedSide(x: nat, scale: Ratio): nat
    requires scale.num > 0
  {
    (7 * scale.num + 10 * x * scale.den) / (10 * scale.num)
  }

  /** No derived side needs a division by zero. */
  predicate Derivable(r: Rect, width: nat, height: nat) {
    && r.minX <= r.maxX && r.minY <= r.maxY
    && (width == 0 && height > 0 ==> r.Dy() > 0)
    && (width > 0 && height == 0 ==> r.Dx() > 0)
  }

  /** The bounds of resizeImage's result. */
  function Resized(r: Rect, width: nat, height: nat): Rect
    requires Derivable(r, width, height)
  {
    var (scaleX, scaleY) := CalcFactors(width, height, r.Dx(), r.Dy());
    var w := if width == 0 then DerivedSide(r.Dx(), scaleX) else width;
    var h := if height == 0 then DerivedSide(r.Dy(), scaleY) else height;
    Rect(0, 0, w, h)
  }

  /** The bounds of Scale(percent, img)'s result. */
  function Scaled(r: Rect, percent: nat): Rect
    requires r.Solid()
  {
    Resized(r, r.maxX * percent / 100, r.maxY * percent / 100)
  }

  /** The bounds after the pre-compression resize. */
  function PreResized(r: Rect): (s: Rect)
    requires r.Visible()
    ensures s.Solid()
  {
    if r.maxX > r.maxY then
      if r.maxX > LONG_SIDE_MAX then Resized(r, LONG_SIDE_MAX, 0) else r
    else
      if r.maxY > LONG_SIDE_MAX then Resized(r, 0, LONG_SIDE_MAX) else r
  }

  // ---------------------------------------------------------------------------
  // The derived side
  // ---------------------------------------------------------------------------

  lemma QuotientAtLeast(n: nat, d: nat, k: nat)
    requires d > 0
    ensures n / d >= k <==> n >= k * d
  {
    var q := n / d;
    assert q * d <= n < (q + 1) * d by { assert n == q * d + n % d; }
    if q >= k { assert q * d >= k * d by { MulMono(k, q, d); } } else { MulMono(q + 1, k, d); }
  }

  lemma MulMono(a: nat, b: nat, d: nat)
    requires a <= b
    ensures a * d <= b * d
  {
    assert b * d == a * d + (b - a) * d;
  }

  /** int(0.7 + x / (y / t)) is at least k exactly when x * t reaches k - 0.7 of y. */
  lemma DerivedAtLeast(x: nat, y: nat, t: nat, k: nat)
    requires y >= 1
    ensures DerivedSide(x, Ratio(y, t)) >= k <==> 10 * (x * t) + 7 * y >= 10 * (k * y)
  {
    QuotientAtLeast(7 * y + 10 * x * t, 10 * y, k);
    assert 10 * x * t == 10 * (x * t);
    assert k * (10 * y) == 10 * (k * y);
  }

  /** d is x scaled as y is scaled to t, rounded down after adding 0.7. */
  predicate InProportion(x: nat, y: nat, t: nat, d: nat) {
    10 * (d * y) <= 10 * (x * t) + 7 * y < 10 * ((d + 1) * y)
  }

  lemma DerivedInProportion(x: nat, y: nat, t: nat)
    requires y >= 1
    ensures InProportion(x, y, t, DerivedSide(x, Ratio(y, t)))
  {
    var d := DerivedSide(x, Ratio(y, t));
    DerivedAtLeast(x, y, t, d);
    DerivedAtLeast(x, y, t, d + 1);
  }

  /** A given side is kept, a side left open follows in proportion, and with both left open the size is kept. */
  lemma ResizedSides(r: Rect, width: nat, height: nat)
    requires Derivable(r, width, height)
    ensures var n := Resized(r, width, height);
            && n.Anchored() && (width > 0 ==> n.maxX == width) && (height > 0 ==> n.maxY == height)
            && (width == 0 && height > 0 ==> InProportion(r.Dx(), r.Dy(), height, n.maxX))
            && (width > 0 && height == 0 ==> InProportion(r.Dy(), r.Dx(), width, n.maxY))
            && (width == 0 && height == 0 ==> n.maxX == r.Dx() && n.maxY == r.Dy())
  {
    if width == 0 && height > 0 { DerivedInProportion(r.Dx(), r.Dy(), height); }
    if width > 0 && height == 0 { DerivedInProportion(r.Dy(), r.Dx(), width); }
    if width == 0 && height == 0 { BothDerived(r); }
  }

  // ---------------------------------------------------------------------------
  // The pre-compression resize
  // ---------------------------------------------------------------------------

  /** The derived side survives exactly when the long side is at most 6666 2/3 times the short one. */
  lemma PreResizeVisible(r: Rect)
    requires r.Visible()
    ensures PreResized(r).Visible() <==>
              if r.maxX > r.maxY then r.maxX > LONG_SIDE_MAX ==> 3 * r.Dx() <= 20000 * r.Dy()
              else r.maxY > LONG_SIDE_MAX ==> 3 * r.Dy() <= 20000 * r.Dx()
  {
    DerivedAtLeast(r.Dy(), r.Dx(), LONG_SIDE_MAX, 1);
    DerivedAtLeast(r.Dx(), r.Dy(), LONG_SIDE_MAX, 1);
  }

  /** An image that reaches too far along its longer reach gets 2000 pixels there and the other side in proportion. */
  lemma PreResizedSides(r: Rect)
    requires r.Visible()
    ensures var n := PreResized(r);
            if r.maxX > r.maxY && r.maxX > 2000 then n.Anchored() && n.maxX == 2000 && InProportion(r.Dy(), r.Dx(), 2000, n.maxY)
            else if r.maxX <= r.maxY && r.maxY > 2000 then n.Anchored() && n.maxY == 2000 && InProportion(r.Dx(), r.Dy(), 2000, n.maxX)
            else n == r
  {
    if r.maxX > r.maxY && r.maxX > 2000 { ResizedSides(r, 2000, 0); }
    if r.maxX <= r.maxY && r.maxY > 2000 { ResizedSides(r, 0, 2000); }
  }

  /** Both sides end up within the limit exactly when the longer reach is, up to rounding, the longer side. */
  lemma PreResizeBoundedExactly(r: Rect)
    requires r.Visible()
    ensures PreResized(r).Dx() <= LONG_SIDE_MAX && PreResized(r).Dy() <= LONG_SIDE_MAX <==>
              if r.maxX > r.maxY then r.maxX > LONG_SIDE_MAX ==> 20000 * r.Dy() < 20003 * r.Dx()
              else r.maxY > LONG_SIDE_MAX ==> 20000 * r.Dx() < 20003 * r.Dy()
  {
    DerivedAtLeast(r.Dy(), r.Dx(), LONG_SIDE_MAX, LONG_SIDE_MAX + 1);
    DerivedAtLeast(r.Dx(), r.Dy(), LONG_SIDE_MAX, LONG_SIDE_MAX + 1);
  }

  /** So they always do for bounds that start at the origin. */
  lemma PreResizeBounded(r: Rect)
    requires r.Visible() && r.Anchored()
    ensures PreResized(r).Anchored() && PreResized(r).maxX <= LONG_SIDE_MAX && PreResized(r).maxY <= LONG_SIDE_MAX
  {
    PreResizeBoundedExactly(r);
  }

  /** Bounds away from the origin can grow: the test reads the corner, the factor reads the size. */
  lemma OffsetImageGrows()
    ensures var r := Rect(2000, 0, 2001, 2000); r.Dx() == 1 && r.Dy() == 2000 && PreResized(r).maxY >= 4_000_000
  {
    DerivedAtLeast(2000, 1, LONG_SIDE_MAX, 4_000_000);
  }

  // ---------------------------------------------------------------------------
  // The rounds
  // ---------------------------------------------------------------------------

  lemma Percent95(x: nat)
    ensures x <= 1 ==> x * 95 / 100 == 0
    ensures x >= 2 ==> 1 <= x * 95 / 100 < x && 2 * (x * 95 / 100) >= x
  {
  }

  /** A one-pixel side stays one pixel wide while the other side shrinks from y to t. */
  lemma ThinSide(y: nat, t: nat)
    requires 1 <= t < y && 2 * t >= y
    ensures DerivedSide(1, Ratio(y, t)) == 1
  {
    DerivedAtLeast(1, y, t, 1);
    DerivedAtLeast(1, y, t, 2);
  }

  /**
   What one round does to an image at the origin: it shrinks, keeping every non-zero side
   non-zero, unless it is of the least size, which stays.
   */
  predicate Shrunk(r: Rect, n: Rect) {
    && n.Anchored() && n.maxX <= r.maxX && n.maxY <= r.maxY
    && (n.maxX == 0 <==> r.maxX == 0) && (n.maxY == 0 <==> r.maxY == 0)
    && (r.Least() ==> n == r)
    && (!r.Least() ==> n.maxX + n.maxY < r.maxX + r.maxY)
  }

  /** t is a target side for a side x: zero up to one pixel, else smaller, but not below half. */
  predicate Target(x: nat, t: nat) {
    if x <= 1 then t == 0 else 1 <= t < x && 2 * t >= x
  }

  lemma ShrinkWidth(r: Rect, w: nat)
    requires r.Anchored() && Target(r.maxX, w) && w > 0 && r.maxY <= 1
    ensures Shrunk(r, Resized(r, w, 0))
  {
    if r.maxY == 1 { ThinSide(r.maxX, w); } else { DerivedAtLeast(0, r.maxX, w, 1); }
    assert Resized(r, w, 0) == Rect(0, 0, w, r.maxY);
  }

  lemma ShrinkHeight(r: Rect, h: nat)
    requires r.Anchored() && Target(r.maxY, h) && h > 0 && r.maxX <= 1
    ensures Shrunk(r, Resized(r, 0, h))
  {
    if r.maxX == 1 { ThinSide(r.maxY, h); } else { DerivedAtLeast(0, r.maxY, h, 1); }
    assert Resized(r, 0, h) == Rect(0, 0, r.maxX, h);
  }

  /** With both target sides zero the size is kept. */
  lemma BothDerived(r: Rect)
    requires Derivable(r, 0, 0)
    ensures Resized(r, 0, 0) == Rect(0, 0, r.Dx(), r.Dy())
  {
  }

  lemma BothGiven(r: Rect, width: nat, height: nat)
    requires Derivable(r, width, height) && width > 0 && height > 0
    ensures Resized(r, width, height) == Rect(0, 0, width, height)
  {
  }

  lemma ResizeShrinks(r: Rect, w: nat, h: nat)
    requires r.Anchored() && Target(r.maxX, w) && Target(r.maxY, h)
    ensures Shrunk(r, Resized(r, w, h))
  {
    if w == 0 && h == 0 {
      BothDerived(r);
    } else if w == 0 {
      ShrinkHeight(r, h);
    } else if h == 0 {
      ShrinkWidth(r, w);
    } else {
      BothGiven(r, w, h);
    }
  }

  /** One 95% round of an image at the origin. */
  lemma RoundShrinks(r: Rect)
    requires r.Solid() && r.Anchored()
    ensures Shrunk(r, Scaled(r, 95))
  {
    Percent95(r.maxX);
    Percent95(r.maxY);
    ResizeShrinks(r, r.maxX * 95 / 100, r.maxY * 95 / 100);
  }

  /** What 95% takes off a side that reaches up to x. */
  function Cut(x: nat): nat { if x <= 1 then 0 else x - x * 95 / 100 }

  lemma ThinDerived(y: nat, t: nat)
    requires 1 <= y <= 2 * t
    ensures DerivedSide(1, Ratio(y, t)) >= 1 && (t < y ==> DerivedSide(1, Ratio(y, t)) == 1)
  {
    DerivedAtLeast(1, y, t, 1);
    if t < y { ThinSide(y, t); }
  }

  lemma ResizeShrinksExactly(r: Rect, w: nat, h: nat)
    requires r.Visible() && Target(r.maxX, w) && Target(r.maxY, h)
    ensures var n := Resized(r, w, h);
            n.Dx() + n.Dy() < r.Dx() + r.Dy() <==>
              r.minX + r.minY < (if r.maxX <= 1 then 0 else r.maxX - w) + (if r.maxY <= 1 then 0 else r.maxY - h)
  {
    if w == 0 && h == 0 {
      BothDerived(r);
    } else if w == 0 {
      ThinDerived(r.Dy(), h);
      assert Resized(r, 0, h) == Rect(0, 0, DerivedSide(1, Ratio(r.Dy(), h)), h);
    } else if h == 0 {
      ThinDerived(r.Dx(), w);
      assert Resized(r, w, 0) == Rect(0, 0, w, DerivedSide(1, Ratio(r.Dx(), w)));
    } else {
      BothGiven(r, w, h);
    }
  }

  /** For every image with pixels: a round shrinks it exactly when the round cuts off more than its distance from the origin. */
  lemma RoundShrinksExactly(r: Rect)
    requires r.Visible()
    ensures Scaled(r, 95).Dx() + Scaled(r, 95).Dy() < r.Dx() + r.Dy() <==> r.minX + r.minY < Cut(r.maxX) + Cut(r.maxY)
  {
    Percent95(r.maxX);
    Percent95(r.maxY);
    ResizeShrinksExactly(r, r.maxX * 95 / 100, r.maxY * 95 / 100);
  }

  lemma ScaledBothGiven(r: Rect)
    requires r.Visible() && r.maxX >= 2 && r.maxY >= 2
    ensures Scaled(r, 95) == Rect(0, 0, r.maxX * 95 / 100, r.maxY * 95 / 100)
  {
    Percent95(r.maxX);
    Percent95(r.maxY);
    BothGiven(r, r.maxX * 95 / 100, r.maxY * 95 / 100);
  }

  /** Images one pixel wide, as far off the origin as they are high: they pass the pre-compression resize and then grow. */
  lemma OffsetRoundGrows(r: Rect, x: nat)
    requires 2 <= x < 2000 && r == Rect(x, 0, x + 1, x)
    ensures PreResized(r) == r && Scaled(r, 95) == Rect(0, 0, (x + 1) * 95 / 100, x * 95 / 100)
    ensures x >= 20 ==> Scaled(r, 95).Dx() + Scaled(r, 95).Dy() > r.Dx() + r.Dy()
  {
    ScaledBothGiven(r);
  }

  lemma DerivedVisible(r: Rect, width: nat, height: nat)
    requires r.Visible() && width + height > 0
    requires width == 0 ==> 10 * (r.Dx() * height) >= 3 * r.Dy()
    requires height == 0 ==> 10 * (r.Dy() * width) >= 3 * r.Dx()
    ensures Resized(r, width, height).Visible() && Resized(r, width, height).Anchored()
  {
    if width == 0 { DerivedAtLeast(r.Dx(), r.Dy(), height, 1); }
    if height == 0 { DerivedAtLeast(r.Dy(), r.Dx(), width, 1); }
  }

  /** The first round moves any image to the origin and keeps its pixels. */
  lemma RoundAnchors(r: Rect)
    requires r.Visible()
    ensures Scaled(r, 95).Visible() && Scaled(r, 95).Anchored()
  {
    var w, h := r.maxX * 95 / 100, r.maxY * 95 / 100;
    Percent95(r.maxX);
    Percent95(r.maxY);
    if w == 0 && h == 0 {
      BothDerived(r);
    } else {
      assert w == 0 ==> r.Dx() == 1;
      assert h == 0 ==> r.Dy() == 1;
      DerivedVisible(r, w, h);
    }
  }

  /** A round keeps pixels where there are some, and a line where there is only a line. */
  lemma RoundKeepsKind(r: Rect)
    requires r.Solid()
    ensures Scaled(r, 95).Solid() && Scaled(r, 95).Anchored() && (Scaled(r, 95).Visible() <==> r.Visible())
  {
    if r.Visible() { RoundAnchors(r); } else { RoundShrinks(r); }
  }

  /** The bounds after n rounds. */
  function Rounds(r: Rect, n: nat): (s: Rect)
    requires r.Solid()
    ensures s.Solid() && (s.Visible() <==> r.Visible()) && (n > 0 ==> s.Anchored())
  {
    if n == 0 then r
    else
      RoundKeepsKind(Rounds(r, n - 1));
      Scaled(Rounds(r, n - 1), 95)
  }

  lemma RoundsShrink(r: Rect, m: nat)
    requires r.Solid() && Rounds(r, m).Anchored()
    ensures Shrunk(Rounds(r, m), Rounds(r, m + 1))
  {
    RoundShrinks(Rounds(r, m));
  }

  /** Once at the origin, the image has the least size after finitely many further rounds. */
  lemma {:induction false} ReachesLeast(r: Rect, m: nat, cur: Rect) returns (n: nat)
    requires r.Solid() && cur == Rounds(r, m) && cur.Anchored()
    ensures m <= n <= m + cur.maxX + cur.maxY && Rounds(r, n).Least()
    decreases cur.maxX + cur.maxY
  {
    if cur.Least() {
      n := m;
    } else {
      RoundsShrink(r, m);
      n := ReachesLeast(r, m + 1, Rounds(r, m + 1));
    }
  }
}
