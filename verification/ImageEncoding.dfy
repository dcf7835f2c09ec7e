/**
 Encoding to a size limit: EncodeToLimits walks down a ladder of qualities, CompressToFileLimits
 shrinks the image by 95% until one walk succeeds (images/encode.go:40-100).  One buffer is shared
 by all of it, and is not reset when a walk ends in a size error.
 */
module ImageEncoding {
  import opened ImageSizes

  newtype byte = x: int | 0 <= x < 256

  type Pixels = seq<int>

  datatype Image = Image(bounds: Rect, pixels: Pixels)

  /** What the JPEG encoder appends to the buffer, and whether it reports an error. */
  datatype Encoding = Encoding(bytes: seq<byte>, failed: bool)

  /** The encoder and resizeImage (picture, width, height), as arbitrary functions. */
  datatype Codec = Codec(encode: (Image, int) -> Encoding, resize: (Image, nat, nat) -> Image)

  /** What is known of resizeImage: the bounds of its result; what it draws is left open. */
  ghost predicate Sized(codec: Codec) {
    forall img: Image, width: nat, height: nat {:trigger codec.resize(img, width, height)} ::
      Derivable(img.bounds, width, height) ==> codec.resize(img, width, height).bounds == Resized(img.bounds, width, height)
  }

  datatype Limits = Limits(ideal: int, max: int)

  datatype Outcome = Done | EncodeFailed | TooLarge(expected: int, received: int)

  const MAX_JPEG_QUALITY := 80
  const MIN_JPEG_QUALITY := 50

  /** The number of the last rung of the ladder. */
  const LAST: nat := 15

  /** The quality tried at rung j. */
  function Quality(j: nat): int { MAX_JPEG_QUALITY - 2 * j }

  class Buffer {
    var data: seq<byte>
    constructor () ensures data == [] { data := []; }
  }

  // ---------------------------------------------------------------------------
  // One walk down the ladder
  // ---------------------------------------------------------------------------

  /** A walk: the picture, the limits and what the buffer held before. */
  datatype Walk = Walk(codec: Codec, img: Image, limits: Limits, before: seq<byte>) {
    function At(j: nat): Encoding { codec.encode(img, Quality(j)) }

    /** The buffer after rung j: only the first rung still sees what was there before. */
    function Held(j: nat): seq<byte> { (if j == 0 then before else []) + At(j).bytes }

    predicate Stops(j: nat) { At(j).failed || |Held(j)| < limits.ideal || j >= LAST }

    /** Rung k is the first one where the walk stops. */
    predicate StopsFirst(k: nat) { k <= LAST && Stops(k) && forall i: nat :: i < k ==> !Stops(i) }

    lemma SomeStop(k: nat) returns (j: nat)
      requires k <= LAST && forall i: nat :: i < k ==> !Stops(i)
      ensures StopsFirst(j)
      decreases LAST - k
    {
      if Stops(k) { j := k; } else { j := SomeStop(k + 1); }
    }

    lemma HasStop()
      ensures exists k: nat :: StopsFirst(k)
    {
      var j := SomeStop(0);
    }

    ghost function Stop(): (k: nat)
      ensures StopsFirst(k)
    {
      HasStop();
      var k: nat :| StopsFirst(k);
      k
    }

    function OutcomeAt(j: nat): Outcome {
      if At(j).failed then EncodeFailed
      else if |Held(j)| < limits.ideal || |Held(j)| < limits.max then Done
      else TooLarge(limits.max, |Held(j)|)
    }

    ghost function Outcome(): Outcome { OutcomeAt(Stop()) }

    /** The buffer after the walk. */
    ghost function After(): seq<byte> { Held(Stop()) }
  }

  method Encode(bb: Buffer, img: Image, quality: int, codec: Codec) returns (failed: bool)
    modifies bb
    ensures bb.data == old(bb.data) + codec.encode(img, quality).bytes
    ensures failed == codec.encode(img, quality).failed
  {
    var e := codec.encode(img, quality);
    bb.data := bb.data + e.bytes;
    failed := e.failed;
  }

  method EncodeToLimits(bb: Buffer, img: Image, limits: Limits, codec: Codec) returns (r: Outcome)
    modifies bb
    ensures var walk := Walk(codec, img, limits, old(bb.data)); r == walk.Outcome() && bb.data == walk.After()
  {
    ghost var walk := Walk(codec, img, limits, bb.data);
    var q := MAX_JPEG_QUALITY;
    ghost var j: nat := 0;
    while q > MIN_JPEG_QUALITY - 1
      invariant j <= LAST && q == Quality(j)
      invariant bb.data == if j == 0 then walk.before else []
      invariant forall i: nat :: i < j ==> !walk.Stops(i)
      decreases q
    {
      var failed := Encode(bb, img, q, codec);
      assert bb.data == walk.Held(j);
      assert walk.Stops(j) ==> walk.StopsFirst(j) && walk.Stop() == j;
      if failed {
        return EncodeFailed;
      }
      if limits.ideal > |bb.data| {
        return Done;
      }
      if q == MIN_JPEG_QUALITY {
        if limits.max > |bb.data| {
          return Done;
        }
        return TooLarge(limits.max, |bb.data|);
      }
      bb.data := [];
      q := q - 2;
      j := j + 1;
    }
    assert false; // the ladder always ends at the lowest quality
  }

  /** The qualities tried are exactly the even ones from 80 down to 50, in this order. */
  lemma LadderIsEvenQualities(q: int)
    ensures (exists j: nat :: j <= LAST && Quality(j) == q) <==> 50 <= q <= 80 && q % 2 == 0
    ensures forall i: nat, j: nat :: i < j ==> Quality(i) > Quality(j)
  {
    if 50 <= q <= 80 && q % 2 == 0 {
      var j := (80 - q) / 2;
      assert 0 <= j <= LAST && Quality(j) == q;
    }
  }

  /** Success means below the ideal size, or below the maximum at the lowest quality; the size error names both sizes. */
  lemma WalkMeaning(w: Walk)
    ensures w.Outcome() == Done ==> |w.After()| < w.limits.ideal || (w.Stop() == LAST && |w.After()| < w.limits.max)
    ensures w.Outcome().TooLarge? ==>
              w.Stop() == LAST && w.After() == w.At(LAST).bytes && |w.After()| >= w.limits.ideal && |w.After()| >= w.limits.max
    ensures w.Outcome().TooLarge? ==> w.Outcome() == TooLarge(w.limits.max, |w.After()|)
    ensures w.Outcome() == EncodeFailed <==> w.At(w.Stop()).failed
    ensures forall j: nat :: j < w.Stop() ==> !w.At(j).failed && |w.At(j).bytes| >= w.limits.ideal - (if j == 0 then |w.before| else 0)
  {
    forall j: nat | j < w.Stop()
      ensures !w.At(j).failed && |w.At(j).bytes| >= w.limits.ideal - (if j == 0 then |w.before| else 0)
    {
      assert !w.Stops(j);
    }
  }

  /** What was in the buffer is part of the result only when the first rung is accepted or fails. */
  lemma LeftoverMatters(w: Walk)
    requires |w.before| >= w.limits.ideal
    ensures w.Stop() == 0 ==> w.At(0).failed
    ensures w.Outcome() == Done ==> w.Stop() >= 1 && w.After() == w.At(w.Stop()).bytes
  {
  }

  /** Leftover bytes change where the walk stops exactly when the highest quality alone would have been accepted. */
  lemma LeftoverChangesExactly(w: Walk)
    requires |w.before| >= w.limits.ideal
    ensures w.Stop() != w.(before := []).Stop() <==> !w.At(0).failed && |w.At(0).bytes| < w.limits.ideal
    ensures w.Stop() == w.(before := []).Stop() ==> w.Outcome().TooLarge? == w.(before := []).Outcome().TooLarge?
  {
    var clean := w.(before := []);
    assert forall j: nat :: w.At(j) == clean.At(j) && (j > 0 ==> w.Held(j) == clean.Held(j));
    assert clean.Held(0) == w.At(0).bytes;
    assert forall j: nat :: j > 0 ==> (w.Stops(j) <==> clean.Stops(j));
    if clean.Stops(0) {
      assert clean.StopsFirst(0) && clean.Stop() == 0;
      assert w.Stops(0) ==> w.StopsFirst(0) && w.Stop() == 0;
    } else {
      assert !w.Stops(0);
      var k := w.Stop();
      assert clean.StopsFirst(k) && clean.Stop() == k;
    }
  }

  /** Such a walk: five bytes would do, and nine bytes of the lowest quality are stored. */
  lemma LeftoverCosts() returns (w: Walk)
    ensures |w.before| >= w.limits.max && |w.At(0).bytes| < w.limits.ideal
    ensures w.Outcome() == Done && w.Stop() == LAST && |w.After()| > |w.At(0).bytes|
  {
    var zero: byte := 0;
    var codec := Codec((img: Image, q: int) => Encoding(if q == MAX_JPEG_QUALITY then [zero, 0, 0, 0, 0] else [zero, 0, 0, 0, 0, 0, 0, 0, 0], false),
                       (img: Image, width: nat, height: nat) => img);
    w := Walk(codec, Image(Rect(0, 0, 1, 1), []), Limits(6, 10), [zero, 0, 0, 0, 0, 0, 0, 0, 0, 0]);
    forall j: nat | j < LAST ensures !w.Stops(j) {
      if j > 0 { assert Quality(j) != MAX_JPEG_QUALITY; }
    }
    assert w.StopsFirst(LAST);
  }

  /** With an encoder that reports no error, a walk succeeds exactly when some rung fits. */
  lemma WalkSucceedsExactly(w: Walk)
    requires forall j :: 0 <= j <= LAST ==> !w.At(j).failed
    ensures w.Outcome() == Done <==>
              (exists j :: 0 <= j <= LAST && |w.Held(j)| < w.limits.ideal) || |w.Held(LAST)| < w.limits.max
  {
    var k := w.Stop();
    if w.Outcome() == Done && !(|w.Held(LAST)| < w.limits.max) {
      assert |w.Held(k)| < w.limits.ideal;
    }
    if j :| 0 <= j <= LAST && |w.Held(j)| < w.limits.ideal {
      assert w.Stops(j);
      assert k <= j;
    }
  }

  // ---------------------------------------------------------------------------
  // The rounds
  // ---------------------------------------------------------------------------

  function Scale(codec: Codec, percent: nat, img: Image): Image {
    codec.resize(img, img.bounds.maxX * percent / 100, img.bounds.maxY * percent / 100)
  }

  function PreResize(codec: Codec, img: Image): Image {
    var b := img.bounds;
    if b.maxX > b.maxY then
      if b.maxX > LONG_SIDE_MAX then codec.resize(img, LONG_SIDE_MAX, 0) else img
    else
      if b.maxY > LONG_SIDE_MAX then codec.resize(img, 0, LONG_SIDE_MAX) else img
  }

  /** One call of CompressToFileLimits. */
  datatype Job = Job(codec: Codec, img: Image, limits: Limits, before: seq<byte>) {
    /** The walk of round n. */
    ghost function Round(n: nat): (w: Walk)
      ensures w.codec == codec && w.limits == limits
    {
      if n == 0 then Walk(codec, PreResize(codec, img), limits, before) else NextWalk(Round(n - 1))
    }

    /** The first round that does not end in a size error. */
    ghost predicate EndsAt(n: nat) {
      !Round(n).Outcome().TooLarge? && forall i: nat :: i < n ==> Round(i).Outcome().TooLarge?
    }
  }

  /** The next round works on the scaled picture, with what the last one left in the buffer. */
  ghost function NextWalk(w: Walk): Walk {
    Walk(w.codec, Scale(w.codec, 95, w.img), w.limits, w.After())
  }

  method PreCompressionResize(img: Image, codec: Codec) returns (s: Image)
    ensures s == PreResize(codec, img)
  {
    s := img;
    if s.bounds.maxX > s.bounds.maxY {
      if s.bounds.maxX > LONG_SIDE_MAX {
        s := codec.resize(s, LONG_SIDE_MAX, 0);
      }
    } else {
      if s.bounds.maxY > LONG_SIDE_MAX {
        s := codec.resize(s, 0, LONG_SIDE_MAX);
      }
    }
  }

  /** Ends whenever some round does not end in a size error; the result is that of the first such round. */
  method CompressToFileLimits(bb: Buffer, img: Image, limits: Limits, codec: Codec) returns (r: Outcome, ghost n: nat)
    requires exists k: nat :: !Job(codec, img, limits, bb.data).Round(k).Outcome().TooLarge?
    modifies bb
    ensures var job := Job(codec, img, limits, old(bb.data));
            job.EndsAt(n) && r == job.Round(n).Outcome() && bb.data == job.Round(n).After()
  {
    ghost var job := Job(codec, img, limits, bb.data);
    ghost var k: nat :| !job.Round(k).Outcome().TooLarge?;
    n := FirstEnd(job, k);
    var cur := PreCompressionResize(img, codec);
    r := CompressRounds(bb, cur, limits, codec, job, n);
  }

  /** The endless loop of CompressToFileLimits. */
  method CompressRounds(bb: Buffer, img: Image, limits: Limits, codec: Codec, ghost job: Job, ghost n: nat) returns (r: Outcome)
    requires job.EndsAt(n) && job.Round(0) == Walk(codec, img, limits, bb.data)
    modifies bb
    ensures r == job.Round(n).Outcome() && bb.data == job.Round(n).After()
  {
    var cur := img;
    ghost var i := 0;
    while true
      invariant i <= n
      invariant job.Round(i) == Walk(codec, cur, limits, bb.data)
      decreases n - i
    {
      r := EncodeToLimits(bb, cur, limits, codec);
      if !r.TooLarge? {
        return;
      }
      cur := Scale(codec, 95, cur);
      assert Walk(codec, cur, limits, bb.data) == NextWalk(job.Round(i)) == job.Round(i + 1);
      i := i + 1;
    }
  }

  // ---------------------------------------------------------------------------
  // What a compression yields
  // ---------------------------------------------------------------------------

  /**
   Starting from an empty buffer, success leaves exactly one encoding of the current picture: below the
   ideal size, or below the maximum at the lowest quality.  After a failed round the highest quality is
   never accepted, whatever its size, because of the bytes left over.
   */
  lemma CompressedIsOneEncoding(job: Job, n: nat)
    requires job.before == [] && job.EndsAt(n) && job.Round(n).Outcome() == Done
    ensures var w := job.Round(n); var j := w.Stop();
            && w.After() == job.codec.encode(w.img, Quality(j)).bytes
            && (|w.After()| < job.limits.ideal || (Quality(j) == MIN_JPEG_QUALITY && |w.After()| < job.limits.max))
            && (n > 0 ==> Quality(j) < MAX_JPEG_QUALITY)
  {
    var w := job.Round(n);
    WalkMeaning(w);
    if n > 0 {
      assert job.Round(n - 1).Outcome().TooLarge?;
      WalkMeaning(job.Round(n - 1));
      LeftoverMatters(w);
    }
  }

  /** For any buffer: with an error-free encoder, a later round ends exactly when a quality below the highest fits. */
  lemma LaterRoundEndsExactly(job: Job, n: nat)
    requires n > 0 && job.Round(n - 1).Outcome().TooLarge?
    requires forall j :: 0 <= j <= LAST ==> !job.Round(n).At(j).failed
    ensures job.Round(n).Outcome() == Done <==>
              || (exists j :: 1 <= j <= LAST && |job.Round(n).At(j).bytes| < job.limits.ideal)
              || |job.Round(n).At(LAST).bytes| < job.limits.max
  {
    var w := job.Round(n);
    WalkMeaning(job.Round(n - 1));
    assert |w.Held(0)| >= w.limits.ideal;
    assert forall j :: 1 <= j <= LAST ==> w.Held(j) == w.At(j).bytes;
    WalkSucceedsExactly(w);
  }

  /** The least pictures of a kind (a pixel, or a pixelless line) encode below the maximum at the lowest quality. */
  ghost predicate LeastFits(codec: Codec, limits: Limits, visible: bool) {
    forall img: Image :: img.bounds.Solid() && img.bounds.Least() && img.bounds.Visible() == visible ==>
      |codec.encode(img, MIN_JPEG_QUALITY).bytes| < limits.max
  }

  lemma FittingRoundEnds(w: Walk)
    requires |w.At(LAST).bytes| < w.limits.max
    ensures !w.Outcome().TooLarge?
  {
    WalkMeaning(w);
  }

  lemma ResizeBounds(codec: Codec, img: Image, width: nat, height: nat)
    requires Sized(codec) && Derivable(img.bounds, width, height)
    ensures codec.resize(img, width, height).bounds == Resized(img.bounds, width, height)
  {
  }

  lemma PreResizeBounds(codec: Codec, img: Image)
    requires Sized(codec) && img.bounds.Visible()
    ensures PreResize(codec, img).bounds == PreResized(img.bounds)
  {
    ResizeBounds(codec, img, LONG_SIDE_MAX, 0);
    ResizeBounds(codec, img, 0, LONG_SIDE_MAX);
  }

  lemma ScaleBounds(codec: Codec, img: Image)
    requires Sized(codec) && img.bounds.Solid()
    ensures Scale(codec, 95, img).bounds == Scaled(img.bounds, 95)
  {
    ResizeBounds(codec, img, img.bounds.maxX * 95 / 100, img.bounds.maxY * 95 / 100);
  }

  lemma {:induction false} RoundBounds(job: Job, n: nat)
    requires job.img.bounds.Visible() && Sized(job.codec)
    ensures job.Round(n).img.bounds == Rounds(PreResized(job.img.bounds), n)
  {
    if n == 0 {
      PreResizeBounds(job.codec, job.img);
    } else {
      RoundBounds(job, n - 1);
      ScaleBounds(job.codec, job.Round(n - 1).img);
    }
  }

  /** The compression ends whenever the least pictures of the kind the pre-resize leaves fit. */
  lemma CompressionEnds(job: Job) returns (n: nat)
    requires job.img.bounds.Visible() && Sized(job.codec) && LeastFits(job.codec, job.limits, PreResized(job.img.bounds).Visible())
    ensures !job.Round(n).Outcome().TooLarge?
  {
    var r := PreResized(job.img.bounds);
    n := ReachesLeast(r, 1, Rounds(r, 1));
    RoundBounds(job, n);
    FittingRoundEnds(job.Round(n));
  }

  /** So it ends whenever single pixels fit and the long side is at most 6666 times the short one. */
  lemma PixelsFitThenEnds(job: Job) returns (n: nat)
    requires job.img.bounds.Visible() && Sized(job.codec) && LeastFits(job.codec, job.limits, true)
    requires var b := job.img.bounds; b.Dx() <= 6666 * b.Dy() && b.Dy() <= 6666 * b.Dx()
    ensures job.EndsAt(n)
  {
    PreResizeVisible(job.img.bounds);
    n := CompressionEnds(job);
    n := FirstEnd(job, n);
  }

  lemma {:induction false} FirstEnd(job: Job, k: nat) returns (n: nat)
    requires !job.Round(k).Outcome().TooLarge?
    ensures job.EndsAt(n) && n <= k
  {
    if i: nat :| i < k && !job.Round(i).Outcome().TooLarge? {
      n := FirstEnd(job, i);
    } else {
      n := k;
    }
  }
}
