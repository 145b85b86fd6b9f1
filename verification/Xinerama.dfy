/** XineramaGetImageData: one logical screen read back from several real ones. */
module Xinerama {
  import opened Arith
  import opened Bits
  import opened Raster

  datatype Point = Point(x: int, y: int)

  datatype Box = Box(x1: int, y1: int, x2: int, y2: int)

  datatype ImageFormat = XYPixmap | ZPixmap

  /** Where a drawable's origin lies on its own screen. */
  datatype Drawable = Drawable(x: int, y: int)

  /** A real screen at (x, y) of the logical one. `shows` is what its frame buffer holds, in its own
      coordinates, for a format and plane mask; `getImage` is its driver's GetImage entry. */
  datatype Screen = Screen(x: int, y: int, width: nat, height: nat,
                           shows: (ImageFormat, bv32, int, int) -> Pixel,
                           getImage: (Drawable, int, int, nat, nat, ImageFormat, bv32) -> seq<byte>)

  predicate InBox(b: Box, p: Point) {
    b.x1 <= p.x < b.x2 && b.y1 <= p.y < b.y2
  }

  function BoxPoints(b: Box): set<Point> {
    set x, y | b.x1 <= x < b.x2 && b.y1 <= y < b.y2 :: Point(x, y)
  }

  function ScreenBox(s: Screen): Box {
    Box(s.x, s.y, s.x + s.width, s.y + s.height)
  }

  predicate Covers(s: Screen, p: Point) {
    InBox(ScreenBox(s), p)
  }

  /** The pixel a screen shows at a point of the logical screen. */
  function Shown(s: Screen, format: ImageFormat, planemask: bv32, p: Point): Pixel {
    s.shows(format, planemask, p.x - s.x, p.y - s.y)
  }

  function FormatOf(format: ImageFormat, drawFormat: PixelFormat): PixelFormat {
    if format == XYPixmap then OneBit else drawFormat
  }

  /** What a driver's GetImage promises: rows of BytePad bytes whose pixels are those of the frame buffer.
      The padding is not specified. */
  ghost predicate Faithful(s: Screen, drawFormat: PixelFormat) {
    forall d: Drawable, x: int, y: int, w: nat, h: nat, format: ImageFormat, planemask: bv32 ::
      ImageOf(s.getImage(d, x, y, w, h, format, planemask), s, FormatOf(format, drawFormat),
              d.x + x, d.y + y, w, h, format, planemask)
  }

  /** That is: column c and row r of an image of drawable d from (x, y) on are pixel (d.x + x + c, d.y + y + r). */
  lemma DriverPixel(s: Screen, drawFormat: PixelFormat, d: Drawable, x: int, y: int, w: nat, h: nat, format: ImageFormat,
                    planemask: bv32, c: nat, r: nat)
    requires Faithful(s, drawFormat) && c < w && r < h
    ensures var f := if format == XYPixmap then OneBit else drawFormat;
            var img := s.getImage(d, x, y, w, h, format, planemask);
            && Holds(|img|, BytePad(f, w), f, c, r)
            && PixelAt(img, BytePad(f, w), f, c, r) == s.shows(format, planemask, d.x + x + c, d.y + y + r)
  {
    hide PixelAt, Holds, Mul, BytePad;
    var f := FormatOf(format, drawFormat);
    var img := s.getImage(d, x, y, w, h, format, planemask);
    assert ImageOf(img, s, f, d.x + x, d.y + y, w, h, format, planemask);
    PadCovers(f, w);
    HoldsPixels(f, w, h, BytePad(f, w), |img|, c, r);
  }

  ghost predicate ImageOf(img: seq<byte>, s: Screen, f: PixelFormat, x: int, y: int, w: nat, h: nat,
                          format: ImageFormat, planemask: bv32) {
    && |img| == Mul(BytePad(f, w), h)
    && forall c: nat, r: nat :: c < w && r < h && Holds(|img|, BytePad(f, w), f, c, r) ==>
         PixelAt(img, BytePad(f, w), f, c, r) == s.shows(format, planemask, x + c, y + r)
  }

  /** Screens agree wherever they overlap. */
  ghost predicate Agree(screens: seq<Screen>, format: ImageFormat, planemask: bv32) {
    forall i, j, p :: 0 <= i < |screens| && 0 <= j < |screens| && Covers(screens[i], p) && Covers(screens[j], p) ==>
      Shown(screens[i], format, planemask, p) == Shown(screens[j], format, planemask, p)
  }

  /** RegionRects: some list of disjoint non-empty boxes that cover exactly the region. */
  ghost predicate Partition(boxes: seq<Box>, region: set<Point>) {
    && (forall i :: 0 <= i < |boxes| ==> boxes[i].x1 < boxes[i].x2 && boxes[i].y1 < boxes[i].y2)
    && (forall i, j, p :: 0 <= i < j < |boxes| ==> !(InBox(boxes[i], p) && InBox(boxes[j], p)))
    && (forall i, p :: 0 <= i < |boxes| && InBox(boxes[i], p) ==> p in region)
    && (forall p :: p in region ==> InSome(boxes, |boxes|, p))
  }

  ghost predicate InSome(boxes: seq<Box>, n: nat, p: Point)
    requires n <= |boxes|
  {
    exists i :: 0 <= i < n && InBox(boxes[i], p)
  }

  datatype InOut = RgnOut | RgnIn | RgnPart

  /** RegionContainsRect for a region of one rectangle. */
  function ContainsRect(region: Box, rect: Box): (r: InOut)
    ensures r == RgnOut ==> forall p :: !(InBox(region, p) && InBox(rect, p))
    ensures r == RgnIn ==> forall p :: InBox(rect, p) ==> InBox(region, p)
  {
    if region.x2 <= rect.x1 || rect.x2 <= region.x1 || region.y2 <= rect.y1 || rect.y2 <= region.y1 then RgnOut
    else if region.x1 <= rect.x1 && rect.x2 <= region.x2 && region.y1 <= rect.y1 && rect.y2 <= region.y2 then RgnIn
    else RgnPart
  }

  /** For boxes with points in them the answer is exact. */
  lemma ContainsExactly(region: Box, rect: Box)
    requires region.x1 < region.x2 && region.y1 < region.y2 && rect.x1 < rect.x2 && rect.y1 < rect.y2
    ensures ContainsRect(region, rect) == RgnOut <==> forall p :: !(InBox(region, p) && InBox(rect, p))
    ensures ContainsRect(region, rect) == RgnIn <==> forall p :: InBox(rect, p) ==> InBox(region, p)
  {
    var first, last := Point(rect.x1, rect.y1), Point(rect.x2 - 1, rect.y2 - 1);
    assert InBox(rect, first) && InBox(rect, last);
    var common := Point(if region.x1 < rect.x1 then rect.x1 else region.x1, if region.y1 < rect.y1 then rect.y1 else region.y1);
    if ContainsRect(region, rect) != RgnOut {
      assert InBox(region, common) && InBox(rect, common);
    }
    if forall p :: InBox(rect, p) ==> InBox(region, p) {
      assert InBox(region, first) && InBox(region, last);
    }
  }

  // ----- image state -----

  /** Image pixel (c, r) as a point of the logical screen. */
  function At(ox: int, oy: int, c: nat, r: nat): Point {
    Point(ox + c, oy + r)
  }

  predicate InImage(size: nat, pitch: nat, f: PixelFormat, width: nat, height: nat, c: nat, r: nat) {
    c < width && r < height && Holds(size, pitch, f, c, r)
  }

  /** Points of `region` show the screen's pixels; all other image pixels are as they were. */
  ghost predicate Grabbed(was: seq<byte>, now: seq<byte>, pitch: nat, f: PixelFormat, width: nat, height: nat,
                          ox: int, oy: int, region: set<Point>, s: Screen, format: ImageFormat, planemask: bv32) {
    && |now| == |was|
    && forall c: nat, r: nat :: InImage(|now|, pitch, f, width, height, c, r) ==>
         PixelAt(now, pitch, f, c, r) ==
         if At(ox, oy, c, r) in region then Shown(s, format, planemask, At(ox, oy, c, r))
         else PixelAt(was, pitch, f, c, r)
  }

  ghost predicate CoveredBy(screens: seq<Screen>, k: nat, p: Point)
    requires k <= |screens|
  {
    exists i :: 0 <= i < k && Covers(screens[i], p)
  }

  /** The specification: each image pixel on one of the first k screens is that screen's pixel (for every
      such screen), and each other pixel is untouched. */
  ghost predicate Assembled(screens: seq<Screen>, k: nat, format: ImageFormat, planemask: bv32,
                            was: seq<byte>, now: seq<byte>, pitch: nat, f: PixelFormat,
                            width: nat, height: nat, ox: int, oy: int)
    requires k <= |screens|
  {
    && |now| == |was|
    && forall c: nat, r: nat :: InImage(|now|, pitch, f, width, height, c, r) ==>
         AssembledPixel(screens, k, format, planemask, PixelAt(was, pitch, f, c, r), PixelAt(now, pitch, f, c, r),
                        At(ox, oy, c, r))
  }

  ghost predicate AssembledPixel(screens: seq<Screen>, k: nat, format: ImageFormat, planemask: bv32,
                                 was: Pixel, now: Pixel, p: Point)
    requires k <= |screens|
  {
    && (forall i :: 0 <= i < k && Covers(screens[i], p) ==> now == Shown(screens[i], format, planemask, p))
    && (!CoveredBy(screens, k, p) ==> now == was)
  }

  // ----- the code -----

  /** A driver writing its image at the start of a buffer. */
  method StoreImage(buf: array<byte>, img: seq<byte>)
    requires |img| <= buf.Length
    modifies buf
    ensures buf[..] == img + old(buf[|img|..])
  {
    forall i | 0 <= i < |img| {
      buf[i] := img[i];
    }
  }

  lemma PrefixPixel(s: seq<byte>, t: seq<byte>, pitch: nat, f: PixelFormat, c: nat, r: nat)
    requires Holds(|s|, pitch, f, c, r)
    ensures Holds(|s + t|, pitch, f, c, r) && PixelAt(s + t, pitch, f, c, r) == PixelAt(s, pitch, f, c, r)
  {
    hide Bit;
    match f
    case OneBit =>
      assert (s + t)[(8 * Mul(pitch, r) + c) / 8] == s[(8 * Mul(pitch, r) + c) / 8];
    case WholeBytes(n) =>
  }

  /** Copying a box of a screen's image gives that screen's pixels there. */
  lemma BoxGrabbed(was: seq<byte>, now: seq<byte>, pitch: nat, f: PixelFormat, width: nat, height: nat,
                   ox: int, oy: int, box: Box, img: seq<byte>, rest: seq<byte>, s: Screen,
                   format: ImageFormat, planemask: bv32)
    requires ox <= box.x1 < box.x2 && oy <= box.y1 < box.y2
    requires var w, h := box.x2 - box.x1, box.y2 - box.y1;
             && ImageOf(img, s, f, box.x1 - s.x, box.y1 - s.y, w, h, format, planemask)
             && RowBytes(f, w) <= BytePad(f, w) && Mul(BytePad(f, w), h) <= |img + rest|
             && BoxCopied(was, now, pitch, f, box.x1 - ox, box.y1 - oy, img + rest, BytePad(f, w), w, h)
    ensures Grabbed(was, now, pitch, f, width, height, ox, oy, BoxPoints(box), s, format, planemask)
  {
    hide PixelAt, Holds;
    var w, h := box.x2 - box.x1, box.y2 - box.y1;
    var x, y, spitch := box.x1 - ox, box.y1 - oy, BytePad(f, w);
    forall c: nat, r: nat | InImage(|now|, pitch, f, width, height, c, r)
      ensures PixelAt(now, pitch, f, c, r) ==
              if At(ox, oy, c, r) in BoxPoints(box) then Shown(s, format, planemask, At(ox, oy, c, r))
              else PixelAt(was, pitch, f, c, r)
    {
      if InRange(c, x, w) && InRange(r, y, h) {
        HoldsPixels(f, w, h, spitch, |img|, c - x, r - y);
        PrefixPixel(img, rest, spitch, f, c - x, r - y);
      }
    }
  }

  /** One pass of the `while (nbox--)` loop: read the box into scratch memory, then copy it into place. */
  method GrabBox(scratchMem: array<byte>, s: Screen, draw: Drawable, box: Box, ox: int, oy: int,
                 width: nat, height: nat, format: ImageFormat, planemask: bv32, f: PixelFormat,
                 ghost drawFormat: PixelFormat, data: array<byte>, pitch: nat)
    returns (scratch: array<byte>)
    requires data != scratchMem && Faithful(s, drawFormat) && f == FormatOf(format, drawFormat)
    requires ox <= box.x1 < box.x2 <= ox + width && oy <= box.y1 < box.y2 <= oy + height
    requires pitch == BytePad(f, width) && Mul(pitch, height) <= data.Length
    requires ClearBox(data[..], pitch, f, box.x1 - ox, box.y1 - oy, box.x2 - box.x1, box.y2 - box.y1)
    modifies data, scratchMem
    ensures scratch != data && (scratch == scratchMem || fresh(scratch))
    ensures Grabbed(old(data[..]), data[..], pitch, f, width, height, ox, oy, BoxPoints(box), s, format, planemask)
  {
    hide PixelAt, Holds, Grabbed, BoxCopied, ClearBox, BoxPoints;
    ghost var was := data[..];
    var w, h := box.x2 - box.x1, box.y2 - box.y1;
    var scratchPitch := BytePad(f, w);
    var sizeNeeded := Mul(scratchPitch, h);
    scratch := scratchMem;
    if sizeNeeded > scratch.Length {
      scratch := new byte[sizeNeeded];
    }
    var img := s.getImage(draw, box.x1 - draw.x - s.x, box.y1 - draw.y - s.y, w, h, format, planemask);
    assert ImageOf(img, s, f, box.x1 - s.x, box.y1 - s.y, w, h, format, planemask);
    ghost var rest := scratch[sizeNeeded..];
    StoreImage(scratch, img);
    var x, y := box.x1 - ox, box.y1 - oy;
    PadCovers(f, w);
    PadCovers(f, width);
    MulMonotone(pitch, y + h, height);
    match f {
      case OneBit =>
        CopyBitBox(data, pitch, x, y, scratch, scratchPitch, w, h);
      case WholeBytes(n) =>
        MulMonotone(n, x + w, width);
        CopyByteBox(data, pitch, n, x, y, scratch, scratchPitch, w, h);
    }
    BoxGrabbed(was, data[..], pitch, f, width, height, ox, oy, box, img, rest, s, format, planemask);
  }

  /** Boxes [0, n) of a partition, as points. */
  ghost predicate GrabbedBoxes(was: seq<byte>, now: seq<byte>, pitch: nat, f: PixelFormat, width: nat, height: nat,
                               ox: int, oy: int, boxes: seq<Box>, n: nat, s: Screen,
                               format: ImageFormat, planemask: bv32)
    requires n <= |boxes|
  {
    && |now| == |was|
    && forall c: nat, r: nat :: InImage(|now|, pitch, f, width, height, c, r) ==>
         PixelAt(now, pitch, f, c, r) ==
         if InSome(boxes, n, At(ox, oy, c, r)) then Shown(s, format, planemask, At(ox, oy, c, r))
         else PixelAt(was, pitch, f, c, r)
  }

  lemma OneMoreBox(was: seq<byte>, before: seq<byte>, now: seq<byte>, pitch: nat, f: PixelFormat,
                   width: nat, height: nat, ox: int, oy: int, boxes: seq<Box>, n: nat, s: Screen,
                   format: ImageFormat, planemask: bv32)
    requires n < |boxes|
    requires GrabbedBoxes(was, before, pitch, f, width, height, ox, oy, boxes, n, s, format, planemask)
    requires Grabbed(before, now, pitch, f, width, height, ox, oy, BoxPoints(boxes[n]), s, format, planemask)
    ensures GrabbedBoxes(was, now, pitch, f, width, height, ox, oy, boxes, n + 1, s, format, planemask)
  {
    hide PixelAt, Holds;
    forall c: nat, r: nat | InImage(|now|, pitch, f, width, height, c, r)
      ensures PixelAt(now, pitch, f, c, r) ==
              if InSome(boxes, n + 1, At(ox, oy, c, r)) then Shown(s, format, planemask, At(ox, oy, c, r))
              else PixelAt(was, pitch, f, c, r)
    {
      var p := At(ox, oy, c, r);
      assert InSome(boxes, n + 1, p) <==> InSome(boxes, n, p) || InBox(boxes[n], p);
      assert p in BoxPoints(boxes[n]) <==> InBox(boxes[n], p);
    }
  }

  /** Every 1 bpp image pixel of the region is still clear. */
  ghost predicate ClearPoints(s: seq<byte>, pitch: nat, f: PixelFormat, width: nat, height: nat,
                              ox: int, oy: int, region: set<Point>) {
    f.OneBit? ==> forall c: nat, r: nat :: InImage(|s|, pitch, f, width, height, c, r) && At(ox, oy, c, r) in region ==>
                    PixelAt(s, pitch, f, c, r) == BitPixel(false)
  }

  lemma NextBoxClear(was: seq<byte>, now: seq<byte>, pitch: nat, f: PixelFormat, width: nat, height: nat,
                     ox: int, oy: int, region: set<Point>, boxes: seq<Box>, n: nat, s: Screen,
                     format: ImageFormat, planemask: bv32)
    requires n < |boxes| && Partition(boxes, region)
    requires ClearPoints(was, pitch, f, width, height, ox, oy, region)
    requires GrabbedBoxes(was, now, pitch, f, width, height, ox, oy, boxes, n, s, format, planemask)
    requires ox <= boxes[n].x1 < boxes[n].x2 <= ox + width && oy <= boxes[n].y1 < boxes[n].y2 <= oy + height
    ensures ClearBox(now, pitch, f, boxes[n].x1 - ox, boxes[n].y1 - oy,
                     boxes[n].x2 - boxes[n].x1, boxes[n].y2 - boxes[n].y1)
  {
    hide PixelAt, Holds;
    var b := boxes[n];
    if f.OneBit? {
      forall c: nat, r: nat | Holds(|now|, pitch, f, c, r) && InRange(c, b.x1 - ox, b.x2 - b.x1) && InRange(r, b.y1 - oy, b.y2 - b.y1)
        ensures PixelAt(now, pitch, f, c, r) == BitPixel(false)
      {
        var p := At(ox, oy, c, r);
        assert InBox(b, p);
        assert InImage(|now|, pitch, f, width, height, c, r);
        assert !InSome(boxes, n, p);
      }
    }
  }

  /** The boxes of a region inside the source box lie inside it. */
  lemma BoxInside(boxes: seq<Box>, region: set<Point>, n: nat, ox: int, oy: int, width: nat, height: nat)
    requires n < |boxes| && Partition(boxes, region)
    requires forall p :: p in region ==> InBox(Box(ox, oy, ox + width, oy + height), p)
    ensures ox <= boxes[n].x1 < boxes[n].x2 <= ox + width && oy <= boxes[n].y1 < boxes[n].y2 <= oy + height
  {
    var b := boxes[n];
    assert InBox(b, Point(b.x1, b.y1)) && Point(b.x1, b.y1) in region;
    assert InBox(b, Point(b.x2 - 1, b.y2 - 1)) && Point(b.x2 - 1, b.y2 - 1) in region;
  }

  lemma AllBoxes(was: seq<byte>, now: seq<byte>, pitch: nat, f: PixelFormat, width: nat, height: nat,
                 ox: int, oy: int, region: set<Point>, boxes: seq<Box>, s: Screen,
                 format: ImageFormat, planemask: bv32)
    requires Partition(boxes, region)
    requires GrabbedBoxes(was, now, pitch, f, width, height, ox, oy, boxes, |boxes|, s, format, planemask)
    ensures Grabbed(was, now, pitch, f, width, height, ox, oy, region, s, format, planemask)
  {
    hide PixelAt, Holds;
    forall c: nat, r: nat | InImage(|now|, pitch, f, width, height, c, r)
      ensures PixelAt(now, pitch, f, c, r) ==
              if At(ox, oy, c, r) in region then Shown(s, format, planemask, At(ox, oy, c, r))
              else PixelAt(was, pitch, f, c, r)
    {
      assert InSome(boxes, |boxes|, At(ox, oy, c, r)) <==> At(ox, oy, c, r) in region;
    }
  }

  /** The boxes of GrabRegion, one after another. */
  method GrabScreen(scratchMem: array<byte>, s: Screen, draw: Drawable, region: set<Point>, boxes: seq<Box>,
                    ox: int, oy: int, width: nat, height: nat, format: ImageFormat, planemask: bv32, f: PixelFormat,
                    ghost drawFormat: PixelFormat, data: array<byte>, pitch: nat)
    returns (scratch: array<byte>)
    requires data != scratchMem && Faithful(s, drawFormat) && f == FormatOf(format, drawFormat)
    requires Partition(boxes, region)
    requires forall p :: p in region ==> InBox(Box(ox, oy, ox + width, oy + height), p)
    requires pitch == BytePad(f, width) && Mul(pitch, height) <= data.Length
    requires ClearPoints(data[..], pitch, f, width, height, ox, oy, region)
    modifies data, scratchMem
    ensures scratch != data && (scratch == scratchMem || fresh(scratch))
    ensures Grabbed(old(data[..]), data[..], pitch, f, width, height, ox, oy, region, s, format, planemask)
  {
    hide PixelAt, Holds, Grabbed, ClearBox, ClearPoints, BoxPoints, Partition, Faithful;
    ghost var was := data[..];
    scratch := scratchMem;
    var n := 0;
    while n < |boxes|
      invariant 0 <= n <= |boxes|
      invariant scratch != data && (scratch == scratchMem || fresh(scratch))
      invariant GrabbedBoxes(was, data[..], pitch, f, width, height, ox, oy, boxes, n, s, format, planemask)
    {
      ghost var before := data[..];
      BoxInside(boxes, region, n, ox, oy, width, height);
      NextBoxClear(was, before, pitch, f, width, height, ox, oy, region, boxes, n, s, format, planemask);
      scratch := GrabBox(scratch, s, draw, boxes[n], ox, oy, width, height, format, planemask, f, drawFormat, data, pitch);
      OneMoreBox(was, before, data[..], pitch, f, width, height, ox, oy, boxes, n, s, format, planemask);
      n := n + 1;
    }
    AllBoxes(was, data[..], pitch, f, width, height, ox, oy, region, boxes, s, format, planemask);
  }

  /** SrcRegion once the first k screens have been dealt with. */
  ghost predicate Remaining(src: set<Point>, box: Box, screens: seq<Screen>, k: nat)
    requires k <= |screens|
  {
    forall p :: p in src <==> InBox(box, p) && !CoveredBy(screens, k, p)
  }

  lemma RemainingClear(screens: seq<Screen>, k: nat, format: ImageFormat, planemask: bv32,
                       was: seq<byte>, now: seq<byte>, pitch: nat, f: PixelFormat, width: nat, height: nat,
                       ox: int, oy: int, src: set<Point>, grab: set<Point>)
    requires k <= |screens| && grab <= src
    requires Remaining(src, Box(ox, oy, ox + width, oy + height), screens, k)
    requires ClearBox(was, pitch, f, 0, 0, width, height)
    requires Assembled(screens, k, format, planemask, was, now, pitch, f, width, height, ox, oy)
    ensures ClearPoints(now, pitch, f, width, height, ox, oy, grab)
  {
    hide PixelAt, Holds;
    if f.OneBit? {
      forall c: nat, r: nat | InImage(|now|, pitch, f, width, height, c, r) && At(ox, oy, c, r) in grab
        ensures PixelAt(now, pitch, f, c, r) == BitPixel(false)
      {
        assert AssembledPixel(screens, k, format, planemask, PixelAt(was, pitch, f, c, r), PixelAt(now, pitch, f, c, r),
                              At(ox, oy, c, r));
        assert InRange(c, 0, width) && InRange(r, 0, height);
      }
    }
  }

  lemma ScreenAdded(screens: seq<Screen>, k: nat, format: ImageFormat, planemask: bv32,
                    was: seq<byte>, before: seq<byte>, now: seq<byte>, pitch: nat, f: PixelFormat,
                    width: nat, height: nat, ox: int, oy: int, src: set<Point>, grab: set<Point>)
    requires k < |screens| && Agree(screens, format, planemask)
    requires Remaining(src, Box(ox, oy, ox + width, oy + height), screens, k)
    requires forall p :: p in grab <==> p in src && Covers(screens[k], p)
    requires Assembled(screens, k, format, planemask, was, before, pitch, f, width, height, ox, oy)
    requires Grabbed(before, now, pitch, f, width, height, ox, oy, grab, screens[k], format, planemask)
    ensures Assembled(screens, k + 1, format, planemask, was, now, pitch, f, width, height, ox, oy)
    ensures Remaining(src - grab, Box(ox, oy, ox + width, oy + height), screens, k + 1)
  {
    hide PixelAt, Holds;
    forall p ensures CoveredBy(screens, k + 1, p) <==> CoveredBy(screens, k, p) || Covers(screens[k], p) {}
    forall c: nat, r: nat | InImage(|now|, pitch, f, width, height, c, r)
      ensures AssembledPixel(screens, k + 1, format, planemask, PixelAt(was, pitch, f, c, r), PixelAt(now, pitch, f, c, r),
                             At(ox, oy, c, r))
    {
      var p := At(ox, oy, c, r);
      assert AssembledPixel(screens, k, format, planemask, PixelAt(was, pitch, f, c, r), PixelAt(before, pitch, f, c, r), p);
      assert InBox(Box(ox, oy, ox + width, oy + height), p);
      forall i | 0 <= i < k + 1 && Covers(screens[i], p)
        ensures PixelAt(now, pitch, f, c, r) == Shown(screens[i], format, planemask, p)
      {
        if p in grab {
          assert Shown(screens[i], format, planemask, p) == Shown(screens[k], format, planemask, p);
        } else if i == k {
          var m :| 0 <= m < k && Covers(screens[m], p);
          assert Shown(screens[m], format, planemask, p) == Shown(screens[k], format, planemask, p);
        }
      }
    }
  }

  /** A screen that misses the source box changes nothing. */
  lemma ScreenMissed(screens: seq<Screen>, k: nat, format: ImageFormat, planemask: bv32,
                     was: seq<byte>, now: seq<byte>, pitch: nat, f: PixelFormat,
                     width: nat, height: nat, ox: int, oy: int, src: set<Point>)
    requires k < |screens|
    requires forall p :: !(Covers(screens[k], p) && InBox(Box(ox, oy, ox + width, oy + height), p))
    requires Remaining(src, Box(ox, oy, ox + width, oy + height), screens, k)
    requires Assembled(screens, k, format, planemask, was, now, pitch, f, width, height, ox, oy)
    ensures Assembled(screens, k + 1, format, planemask, was, now, pitch, f, width, height, ox, oy)
    ensures Remaining(src, Box(ox, oy, ox + width, oy + height), screens, k + 1)
  {
    hide PixelAt, Holds;
    forall p ensures CoveredBy(screens, k + 1, p) <==> CoveredBy(screens, k, p) || Covers(screens[k], p) {}
    forall c: nat, r: nat | InImage(|now|, pitch, f, width, height, c, r)
      ensures AssembledPixel(screens, k + 1, format, planemask, PixelAt(was, pitch, f, c, r), PixelAt(now, pitch, f, c, r),
                             At(ox, oy, c, r))
    {
      var p := At(ox, oy, c, r);
      assert AssembledPixel(screens, k, format, planemask, PixelAt(was, pitch, f, c, r), PixelAt(now, pitch, f, c, r), p);
      assert InBox(Box(ox, oy, ox + width, oy + height), p);
    }
  }

  /** Reading the whole source box from one screen that contains it finishes the image. */
  lemma ScreenContains(screens: seq<Screen>, k: nat, format: ImageFormat, planemask: bv32,
                       was: seq<byte>, img: seq<byte>, rest: seq<byte>, pitch: nat, f: PixelFormat,
                       width: nat, height: nat, ox: int, oy: int)
    requires k < |screens| && Agree(screens, format, planemask) && |img + rest| == |was|
    requires pitch == BytePad(f, width)
    requires forall p :: InBox(Box(ox, oy, ox + width, oy + height), p) ==> Covers(screens[k], p)
    requires ImageOf(img, screens[k], f, ox - screens[k].x, oy - screens[k].y, width, height, format, planemask)
    ensures Assembled(screens, |screens|, format, planemask, was, img + rest, pitch, f, width, height, ox, oy)
  {
    hide PixelAt, Holds;
    forall c: nat, r: nat | InImage(|was|, pitch, f, width, height, c, r)
      ensures AssembledPixel(screens, |screens|, format, planemask, PixelAt(was, pitch, f, c, r),
                             PixelAt(img + rest, pitch, f, c, r), At(ox, oy, c, r))
    {
      PadCovers(f, width);
      HoldsPixels(f, width, height, pitch, |img|, c, r);
      PrefixPixel(img, rest, pitch, f, c, r);
      assert InBox(Box(ox, oy, ox + width, oy + height), At(ox, oy, c, r));
    }
  }

  /** Once nothing of the source box remains, later screens cannot matter. */
  lemma NothingRemains(screens: seq<Screen>, k: nat, format: ImageFormat, planemask: bv32,
                       was: seq<byte>, now: seq<byte>, pitch: nat, f: PixelFormat,
                       width: nat, height: nat, ox: int, oy: int)
    requires k <= |screens| && Agree(screens, format, planemask)
    requires Remaining({}, Box(ox, oy, ox + width, oy + height), screens, k)
    requires Assembled(screens, k, format, planemask, was, now, pitch, f, width, height, ox, oy)
    ensures Assembled(screens, |screens|, format, planemask, was, now, pitch, f, width, height, ox, oy)
  {
    hide PixelAt, Holds;
    forall c: nat, r: nat | InImage(|now|, pitch, f, width, height, c, r)
      ensures AssembledPixel(screens, |screens|, format, planemask, PixelAt(was, pitch, f, c, r), PixelAt(now, pitch, f, c, r),
                             At(ox, oy, c, r))
    {
      var p := At(ox, oy, c, r);
      assert AssembledPixel(screens, k, format, planemask, PixelAt(was, pitch, f, c, r), PixelAt(now, pitch, f, c, r), p);
      assert InBox(Box(ox, oy, ox + width, oy + height), p) && p !in {};
      var m :| 0 <= m < k && Covers(screens[m], p);
    }
  }

  /** The pieces of an image spread over several screens, put together in `data`. `rects` stands for the unseen
      region code: it may cut a region into any list of disjoint boxes. */
  method XineramaGetImageData(screens: seq<Screen>, drawables: seq<Drawable>, left: int, top: int,
                              width: nat, height: nat, format: ImageFormat, planemask: bv32,
                              drawFormat: PixelFormat, data: array<byte>, pitch: nat, isRoot: bool,
                              rects: set<Point> -> seq<Box>)
    requires 0 < |screens| == |drawables|
    requires forall i :: 0 <= i < |screens| ==> Faithful(screens[i], drawFormat)
    requires Agree(screens, format, planemask)
    requires forall region :: Partition(rects(region), region)
    requires pitch == BytePad(FormatOf(format, drawFormat), width) && Mul(pitch, height) <= data.Length
    requires ClearBox(data[..], pitch, FormatOf(format, drawFormat), 0, 0, width, height)
    modifies data
    ensures var o := Origin(screens[0], drawables[0], left, top, isRoot);
            Assembled(screens, |screens|, format, planemask, old(data[..]), data[..], pitch,
                      FormatOf(format, drawFormat), width, height, o.x, o.y)
    ensures !isRoot ==> forall i, c: nat, r: nat ::
      && 0 <= i < |screens| && c < width && r < height
      && 0 <= drawables[0].x + left + c + screens[0].x - screens[i].x < screens[i].width
      && 0 <= drawables[0].y + top + r + screens[0].y - screens[i].y < screens[i].height ==>
           && Holds(data.Length, pitch, FormatOf(format, drawFormat), c, r)
           && PixelAt(data[..], pitch, FormatOf(format, drawFormat), c, r)
              == screens[i].shows(format, planemask, drawables[0].x + left + c + screens[0].x - screens[i].x,
                                  drawables[0].y + top + r + screens[0].y - screens[i].y)
    ensures isRoot ==> forall i, c: nat, r: nat ::
      && 0 <= i < |screens| && c < width && r < height
      && 0 <= left + c - screens[i].x < screens[i].width && 0 <= top + r - screens[i].y < screens[i].height ==>
           && Holds(data.Length, pitch, FormatOf(format, drawFormat), c, r)
           && PixelAt(data[..], pitch, FormatOf(format, drawFormat), c, r)
              == screens[i].shows(format, planemask, left + c - screens[i].x, top + r - screens[i].y)
  {
    hide PixelAt, Holds, Grabbed, ClearBox, ClearPoints, Partition, Assembled, Remaining, Agree;
    ghost var was := data[..];
    var x1, y1 := left, top;
    if !isRoot {
      x1 := x1 + drawables[0].x + screens[0].x;
      y1 := y1 + drawables[0].y + screens[0].y;
    }
    var srcBox := Box(x1, y1, x1 + width, y1 + height);
    var srcRegion := BoxPoints(srcBox);
    var f := FormatOf(format, drawFormat);
    var scratchMem := new byte[0];
    NothingYet(screens, format, planemask, was, pitch, f, width, height, x1, y1);
    var i := 0;
    while i < |screens|
      invariant 0 <= i <= |screens|
      invariant fresh(scratchMem)
      invariant Remaining(srcRegion, srcBox, screens, i)
      invariant Assembled(screens, i, format, planemask, was, data[..], pitch, f, width, height, x1, y1)
    {
      var pDraw, pScreen := drawables[i], screens[i];
      var theBox := Box(pScreen.x, pScreen.y, pScreen.x + pScreen.width, pScreen.y + pScreen.height);
      var inOut := ContainsRect(theBox, srcBox);
      if inOut == RgnIn {
        var img := pScreen.getImage(pDraw, x1 - pDraw.x - pScreen.x, y1 - pDraw.y - pScreen.y,
                                    width, height, format, planemask);
        assert ImageOf(img, pScreen, f, x1 - pScreen.x, y1 - pScreen.y, width, height, format, planemask);
        ghost var rest := data[|img|..];
        StoreImage(data, img);
        ScreenContains(screens, i, format, planemask, was, img, rest, pitch, f, width, height, x1, y1);
        break;
      } else if inOut == RgnOut {
        ScreenMissed(screens, i, format, planemask, was, data[..], pitch, f, width, height, x1, y1, srcRegion);
      } else {
        ghost var before := data[..];
        var grabRegion := srcRegion * BoxPoints(theBox);
        assert forall p :: p in grabRegion <==> p in srcRegion && Covers(screens[i], p);
        RemainingClear(screens, i, format, planemask, was, before, pitch, f, width, height, x1, y1, srcRegion, grabRegion);
        RegionInside(screens, i, srcRegion, srcBox);
        scratchMem := GrabScreen(scratchMem, pScreen, pDraw, grabRegion, rects(grabRegion), x1, y1, width, height,
                                 format, planemask, f, drawFormat, data, pitch);
        ScreenAdded(screens, i, format, planemask, was, before, data[..], pitch, f, width, height, x1, y1,
                    srcRegion, grabRegion);
        srcRegion := srcRegion - grabRegion;
        if srcRegion == {} {
          NothingRemains(screens, i + 1, format, planemask, was, data[..], pitch, f, width, height, x1, y1);
          break;
        }
      }
      i := i + 1;
    }
    ScreenPixels(screens, drawables, left, top, isRoot, format, planemask, drawFormat, was, data[..], pitch, width, height);
  }

  /** What an assembled image shows, in the screens' own coordinates: a window's pixels lie at the position that its
      drawable on the first screen gives, and the pixels of the root window at its own coordinates. */
  lemma ScreenPixels(screens: seq<Screen>, drawables: seq<Drawable>, left: int, top: int, isRoot: bool,
                     format: ImageFormat, planemask: bv32, drawFormat: PixelFormat, was: seq<byte>, now: seq<byte>,
                     pitch: nat, width: nat, height: nat)
    requires 0 < |screens| == |drawables|
    requires pitch == BytePad(FormatOf(format, drawFormat), width) && Mul(pitch, height) <= |now|
    requires var o := Origin(screens[0], drawables[0], left, top, isRoot);
             Assembled(screens, |screens|, format, planemask, was, now, pitch, FormatOf(format, drawFormat), width, height,
                       o.x, o.y)
    ensures !isRoot ==> forall i, c: nat, r: nat ::
      && 0 <= i < |screens| && c < width && r < height
      && 0 <= drawables[0].x + left + c + screens[0].x - screens[i].x < screens[i].width
      && 0 <= drawables[0].y + top + r + screens[0].y - screens[i].y < screens[i].height ==>
           && Holds(|now|, pitch, FormatOf(format, drawFormat), c, r)
           && PixelAt(now, pitch, FormatOf(format, drawFormat), c, r)
              == screens[i].shows(format, planemask, drawables[0].x + left + c + screens[0].x - screens[i].x,
                                  drawables[0].y + top + r + screens[0].y - screens[i].y)
    ensures isRoot ==> forall i, c: nat, r: nat ::
      && 0 <= i < |screens| && c < width && r < height
      && 0 <= left + c - screens[i].x < screens[i].width && 0 <= top + r - screens[i].y < screens[i].height ==>
           && Holds(|now|, pitch, FormatOf(format, drawFormat), c, r)
           && PixelAt(now, pitch, FormatOf(format, drawFormat), c, r)
              == screens[i].shows(format, planemask, left + c - screens[i].x, top + r - screens[i].y)
  {
    hide PixelAt, Holds, Mul, BytePad;
    var f, o := FormatOf(format, drawFormat), Origin(screens[0], drawables[0], left, top, isRoot);
    PadCovers(f, width);
    forall i, c: nat, r: nat | 0 <= i < |screens| && c < width && r < height && Covers(screens[i], At(o.x, o.y, c, r))
      ensures Holds(|now|, pitch, f, c, r)
      ensures PixelAt(now, pitch, f, c, r) == Shown(screens[i], format, planemask, At(o.x, o.y, c, r))
    {
      HoldsPixels(f, width, height, pitch, |now|, c, r);
      assert InImage(|now|, pitch, f, width, height, c, r);
      assert AssembledPixel(screens, |screens|, format, planemask, PixelAt(was, pitch, f, c, r), PixelAt(now, pitch, f, c, r),
                            At(o.x, o.y, c, r));
    }
    if isRoot {
      forall i, c: nat, r: nat | 0 <= i < |screens| && c < width && r < height
        ensures 0 <= left + c - screens[i].x < screens[i].width && 0 <= top + r - screens[i].y < screens[i].height <==>
                Covers(screens[i], At(o.x, o.y, c, r))
      {}
    } else {
      forall i, c: nat, r: nat | 0 <= i < |screens| && c < width && r < height
        ensures && 0 <= drawables[0].x + left + c + screens[0].x - screens[i].x < screens[i].width
                && 0 <= drawables[0].y + top + r + screens[0].y - screens[i].y < screens[i].height <==>
                Covers(screens[i], At(o.x, o.y, c, r))
      {}
    }
  }

  /** The source box's corner on the logical screen. */
  function Origin(screen0: Screen, draw0: Drawable, left: int, top: int, isRoot: bool): Point {
    if isRoot then Point(left, top) else Point(left + draw0.x + screen0.x, top + draw0.y + screen0.y)
  }

  lemma NothingYet(screens: seq<Screen>, format: ImageFormat, planemask: bv32, was: seq<byte>, pitch: nat,
                   f: PixelFormat, width: nat, height: nat, ox: int, oy: int)
    ensures Assembled(screens, 0, format, planemask, was, was, pitch, f, width, height, ox, oy)
    ensures Remaining(BoxPoints(Box(ox, oy, ox + width, oy + height)), Box(ox, oy, ox + width, oy + height), screens, 0) {}

  lemma RegionInside(screens: seq<Screen>, k: nat, src: set<Point>, box: Box)
    requires k <= |screens| && Remaining(src, box, screens, k)
    ensures forall p :: p in src ==> InBox(box, p)
  {}
}
