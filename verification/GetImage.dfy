/** PanoramiXGetImage: a large image sent in strips that fit a fixed buffer, plane by plane for XYPixmap. */
module GetImage {
  import opened Arith
  import opened Bits
  import opened CTypes
  import Hakmem
  import opened Raster
  import opened Xinerama
  import opened Masks

  const XINERAMA_IMAGE_BUFSIZE: nat := 256 * 1024

  /** HandedOn: the request is for a pixmap, and goes to the handler of one screen. */
  datatype Status = Success | BadValue | BadMatch | BadAlloc | LookupError(code: int) | HandedOn

  /** The window that is read. */
  datatype Window = Window(realized: bool, width: nat, height: nat, border: nat)

  /** What the lookups of a request come to: the errors (0 for none) of the resource, of the window, and of its
      counterparts on the other screens; and whether the resource is a pixmap. */
  datatype Lookups = Lookups(resource: int, isPixmap: bool, window: int, others: int)

  /** A box of the big screen, from o on. */
  predicate Onscreen(o: Point, w: nat, h: nat, pixWidth: nat, pixHeight: nat) {
    0 <= o.x && o.x + w <= pixWidth && 0 <= o.y && o.y + h <= pixHeight
  }

  predicate InsideBorder(win: Window, x: int, y: int, w: nat, h: nat) {
    0 <= x + win.border && x + w <= win.border + win.width && 0 <= y + win.border && y + h <= win.border + win.height
  }

  /** The checks of PanoramiXGetImage, in its order; o is where the box lies on the big screen. */
  function GetImageChecks(format: Option<ImageFormat>, found: Lookups, win: Window, o: Point, x: int, y: int,
                          w: nat, h: nat, isRoot: bool, pixWidth: nat, pixHeight: nat): Status {
    if format == None then BadValue
    else if found.resource != 0 then LookupError(found.resource)
    else if found.isPixmap then HandedOn
    else if found.window != 0 then LookupError(found.window)
    else if !win.realized then BadMatch
    else if !Onscreen(o, w, h, pixWidth, pixHeight) then BadMatch
    else if !isRoot && !InsideBorder(win, x, y, w, h) then BadMatch
    else if found.others != 0 then LookupError(found.others)
    else Success
  }

  /** Which requests pass, and which get a BadMatch: an unrealized window, and a box that leaves the big screen or the
      window with its border. */
  lemma CheckOutcomes(format: Option<ImageFormat>, found: Lookups, win: Window, screen0: Screen, pDraw: Drawable,
                      x: int, y: int, w: nat, h: nat, isRoot: bool, pixWidth: nat, pixHeight: nat)
    ensures var o := Origin(screen0, pDraw, x, y, isRoot);
            var left, top := if isRoot then x else x + pDraw.x + screen0.x, if isRoot then y else y + pDraw.y + screen0.y;
            var fits := && 0 <= left && left + w <= pixWidth && 0 <= top && top + h <= pixHeight
                        && (isRoot || (&& x + win.border >= 0 && x + w <= win.width + win.border
                                       && y + win.border >= 0 && y + h <= win.height + win.border));
            var status := GetImageChecks(format, found, win, o, x, y, w, h, isRoot, pixWidth, pixHeight);
            var isWindow := format.Some? && found.resource == 0 && !found.isPixmap && found.window == 0;
            && (status == Success <==> isWindow && win.realized && fits && found.others == 0)
            && (status == BadMatch <==> isWindow && (!win.realized || !fits))
            && (status == BadValue <==> format.None?)
            && (status == HandedOn <==> format.Some? && found.resource == 0 && found.isPixmap)
            && status != BadAlloc
  {}

  /** The bytes that follow the reply: one image, or one for each requested plane. */
  function ImageLength(format: ImageFormat, drawFormat: PixelFormat, w: nat, h: nat, planemask: bv32, topPlane: bv32): nat {
    if format == ZPixmap then Mul(BytePad(drawFormat, w), h)
    else Mul(Mul(BytePad(OneBit, w), h), Ones(Within(planemask, topPlane)))
  }

  /** bytes_to_int32: the argument is an int, and it is shifted down as one. */
  function BytesToInt32(bytes: int): int {
    (bytes + 3) / 4
  }

  /** The reply's length field, in units of four bytes: a long that is passed as an int and stored as a CARD32. */
  function ReplyLength(length: nat): nat {
    Card32(BytesToInt32(Int32(length)))
  }

  /** Lengths for which the reply announces what follows it: those below 2^31, and the last ones below 2^34. */
  predicate Announced(length: nat) {
    length < 0x8000_0000 || 0x3_8000_0000 <= length < 0x4_0000_0000
  }

  /** The field holds the low 30 bits of the number of units, with the highest of them repeated above. */
  lemma ReplyUnits(length: nat)
    requires length % 4 == 0
    ensures var units := length / 4 % 0x4000_0000;
            ReplyLength(length) == units + if units < 0x2000_0000 then 0 else 0xC000_0000
    ensures 4 * ReplyLength(length) == length <==> Announced(length)
  {
    var m := length / 4;
    var q, units := m / 0x4000_0000, m % 0x4000_0000;
    assert length == q * 0x1_0000_0000 + 4 * units;
    LowInt(q, 4 * units);
    var k := if units < 0x2000_0000 then units else units - 0x4000_0000;
    assert Int32(length) == 4 * k && BytesToInt32(4 * k) == k;
  }

  lemma LowInt(q: nat, low: nat)
    requires low < 0x1_0000_0000
    ensures Int32(q * 0x1_0000_0000 + low) == if low < 0x8000_0000 then low else low - 0x1_0000_0000
  {
    var v := q * 0x1_0000_0000 + low + 0x8000_0000;
    assert v == (if low < 0x8000_0000 then q else q + 1) * 0x1_0000_0000
                + if low < 0x8000_0000 then low + 0x8000_0000 else low - 0x8000_0000;
  }

  /** Images of up to 32767 pixels a side, with at most four bytes a pixel or 32 planes, are announced rightly exactly
      if they are shorter than 2^31 bytes. */
  lemma AnnouncedBelow(format: ImageFormat, drawFormat: PixelFormat, w: nat, h: nat, planemask: bv32, topPlane: bv32)
    requires w <= 32767 && h <= 32767 && (drawFormat.WholeBytes? ==> drawFormat.n <= 4)
    ensures var length := ImageLength(format, drawFormat, w, h, planemask, topPlane);
            4 * ReplyLength(length) == length <==> length < 0x8000_0000
  {
    hide Mul, BytePad, Ones, Within, ReplyLength;
    var length := ImageLength(format, drawFormat, w, h, planemask, topPlane);
    LengthInUnits(format, drawFormat, w, h, planemask, topPlane);
    ReplyUnits(length);
    LengthBound(format, drawFormat, w, h, planemask, topPlane);
  }

  lemma LengthBound(format: ImageFormat, drawFormat: PixelFormat, w: nat, h: nat, planemask: bv32, topPlane: bv32)
    requires w <= 32767 && h <= 32767 && (drawFormat.WholeBytes? ==> drawFormat.n <= 4)
    ensures ImageLength(format, drawFormat, w, h, planemask, topPlane) <= 0x1_0000_0000
  {
    hide Mul, Ones, Within;
    if format == ZPixmap {
      LineBound(drawFormat, w);
      MulBelow(BytePad(drawFormat, w), 131068, h, 32767);
    } else {
      var n := Ones(Within(planemask, topPlane));
      Hakmem.OnesAtMost(Within(planemask, topPlane));
      assert BytePad(OneBit, w) <= 4096;
      MulBelow(BytePad(OneBit, w), 4096, h, 32767);
      MulBelow(Mul(BytePad(OneBit, w), h), 134213632, n, 32);
    }
  }

  lemma LineBound(f: PixelFormat, w: nat)
    requires w <= 32767 && (f.WholeBytes? ==> f.n <= 4)
    ensures BytePad(f, w) <= 131068
  {
    if f.WholeBytes? {
      MulBelow(f.n, 4, w, 32767);
    }
  }

  lemma MulBelow(a: nat, b: nat, m: nat, n: nat)
    requires a <= b && m <= n
    ensures Mul(a, m) <= b * n
  {
    MulIsProduct(a, m);
    assert a * m <= b * m <= b * n;
  }

  /** A read of 32767 x 16385 pixels of four bytes: 2147549180 bytes follow a reply that announces 15032451068. */
  lemma ReplyTooLong(planemask: bv32, topPlane: bv32)
    ensures ImageLength(ZPixmap, WholeBytes(4), 32767, 16384, planemask, topPlane) == 2147418112
    ensures 4 * ReplyLength(2147418112) == 2147418112
    ensures ImageLength(ZPixmap, WholeBytes(4), 32767, 16385, planemask, topPlane) == 2147549180
    ensures 4 * ReplyLength(2147549180) == 15032451068
  {
    MulIsProduct(4, 32767);
    MulIsProduct(131068, 16384);
    MulIsProduct(131068, 16385);
  }

  /** A whole image of one plane or of whole pixels: every pixel on some screen is that screen's pixel, and a
      1 bpp pixel on no screen is clear. */
  ghost predicate ImageShows(img: seq<byte>, screens: seq<Screen>, format: ImageFormat, planemask: bv32,
                             f: PixelFormat, width: nat, height: nat, o: Point) {
    && |img| == Mul(BytePad(f, width), height)
    && forall c: nat, r: nat :: InImage(|img|, BytePad(f, width), f, width, height, c, r) ==>
         PixelShows(screens, format, planemask, PixelAt(img, BytePad(f, width), f, c, r), f, At(o.x, o.y, c, r))
  }

  ghost predicate PixelShows(screens: seq<Screen>, format: ImageFormat, planemask: bv32, pixel: Pixel,
                             f: PixelFormat, p: Point) {
    && (forall i :: 0 <= i < |screens| && Covers(screens[i], p) ==> pixel == Shown(screens[i], format, planemask, p))
    && (f.OneBit? && !CoveredBy(screens, |screens|, p) ==> pixel == BitPixel(false))
  }

  /** What a whole image shows, in the screens' own coordinates: of a window, and of the root window. */
  lemma WindowRead(img: seq<byte>, screens: seq<Screen>, drawables: seq<Drawable>, x: int, y: int, isRoot: bool,
                   format: ImageFormat, planemask: bv32, f: PixelFormat, w: nat, h: nat)
    requires 0 < |screens| == |drawables|
    requires ImageShows(img, screens, format, planemask, f, w, h, Origin(screens[0], drawables[0], x, y, isRoot))
    ensures !isRoot ==> forall i, c: nat, r: nat ::
      && 0 <= i < |screens| && c < w && r < h
      && 0 <= drawables[0].x + x + c + screens[0].x - screens[i].x < screens[i].width
      && 0 <= drawables[0].y + y + r + screens[0].y - screens[i].y < screens[i].height ==>
           && Holds(|img|, BytePad(f, w), f, c, r)
           && PixelAt(img, BytePad(f, w), f, c, r)
              == screens[i].shows(format, planemask, drawables[0].x + x + c + screens[0].x - screens[i].x,
                                  drawables[0].y + y + r + screens[0].y - screens[i].y)
    ensures isRoot ==> forall i, c: nat, r: nat ::
      && 0 <= i < |screens| && c < w && r < h
      && 0 <= x + c - screens[i].x < screens[i].width && 0 <= y + r - screens[i].y < screens[i].height ==>
           && Holds(|img|, BytePad(f, w), f, c, r)
           && PixelAt(img, BytePad(f, w), f, c, r) == screens[i].shows(format, planemask, x + c - screens[i].x, y + r - screens[i].y)
  {
    hide PixelAt, Holds, Mul, BytePad;
    var o := Origin(screens[0], drawables[0], x, y, isRoot);
    var pitch := BytePad(f, w);
    PadCovers(f, w);
    forall i, c: nat, r: nat | 0 <= i < |screens| && c < w && r < h && Covers(screens[i], At(o.x, o.y, c, r))
      ensures Holds(|img|, pitch, f, c, r)
      ensures PixelAt(img, pitch, f, c, r) == Shown(screens[i], format, planemask, At(o.x, o.y, c, r))
    {
      HoldsPixels(f, w, h, pitch, |img|, c, r);
      assert InImage(|img|, pitch, f, w, h, c, r);
      assert PixelShows(screens, format, planemask, PixelAt(img, pitch, f, c, r), f, At(o.x, o.y, c, r));
    }
    forall i, c: nat, r: nat | 0 <= i < |screens| && c < w && r < h
      ensures isRoot ==> (0 <= x + c - screens[i].x < screens[i].width && 0 <= y + r - screens[i].y < screens[i].height <==>
                          Covers(screens[i], At(o.x, o.y, c, r)))
      ensures !isRoot ==> (&& 0 <= drawables[0].x + x + c + screens[0].x - screens[i].x < screens[i].width
                           && 0 <= drawables[0].y + y + r + screens[0].y - screens[i].y < screens[i].height <==>
                           Covers(screens[i], At(o.x, o.y, c, r)))
    {}
  }

  /** Whole pixels on no screen: in the first `lines` rows they are what the strip buffer's memory held, and further
      down they repeat the pixel one strip above. */
  ghost predicate Repeats(img: seq<byte>, memory: seq<byte>, screens: seq<Screen>, f: PixelFormat,
                          width: nat, height: nat, lines: nat, o: Point) {
    forall c: nat, r: nat :: InImage(|img|, BytePad(f, width), f, width, height, c, r) ==>
      RepeatedPixel(img, memory, screens, f, BytePad(f, width), lines, o, c, r)
  }

  ghost predicate RepeatedPixel(img: seq<byte>, memory: seq<byte>, screens: seq<Screen>, f: PixelFormat, pitch: nat,
                                lines: nat, o: Point, c: nat, r: nat)
    requires Holds(|img|, pitch, f, c, r)
  {
    OnScreen(screens, o, c, r) ||
    if r < lines then
      Holds(|memory|, pitch, f, c, r) && PixelAt(img, pitch, f, c, r) == PixelAt(memory, pitch, f, c, r)
    else
      Holds(|img|, pitch, f, c, r - lines) && PixelAt(img, pitch, f, c, r) == PixelAt(img, pitch, f, c, r - lines)
  }

  /** The row of the first strip that lies whole strips above row r. */
  function TopRow(r: nat, lines: nat): nat
    requires lines > 0
  {
    if r < lines then r else TopRow(r - lines, lines)
  }

  /** The pixel, or one some number of strips above it, is on a screen. */
  ghost predicate Fixed(screens: seq<Screen>, o: Point, lines: nat, c: nat, r: nat)
    requires lines > 0
    decreases r
  {
    OnScreen(screens, o, c, r) || (r >= lines && Fixed(screens, o, lines, c, r - lines))
  }

  /** Which pixels of an image do not depend on the memory: two images of one read differ exactly in those that are
      not fixed by a screen and for which the memories differ. */
  lemma {:induction false} FixedPixel(a: seq<byte>, memA: seq<byte>, b: seq<byte>, memB: seq<byte>, screens: seq<Screen>,
                                      format: ImageFormat, planemask: bv32, f: PixelFormat, width: nat, height: nat,
                                      lines: nat, o: Point, c: nat, r: nat)
    requires ImageShows(a, screens, format, planemask, f, width, height, o) && Repeats(a, memA, screens, f, width, height, lines, o)
    requires ImageShows(b, screens, format, planemask, f, width, height, o) && Repeats(b, memB, screens, f, width, height, lines, o)
    requires lines > 0 && c < width && r < height
    ensures var pitch := BytePad(f, width);
            && Holds(|a|, pitch, f, c, r) && Holds(|b|, pitch, f, c, r)
            && (Fixed(screens, o, lines, c, r) ==> PixelAt(a, pitch, f, c, r) == PixelAt(b, pitch, f, c, r))
            && (!Fixed(screens, o, lines, c, r) ==>
                 && Holds(|memA|, pitch, f, c, TopRow(r, lines)) && Holds(|memB|, pitch, f, c, TopRow(r, lines))
                 && PixelAt(a, pitch, f, c, r) == PixelAt(memA, pitch, f, c, TopRow(r, lines))
                 && PixelAt(b, pitch, f, c, r) == PixelAt(memB, pitch, f, c, TopRow(r, lines)))
    decreases r
  {
    hide PixelAt, Holds, Mul;
    var pitch := BytePad(f, width);
    PadCovers(f, width);
    HoldsPixels(f, width, height, pitch, |a|, c, r);
    assert InImage(|a|, pitch, f, width, height, c, r);
    if !CoveredBy(screens, |screens|, At(o.x, o.y, c, r)) {
      assert RepeatedPixel(a, memA, screens, f, pitch, lines, o, c, r);
      assert RepeatedPixel(b, memB, screens, f, pitch, lines, o, c, r);
      if r >= lines {
        FixedPixel(a, memA, b, memB, screens, format, planemask, f, width, height, lines, o, c, r - lines);
      }
    }
  }

  ghost predicate AllFixed(screens: seq<Screen>, o: Point, width: nat, height: nat, lines: nat)
    requires lines > 0
  {
    forall c: nat, r: nat :: c < width && r < height ==> Fixed(screens, o, lines, c, r)
  }

  ghost predicate AllCovered(screens: seq<Screen>, o: Point, width: nat, rows: nat) {
    forall c: nat, r: nat :: c < width && r < rows ==> OnScreen(screens, o, c, r)
  }

  ghost predicate OnScreen(screens: seq<Screen>, o: Point, c: nat, r: nat) {
    CoveredBy(screens, |screens|, At(o.x, o.y, c, r))
  }

  /** No pixel depends on the memory exactly if the whole first strip is on the screens. */
  lemma AllFixedIff(screens: seq<Screen>, o: Point, width: nat, height: nat, lines: nat)
    requires 0 < lines <= height
    ensures AllFixed(screens, o, width, height, lines) <==> AllCovered(screens, o, width, lines)
  {
    hide OnScreen;
    if AllCovered(screens, o, width, lines) {
      forall c: nat, r: nat | c < width && r < height ensures Fixed(screens, o, lines, c, r) {
        TopIsFirst(r, lines);
        TopFixes(screens, o, lines, c, r);
      }
    }
    if AllFixed(screens, o, width, height, lines) {
      forall c: nat, r: nat | c < width && r < lines ensures OnScreen(screens, o, c, r) {
        assert Fixed(screens, o, lines, c, r);
      }
    }
  }

  lemma {:induction false} TopFixes(screens: seq<Screen>, o: Point, lines: nat, c: nat, r: nat)
    requires lines > 0
    requires OnScreen(screens, o, c, TopRow(r, lines))
    ensures Fixed(screens, o, lines, c, r)
    decreases r
  {
    if r >= lines {
      TopFixes(screens, o, lines, c, r - lines);
    }
  }

  lemma {:induction false} TopIsFirst(r: nat, lines: nat)
    requires lines > 0
    ensures TopRow(r, lines) < lines
    decreases r
  {
    if r >= lines {
      TopIsFirst(r - lines, lines);
    }
  }

  /** Block k of the stream is the image of the k-th plane taken. */
  ghost predicate PlanesShown(stream: seq<byte>, size: nat, planes: seq<bv32>, screens: seq<Screen>,
                              width: nat, height: nat, o: Point) {
    && |stream| == Mul(size, |planes|)
    && forall k: nat :: k < |planes| ==> BlockShows(stream, size, k, planes[k], screens, width, height, o)
  }

  ghost predicate BlockShows(stream: seq<byte>, size: nat, k: nat, plane: bv32, screens: seq<Screen>,
                             width: nat, height: nat, o: Point) {
    && Mul(size, k) + size <= |stream|
    && ImageShows(stream[Mul(size, k)..Mul(size, k) + size], screens, XYPixmap, plane, OneBit, width, height, o)
  }

  /** A buffer of zero bytes has no pixel bit set. */
  lemma ZeroIsClear(buf: seq<byte>, n: nat, pitch: nat, width: nat, height: nat)
    requires n <= |buf| && Mul(pitch, height) <= n && RowBytes(OneBit, width) <= pitch
    requires forall i :: 0 <= i < n ==> buf[i] == 0
    ensures ClearBox(buf, pitch, OneBit, 0, 0, width, height)
  {
    forall c: nat, r: nat | Holds(|buf|, pitch, OneBit, c, r) && InRange(c, 0, width) && InRange(r, 0, height)
      ensures PixelAt(buf, pitch, OneBit, c, r) == BitPixel(false)
    {
      HoldsPixels(OneBit, width, height, pitch, n, c, r);
      ZeroBit(buf[(8 * Mul(pitch, r) + c) / 8], (8 * Mul(pitch, r) + c) % 8);
    }
  }

  lemma ZeroBit(b: byte, i: nat)
    requires b == 0 && i < 8
    ensures !Bit(b, i)
  {}

  /** memset(buf, 0, n) */
  method Clear(buf: array<byte>, n: nat)
    requires n <= buf.Length
    modifies buf
    ensures forall i :: 0 <= i < n ==> buf[i] == 0
  {
    forall i | 0 <= i < n {
      buf[i] := 0;
    }
  }

  /** An assembled strip, joined below the strips already sent, extends the image. */
  lemma StripJoins(done: seq<byte>, was: seq<byte>, buf: seq<byte>, screens: seq<Screen>, format: ImageFormat,
                   planemask: bv32, f: PixelFormat, width: nat, linesDone: nat, nlines: nat, o: Point)
    requires var pitch := BytePad(f, width);
             && ImageShows(done, screens, format, planemask, f, width, linesDone, o)
             && Mul(pitch, nlines) <= |buf|
             && ClearBox(was, pitch, f, 0, 0, width, nlines)
             && Assembled(screens, |screens|, format, planemask, was, buf, pitch, f, width, nlines, o.x, o.y + linesDone)
    ensures ImageShows(done + buf[..Mul(BytePad(f, width), nlines)], screens, format, planemask, f, width,
                       linesDone + nlines, o)
  {
    hide PixelAt, Holds, Mul;
    var pitch := BytePad(f, width);
    var strip := buf[..Mul(pitch, nlines)];
    var img := done + strip;
    MulAdd(pitch, linesDone, nlines);
    PadCovers(f, width);
    forall c: nat, r: nat | InImage(|img|, pitch, f, width, linesDone + nlines, c, r)
      ensures PixelShows(screens, format, planemask, PixelAt(img, pitch, f, c, r), f, At(o.x, o.y, c, r))
    {
      if r < linesDone {
        HoldsPixels(f, width, linesDone, pitch, |done|, c, r);
        PrefixPixel(done, strip, pitch, f, c, r);
        assert InImage(|done|, pitch, f, width, linesDone, c, r);
      } else {
        StripPixel(done, was, buf, screens, format, planemask, f, width, linesDone, nlines, o, c, r - linesDone);
      }
    }
  }

  /** A pixel of the newest strip. */
  lemma StripPixel(done: seq<byte>, was: seq<byte>, buf: seq<byte>, screens: seq<Screen>, format: ImageFormat,
                   planemask: bv32, f: PixelFormat, width: nat, linesDone: nat, nlines: nat, o: Point, c: nat, q: nat)
    requires var pitch := BytePad(f, width);
             && |done| == Mul(pitch, linesDone)
             && Mul(pitch, nlines) <= |buf| && c < width && q < nlines
             && ClearBox(was, pitch, f, 0, 0, width, nlines)
             && Assembled(screens, |screens|, format, planemask, was, buf, pitch, f, width, nlines, o.x, o.y + linesDone)
    ensures var pitch := BytePad(f, width);
            var img := done + buf[..Mul(pitch, nlines)];
            && Holds(|img|, pitch, f, c, linesDone + q)
            && PixelShows(screens, format, planemask, PixelAt(img, pitch, f, c, linesDone + q), f,
                          At(o.x, o.y, c, linesDone + q))
  {
    hide PixelAt, Holds, Mul;
    var pitch := BytePad(f, width);
    var strip := buf[..Mul(pitch, nlines)];
    PadCovers(f, width);
    HoldsPixels(f, width, nlines, pitch, |strip|, c, q);
    HoldsPixels(f, width, nlines, pitch, |buf|, c, q);
    PrefixPixel(strip, buf[Mul(pitch, nlines)..], pitch, f, c, q);
    assert strip + buf[Mul(pitch, nlines)..] == buf;
    SuffixPixel(done, strip, pitch, f, linesDone, c, q);
    assert InImage(|buf|, pitch, f, width, nlines, c, q);
    assert AssembledPixel(screens, |screens|, format, planemask, PixelAt(was, pitch, f, c, q), PixelAt(buf, pitch, f, c, q),
                          At(o.x, o.y + linesDone, c, q));
    assert At(o.x, o.y + linesDone, c, q) == At(o.x, o.y, c, linesDone + q);
    if f.OneBit? {
      assert InRange(c, 0, width) && InRange(q, 0, nlines);
    }
  }

  /** What the strip buffer holds between strips: at first its memory, and then the last strip sent. */
  ghost predicate LastStrip(buf: seq<byte>, memory: seq<byte>, done: seq<byte>, pitch: nat, lines: nat, linesDone: nat) {
    if linesDone == 0 then buf == memory
    else
      && lines <= linesDone && Mul(pitch, lines) <= |buf| && |done| == Mul(pitch, linesDone)
      && |done| == Mul(pitch, linesDone - lines) + Mul(pitch, lines)
      && buf[..Mul(pitch, lines)] == done[Mul(pitch, linesDone - lines)..]
  }

  lemma NextStrip(buf: seq<byte>, memory: seq<byte>, done: seq<byte>, pitch: nat, lines: nat, linesDone: nat)
    requires |done| == Mul(pitch, linesDone) && 0 < lines && Mul(pitch, lines) <= |buf|
    ensures LastStrip(buf, memory, done + buf[..Mul(pitch, lines)], pitch, lines, linesDone + lines)
  {
    hide Mul;
    MulAdd(pitch, linesDone, lines);
  }

  /** An assembled strip, joined below the strips already sent, repeats what no screen covers. */
  lemma StripRepeats(done: seq<byte>, memory: seq<byte>, was: seq<byte>, buf: seq<byte>, screens: seq<Screen>,
                     format: ImageFormat, planemask: bv32, f: PixelFormat, width: nat, linesDone: nat, nlines: nat,
                     lines: nat, o: Point)
    requires var pitch := BytePad(f, width);
             && Repeats(done, memory, screens, f, width, linesDone, lines, o) && |done| == Mul(pitch, linesDone)
             && nlines <= lines && Mul(pitch, lines) <= |buf| && Mul(pitch, nlines) <= |buf|
             && LastStrip(was, memory, done, pitch, lines, linesDone)
             && Assembled(screens, |screens|, format, planemask, was, buf, pitch, f, width, nlines, o.x, o.y + linesDone)
    ensures Repeats(done + buf[..Mul(BytePad(f, width), nlines)], memory, screens, f, width, linesDone + nlines, lines, o)
  {
    hide PixelAt, Holds, Mul, Assembled, CoveredBy, LastStrip;
    var pitch := BytePad(f, width);
    var strip := buf[..Mul(pitch, nlines)];
    var img := done + strip;
    PadCovers(f, width);
    forall c: nat, r: nat | InImage(|img|, pitch, f, width, linesDone + nlines, c, r)
      ensures RepeatedPixel(img, memory, screens, f, pitch, lines, o, c, r)
    {
      if r < linesDone {
        HoldsPixels(f, width, linesDone, pitch, |done|, c, r);
        assert InImage(|done|, pitch, f, width, linesDone, c, r);
        assert RepeatedPixel(done, memory, screens, f, pitch, lines, o, c, r);
        PrefixPixel(done, strip, pitch, f, c, r);
        if r >= lines {
          HoldsPixels(f, width, linesDone, pitch, |done|, c, r - lines);
          PrefixPixel(done, strip, pitch, f, c, r - lines);
        }
      } else {
        StripRepeat(done, memory, was, buf, screens, format, planemask, f, width, linesDone, nlines, lines, o, c, r - linesDone);
      }
    }
  }

  lemma StripRepeat(done: seq<byte>, memory: seq<byte>, was: seq<byte>, buf: seq<byte>, screens: seq<Screen>,
                    format: ImageFormat, planemask: bv32, f: PixelFormat, width: nat, linesDone: nat, nlines: nat,
                    lines: nat, o: Point, c: nat, q: nat)
    requires var pitch := BytePad(f, width);
             && |done| == Mul(pitch, linesDone) && c < width && q < nlines
             && nlines <= lines && Mul(pitch, lines) <= |buf| && Mul(pitch, nlines) <= |buf|
             && LastStrip(was, memory, done, pitch, lines, linesDone)
             && Assembled(screens, |screens|, format, planemask, was, buf, pitch, f, width, nlines, o.x, o.y + linesDone)
    ensures var img := done + buf[..Mul(BytePad(f, width), nlines)];
            Holds(|img|, BytePad(f, width), f, c, linesDone + q)
            && RepeatedPixel(img, memory, screens, f, BytePad(f, width), lines, o, c, linesDone + q)
  {
    hide PixelAt, Holds, Mul, CoveredBy;
    var pitch := BytePad(f, width);
    var strip := buf[..Mul(pitch, nlines)];
    PadCovers(f, width);
    HoldsPixels(f, width, nlines, pitch, |strip|, c, q);
    HoldsPixels(f, width, nlines, pitch, |buf|, c, q);
    PrefixPixel(strip, buf[Mul(pitch, nlines)..], pitch, f, c, q);
    assert strip + buf[Mul(pitch, nlines)..] == buf;
    SuffixPixel(done, strip, pitch, f, linesDone, c, q);
    assert InImage(|buf|, pitch, f, width, nlines, c, q);
    assert AssembledPixel(screens, |screens|, format, planemask, PixelAt(was, pitch, f, c, q), PixelAt(buf, pitch, f, c, q),
                          At(o.x, o.y + linesDone, c, q));
    assert At(o.x, o.y + linesDone, c, q) == At(o.x, o.y, c, linesDone + q);
    if linesDone > 0 {
      PixelAbove(done, was, strip, pitch, f, width, lines, linesDone, c, q);
    }
  }

  /** In a buffer that holds the last strip sent, a pixel is the one a strip above. */
  lemma PixelAbove(done: seq<byte>, was: seq<byte>, strip: seq<byte>, pitch: nat, f: PixelFormat, width: nat, lines: nat,
                   linesDone: nat, c: nat, q: nat)
    requires RowBytes(f, width) <= pitch && c < width && q < lines <= linesDone && Mul(pitch, lines) <= |was|
    requires |done| == Mul(pitch, linesDone) == Mul(pitch, linesDone - lines) + Mul(pitch, lines)
    requires was[..Mul(pitch, lines)] == done[Mul(pitch, linesDone - lines)..]
    ensures Holds(|was|, pitch, f, c, q) && Holds(|done + strip|, pitch, f, c, linesDone + q - lines)
    ensures PixelAt(was, pitch, f, c, q) == PixelAt(done + strip, pitch, f, c, linesDone + q - lines)
  {
    hide PixelAt, Holds, Mul;
    var top, last := done[..Mul(pitch, linesDone - lines)], was[..Mul(pitch, lines)];
    HoldsPixels(f, width, lines, pitch, |last|, c, q);
    PrefixPixel(last, was[Mul(pitch, lines)..], pitch, f, c, q);
    assert last + was[Mul(pitch, lines)..] == was;
    SuffixPixel(top, last, pitch, f, linesDone - lines, c, q);
    assert top + last == done;
    PrefixPixel(done, strip, pitch, f, c, linesDone - lines + q);
  }

  /** The strip loop: lines of one plane (or of whole pixels), at most linesPerBuf at a time. */
  method SendStrips(screens: seq<Screen>, drawables: seq<Drawable>, x: int, y: int, w: nat, h: nat,
                    format: ImageFormat, planemask: bv32, drawFormat: PixelFormat, isRoot: bool,
                    rects: set<Point> -> seq<Box>, pBuf: array<byte>, linesPerBuf: nat)
    returns (out: seq<byte>)
    requires 0 < |screens| == |drawables|
    requires forall i :: 0 <= i < |screens| ==> Faithful(screens[i], drawFormat)
    requires Agree(screens, format, planemask)
    requires forall region :: Partition(rects(region), region)
    requires 0 < linesPerBuf && Mul(BytePad(FormatOf(format, drawFormat), w), linesPerBuf) <= pBuf.Length
    modifies pBuf
    ensures ImageShows(out, screens, format, planemask, FormatOf(format, drawFormat), w, h,
                       Origin(screens[0], drawables[0], x, y, isRoot))
    ensures FormatOf(format, drawFormat).WholeBytes? ==>
              Repeats(out, old(pBuf[..]), screens, FormatOf(format, drawFormat), w, h, linesPerBuf,
                      Origin(screens[0], drawables[0], x, y, isRoot))
  {
    hide Mul, PixelAt, Holds, InImage, Assembled, Partition, Faithful, Agree, ClearBox, ImageShows, Repeats, LastStrip;
    var f := FormatOf(format, drawFormat);
    var widthBytesLine := BytePad(f, w);
    ghost var o := Origin(screens[0], drawables[0], x, y, isRoot);
    out := [];
    ghost var memory := pBuf[..];
    NoRows(screens, format, planemask, f, w, linesPerBuf, memory, o);
    var linesDone := 0;
    while h - linesDone > 0
      invariant 0 <= linesDone <= h
      invariant ImageShows(out, screens, format, planemask, f, w, linesDone, o)
      invariant f.WholeBytes? ==> Repeats(out, memory, screens, f, w, linesDone, linesPerBuf, o)
      invariant f.WholeBytes? && linesDone < h ==> LastStrip(pBuf[..], memory, out, widthBytesLine, linesPerBuf, linesDone)
    {
      var nlines := if linesPerBuf < h - linesDone then linesPerBuf else h - linesDone;
      MulMonotone(widthBytesLine, nlines, linesPerBuf);
      if f == OneBit {
        Clear(pBuf, Mul(widthBytesLine, nlines));
        PadCovers(f, w);
        ZeroIsClear(pBuf[..], Mul(widthBytesLine, nlines), widthBytesLine, w, nlines);
      }
      ghost var was := pBuf[..];
      assert ClearBox(was, widthBytesLine, f, 0, 0, w, nlines) by { BytesAreClear(was, widthBytesLine, f, w, nlines); }
      XineramaGetImageData(screens, drawables, x, y + linesDone, w, nlines, format, planemask, drawFormat,
                           pBuf, widthBytesLine, isRoot, rects);
      StripJoins(out, was, pBuf[..], screens, format, planemask, f, w, linesDone, nlines, o);
      ImageSize(out, screens, format, planemask, f, w, linesDone, o);
      if f.WholeBytes? {
        StripRepeats(out, memory, was, pBuf[..], screens, format, planemask, f, w, linesDone, nlines, linesPerBuf, o);
        NextStrip(pBuf[..], memory, out, widthBytesLine, linesPerBuf, linesDone);
      }
      out := out + pBuf[..Mul(widthBytesLine, nlines)];
      linesDone := linesDone + nlines;
    }
  }

  lemma BytesAreClear(s: seq<byte>, pitch: nat, f: PixelFormat, w: nat, h: nat)
    requires f.OneBit? ==> ClearBox(s, pitch, f, 0, 0, w, h)
    ensures ClearBox(s, pitch, f, 0, 0, w, h)
  {}

  lemma NoRows(screens: seq<Screen>, format: ImageFormat, planemask: bv32, f: PixelFormat, w: nat, lines: nat,
               memory: seq<byte>, o: Point)
    ensures ImageShows([], screens, format, planemask, f, w, 0, o) && Repeats([], memory, screens, f, w, 0, lines, o)
    ensures LastStrip(memory, memory, [], BytePad(f, w), lines, 0)
  {}

  /** The k-th block of a stream one block longer is the old one, or the new block. */
  lemma BlockJoins(stream: seq<byte>, block: seq<byte>, size: nat, planes: seq<bv32>, plane: bv32,
                   screens: seq<Screen>, w: nat, h: nat, o: Point)
    requires PlanesShown(stream, size, planes, screens, w, h, o) && |block| == size
    requires ImageShows(block, screens, XYPixmap, plane, OneBit, w, h, o)
    ensures PlanesShown(stream + block, size, planes + [plane], screens, w, h, o)
  {
    hide ImageShows;
    var all, ps := stream + block, planes + [plane];
    assert |all| == Mul(size, |ps|);
    forall k: nat | k < |ps|
      ensures BlockShows(all, size, k, ps[k], screens, w, h, o)
    {
      if k < |planes| {
        MulApart(size, k, |planes|);
        assert BlockShows(stream, size, k, planes[k], screens, w, h, o);
        assert all[Mul(size, k)..Mul(size, k) + size] == stream[Mul(size, k)..Mul(size, k) + size];
      } else {
        assert all[Mul(size, k)..Mul(size, k) + size] == block;
      }
    }
  }

  /** How many lines go into one strip: as many as fit the buffer size, at least one, at most all. */
  method LinesPerBuf(widthBytesLine: nat, h: nat) returns (linesPerBuf: nat)
    ensures linesPerBuf == 0 <==> widthBytesLine == 0 || h == 0
    ensures linesPerBuf <= h
    ensures linesPerBuf > 1 ==> Mul(widthBytesLine, linesPerBuf) <= 262144
    ensures 0 < linesPerBuf < h ==> Mul(widthBytesLine, linesPerBuf + 1) > 262144
  {
    if widthBytesLine == 0 || h == 0 {
      linesPerBuf := 0;
    } else if widthBytesLine >= XINERAMA_IMAGE_BUFSIZE {
      linesPerBuf := 1;
      MulMonotone(widthBytesLine, 1, 2);
    } else {
      linesPerBuf := XINERAMA_IMAGE_BUFSIZE / widthBytesLine;
      DivBounds(XINERAMA_IMAGE_BUFSIZE, widthBytesLine);
      if linesPerBuf > h {
        linesPerBuf := h;
        MulMonotone(widthBytesLine, h, XINERAMA_IMAGE_BUFSIZE / widthBytesLine);
      }
    }
  }

  lemma DivBounds(n: nat, d: nat)
    requires 0 < d <= n
    ensures 0 < n / d && Mul(d, n / d) <= n < Mul(d, n / d + 1)
  {
    MulIsProduct(d, n / d);
    assert n == d * (n / d) + n % d;
    MulPositive(d, n / d);
  }

  /** The XYPixmap loop: one image for each requested plane, highest plane first. */
  method SendPlanes(screens: seq<Screen>, drawables: seq<Drawable>, x: int, y: int, w: nat, h: nat,
                    planemask: bv32, topPlane: bv32, drawFormat: PixelFormat,
                    isRoot: bool, rects: set<Point> -> seq<Box>, pBuf: array<byte>, linesPerBuf: nat)
    returns (stream: seq<byte>, planes: seq<bv32>)
    requires 0 < |screens| == |drawables|
    requires forall i :: 0 <= i < |screens| ==> Faithful(screens[i], drawFormat)
    requires forall mask :: Agree(screens, XYPixmap, mask)
    requires forall region :: Partition(rects(region), region)
    requires Single(topPlane)
    requires 0 < linesPerBuf && Mul(BytePad(OneBit, w), linesPerBuf) <= pBuf.Length
    modifies pBuf
    ensures planes == PlanesFrom(planemask, topPlane)
    ensures PlanesShown(stream, Mul(BytePad(OneBit, w), h), planes, screens, w, h,
                        Origin(screens[0], drawables[0], x, y, isRoot))
  {
    hide *;
    ghost var o := Origin(screens[0], drawables[0], x, y, isRoot);
    var plane := topPlane;
    stream, planes := [], [];
    NoBlocks(Mul(BytePad(OneBit, w), h), screens, w, h, o);
    while plane != 0
      invariant plane != 0 ==> Single(plane)
      invariant PlanesFrom(planemask, topPlane) == planes + PlanesFrom(planemask, plane)
      invariant PlanesShown(stream, Mul(BytePad(OneBit, w), h), planes, screens, w, h, o)
      decreases Level(plane)
    {
      PlaneLoopStep(planemask, topPlane, planes, plane);
      LevelFalls(plane);
      if Has(planemask, plane) {
        stream := SendPlane(screens, drawables, x, y, w, h, plane, drawFormat, isRoot, rects, pBuf, linesPerBuf,
                            stream, planes);
        planes := planes + [plane];
      }
      plane := Half(plane);
    }
    NoPlanes(planemask);
    assert planes + [] == planes;
  }

  /** One plane: its image joins the stream. */
  method SendPlane(screens: seq<Screen>, drawables: seq<Drawable>, x: int, y: int, w: nat, h: nat,
                   plane: bv32, drawFormat: PixelFormat, isRoot: bool, rects: set<Point> -> seq<Box>,
                   pBuf: array<byte>, linesPerBuf: nat, stream: seq<byte>, ghost planes: seq<bv32>)
    returns (longer: seq<byte>)
    requires 0 < |screens| == |drawables|
    requires forall i :: 0 <= i < |screens| ==> Faithful(screens[i], drawFormat)
    requires forall mask :: Agree(screens, XYPixmap, mask)
    requires forall region :: Partition(rects(region), region)
    requires 0 < linesPerBuf && Mul(BytePad(OneBit, w), linesPerBuf) <= pBuf.Length
    requires PlanesShown(stream, Mul(BytePad(OneBit, w), h), planes, screens, w, h,
                         Origin(screens[0], drawables[0], x, y, isRoot))
    modifies pBuf
    ensures PlanesShown(longer, Mul(BytePad(OneBit, w), h), planes + [plane], screens, w, h,
                        Origin(screens[0], drawables[0], x, y, isRoot))
  {
    hide *;
    OneBitFormat(drawFormat);
    ghost var o := Origin(screens[0], drawables[0], x, y, isRoot);
    var block := SendStrips(screens, drawables, x, y, w, h, XYPixmap, plane, drawFormat, isRoot, rects, pBuf, linesPerBuf);
    ImageSize(block, screens, XYPixmap, plane, OneBit, w, h, o);
    BlockJoins(stream, block, Mul(BytePad(OneBit, w), h), planes, plane, screens, w, h, o);
    longer := stream + block;
  }

  /** What one pass of the plane loop does to the planes still to come. */
  lemma PlaneLoopStep(planemask: bv32, topPlane: bv32, planes: seq<bv32>, plane: bv32)
    requires Single(plane) && PlanesFrom(planemask, topPlane) == planes + PlanesFrom(planemask, plane)
    ensures Has(planemask, plane) ==>
              PlanesFrom(planemask, topPlane) == (planes + [plane]) + PlanesFrom(planemask, Half(plane))
    ensures !Has(planemask, plane) ==>
              PlanesFrom(planemask, topPlane) == planes + PlanesFrom(planemask, Half(plane))
    ensures Half(plane) == 0 || Single(Half(plane))
    ensures Half(plane) < plane
  {
    hide DropLowest, Half, Has, PlanesFrom;
    PlanesStep(planemask, plane);
    HalfBit(plane);
  }

  lemma NoBlocks(size: nat, screens: seq<Screen>, w: nat, h: nat, o: Point)
    ensures PlanesShown([], size, [], screens, w, h, o)
  {}

  lemma OneBitFormat(drawFormat: PixelFormat)
    ensures FormatOf(XYPixmap, drawFormat) == OneBit
  {}

  lemma ImageSize(img: seq<byte>, screens: seq<Screen>, format: ImageFormat, planemask: bv32,
                  f: PixelFormat, w: nat, h: nat, o: Point)
    requires ImageShows(img, screens, format, planemask, f, w, h, o)
    ensures |img| == Mul(BytePad(f, w), h)
  {}

  /** What an accepted request is answered with: the length announced, and all that is written after the reply. */
  ghost predicate ImageSent(screens: seq<Screen>, format: ImageFormat, planemask: bv32, topPlane: bv32,
                            drawFormat: PixelFormat, w: nat, h: nat, o: Point, memory: nat -> byte,
                            replyLength: nat, stream: seq<byte>, planes: seq<bv32>, linesPerBuf: nat) {
    && |stream| == ImageLength(format, drawFormat, w, h, planemask, topPlane)
    && replyLength == ReplyLength(|stream|)
    && (4 * replyLength == |stream| <==> Announced(|stream|))
    && (format == ZPixmap ==> ImageShows(stream, screens, format, planemask, drawFormat, w, h, o))
    && (format == ZPixmap && drawFormat.WholeBytes? && w > 0 && h > 0 ==>
         && 0 < linesPerBuf <= h
         && Repeats(stream, Memory(memory, Mul(BytePad(drawFormat, w), linesPerBuf)), screens, drawFormat, w, h,
                    linesPerBuf, o))
    && (format == XYPixmap ==>
         && planes == (if w == 0 || h == 0 then [] else PlanesFrom(planemask, topPlane))
         && PlanesShown(stream, Mul(BytePad(OneBit, w), h), planes, screens, w, h, o))
  }

  /** PanoramiXGetImage. `topPlane` is the drawable's highest plane and drawFormat its pixel layout; `memory` is what the
      strip buffer holds when it is allocated, if it is. `planes` lists the planes sent, in order (ZPixmap sends all of
      them as one image). The reply announces replyLength 32-bit units, and `stream` is everything written after the
      reply header. */
  method PanoramiXGetImage(screens: seq<Screen>, drawables: seq<Drawable>, found: Lookups, win: Window, x: int, y: int,
                           w: nat, h: nat, format: Option<ImageFormat>, planemask: bv32, topPlane: bv32,
                           drawFormat: PixelFormat, isRoot: bool, pixWidth: nat, pixHeight: nat,
                           rects: set<Point> -> seq<Box>, hasMemory: bool, memory: nat -> byte)
    returns (status: Status, replyLength: nat, stream: seq<byte>, planes: seq<bv32>, linesPerBuf: nat)
    requires 0 < |screens| == |drawables|
    requires forall i :: 0 <= i < |screens| ==> Faithful(screens[i], drawFormat)
    requires format.Some? ==> forall mask :: Agree(screens, format.value, mask)
    requires forall region :: Partition(rects(region), region)
    requires Single(topPlane)
    requires drawFormat.WholeBytes? ==> drawFormat.n > 0
    ensures var o := Origin(screens[0], drawables[0], x, y, isRoot);
      var checks := GetImageChecks(format, found, win, o, x, y, w, h, isRoot, pixWidth, pixHeight);
      && status == (if checks == Success && !hasMemory then BadAlloc else checks)
      && (status != Success ==> stream == [])
      && (status == Success ==>
           && Onscreen(o, w, h, pixWidth, pixHeight)
           && ImageSent(screens, format.value, planemask, topPlane, drawFormat, w, h, o, memory,
                        replyLength, stream, planes, linesPerBuf))
  {
    hide Partition, Faithful, Agree, Single, ImageSent;
    replyLength, stream, planes, linesPerBuf := 0, [], [], 0;
    status := CheckRequest(screens[0], drawables[0], found, win, x, y, w, h, format, isRoot, pixWidth, pixHeight);
    if status != Success {
      return;
    }
    if !hasMemory {
      status := BadAlloc;
      return;
    }
    replyLength, stream, planes, linesPerBuf :=
      SendImage(screens, drawables, x, y, w, h, format.value, planemask, topPlane, drawFormat, isRoot, rects, memory);
  }

  method CheckRequest(screen0: Screen, pDraw: Drawable, found: Lookups, win: Window, x: int, y: int, w: nat, h: nat,
                      format: Option<ImageFormat>, isRoot: bool, pixWidth: nat, pixHeight: nat) returns (status: Status)
    ensures status == GetImageChecks(format, found, win, Origin(screen0, pDraw, x, y, isRoot), x, y, w, h, isRoot,
                                     pixWidth, pixHeight)
  {
    if format == None {
      return BadValue;
    }
    if found.resource != 0 {
      return LookupError(found.resource);
    }
    if found.isPixmap {
      return HandedOn;
    }
    if found.window != 0 {
      return LookupError(found.window);
    }
    if !win.realized {
      return BadMatch;
    }
    if isRoot {
      if x < 0 || x + w > pixWidth || y < 0 || y + h > pixHeight {
        return BadMatch;
      }
    } else {
      if screen0.x + pDraw.x + x < 0 || screen0.x + pDraw.x + x + w > pixWidth ||
         screen0.y + pDraw.y + y < 0 || screen0.y + pDraw.y + y + h > pixHeight ||
         x + win.border < 0 || x + w > win.border + win.width || y + win.border < 0 || y + h > win.border + win.height {
        return BadMatch;
      }
    }
    if found.others != 0 {
      return LookupError(found.others);
    }
    status := Success;
  }

  /** The reply and the image, once the buffer is there. */
  method SendImage(screens: seq<Screen>, drawables: seq<Drawable>, x: int, y: int, w: nat, h: nat,
                   format: ImageFormat, planemask: bv32, topPlane: bv32, drawFormat: PixelFormat,
                   isRoot: bool, rects: set<Point> -> seq<Box>, memory: nat -> byte)
    returns (replyLength: nat, stream: seq<byte>, planes: seq<bv32>, linesPerBuf: nat)
    requires 0 < |screens| == |drawables|
    requires forall i :: 0 <= i < |screens| ==> Faithful(screens[i], drawFormat)
    requires forall mask :: Agree(screens, format, mask)
    requires forall region :: Partition(rects(region), region)
    requires Single(topPlane)
    requires drawFormat.WholeBytes? ==> drawFormat.n > 0
    ensures ImageSent(screens, format, planemask, topPlane, drawFormat, w, h, Origin(screens[0], drawables[0], x, y, isRoot),
                      memory, replyLength, stream, planes, linesPerBuf)
  {
    hide Partition, Faithful, Agree, Single, Within, PlanesFrom, BytePad, ImageShows, PlanesShown, Repeats, ReplyLength,
         Announced;
    planes := [];
    stream := [];
    var plane: bv32 := 0;
    var widthBytesLine: nat;
    var length: nat;
    if format == ZPixmap {
      widthBytesLine := BytePad(drawFormat, w);
      length := Mul(widthBytesLine, h);
    } else {
      widthBytesLine := BytePad(OneBit, w);
      plane := topPlane;
      length := Mul(Mul(widthBytesLine, h), Ones(Within(planemask, plane)));
    }
    replyLength := ReplyLength(length);
    LengthInUnits(format, drawFormat, w, h, planemask, topPlane);
    ReplyUnits(length);

    linesPerBuf := LinesPerBuf(widthBytesLine, h);
    var pBuf := Allocate(Mul(widthBytesLine, linesPerBuf), memory);

    if linesPerBuf == 0 {
      EmptyImage(screens, drawables, x, y, w, h, format, planemask, drawFormat, isRoot, Ones(Within(planemask, plane)));
    } else if format == ZPixmap {
      stream := SendStrips(screens, drawables, x, y, w, h, format, planemask, drawFormat, isRoot, rects, pBuf, linesPerBuf);
      ImageSize(stream, screens, format, planemask, drawFormat, w, h, Origin(screens[0], drawables[0], x, y, isRoot));
    } else {
      stream, planes := SendPlanes(screens, drawables, x, y, w, h, planemask, plane, drawFormat, isRoot, rects,
                                   pBuf, linesPerBuf);
      PlaneCount(planemask, topPlane);
      StreamSize(stream, Mul(widthBytesLine, h), planes, screens, w, h, Origin(screens[0], drawables[0], x, y, isRoot));
      PadZero(w);
    }
  }

  /** The first n bytes of a piece of memory. */
  function Memory(memory: nat -> byte, n: nat): (s: seq<byte>)
    ensures |s| == n && forall i :: 0 <= i < n ==> s[i] == memory(i)
  {
    seq(n, i requires 0 <= i < n => memory(i))
  }

  /** A strip buffer, with whatever its memory held. */
  method Allocate(n: nat, memory: nat -> byte) returns (buf: array<byte>)
    ensures fresh(buf) && buf[..] == Memory(memory, n) && buf.Length == n
  {
    buf := new byte[n];
    forall i | 0 <= i < n {
      buf[i] := memory(i);
    }
  }

  lemma PadZero(w: nat)
    ensures BytePad(OneBit, w) == 0 <==> w == 0
  {}

  lemma StreamSize(stream: seq<byte>, size: nat, planes: seq<bv32>, screens: seq<Screen>, w: nat, h: nat, o: Point)
    requires PlanesShown(stream, size, planes, screens, w, h, o)
    ensures |stream| == Mul(size, |planes|)
  {}

  /** The bytes sent are a whole number of 32-bit units. */
  lemma LengthInUnits(format: ImageFormat, drawFormat: PixelFormat, w: nat, h: nat, planemask: bv32, topPlane: bv32)
    ensures ImageLength(format, drawFormat, w, h, planemask, topPlane) % 4 == 0
  {
    hide BytePad, Ones, Within;
    var f := FormatOf(format, drawFormat);
    PadCovers(f, w);
    MulOfMultiple(BytePad(f, w), h);
    MulOfMultiple(Mul(BytePad(f, w), h), Ones(Within(planemask, topPlane)));
  }

  lemma EmptyImage(screens: seq<Screen>, drawables: seq<Drawable>, x: int, y: int, w: nat, h: nat, format: ImageFormat,
                   planemask: bv32, drawFormat: PixelFormat, isRoot: bool, n: nat)
    requires 0 < |screens| == |drawables|
    requires BytePad(FormatOf(format, drawFormat), w) == 0 || h == 0
    requires drawFormat.WholeBytes? ==> drawFormat.n > 0
    ensures w == 0 || h == 0
    ensures Mul(BytePad(FormatOf(format, drawFormat), w), h) == 0
    ensures format == XYPixmap ==> Mul(Mul(BytePad(OneBit, w), h), n) == 0
    ensures ImageShows([], screens, format, planemask, FormatOf(format, drawFormat), w, h,
                       Origin(screens[0], drawables[0], x, y, isRoot))
    ensures PlanesShown([], Mul(BytePad(OneBit, w), h), [], screens, w, h, Origin(screens[0], drawables[0], x, y, isRoot))
  {
    NoPixels(screens, format, planemask, FormatOf(format, drawFormat), w, h, Origin(screens[0], drawables[0], x, y, isRoot));
    if drawFormat.WholeBytes? {
      MulPositive(drawFormat.n, w);
    }
    MulPositive(BytePad(FormatOf(format, drawFormat), w), h);
    MulPositive(0, n);
  }

  /** An image without pixels needs no bytes. */
  lemma NoPixels(screens: seq<Screen>, format: ImageFormat, planemask: bv32, f: PixelFormat, w: nat, h: nat, o: Point)
    requires BytePad(f, w) == 0 || h == 0
    requires f.WholeBytes? ==> f.n > 0
    ensures ImageShows([], screens, format, planemask, f, w, h, o)
  {
    MulPositive(BytePad(f, w), h);
    if f.WholeBytes? {
      MulPositive(f.n, w);
    }
  }
}
