/** What the shared-memory image requests read from and write to a segment. */
module ShmSizes {
  import opened Arith
  import opened Bits
  import opened CTypes
  import opened Masks
  import opened Raster

  datatype Format = XYBitmap | XYPixmap | ZPixmap | OtherFormat
  datatype Status = Success | BadMatch | BadValue | BadAccess | BadAlloc | BadShmSeg | BadIDChoice | BadImplementation
                  | OtherError(code: int)

  /** A ShmPutImage request: the CARD16 fields, and the CARD32 offset. */
  datatype PutImageReq = PutImageReq(format: Format, depth: nat, totalWidth: nat, totalHeight: nat, srcX: nat, srcY: nat,
                                     srcWidth: nat, srcHeight: nat, sendEvent: int, offset: nat)

  /**
   * What gets drawn: width x height pixels of each plane. Pixel (i, r) of plane p is column `column + i` of the row
   * that starts at start + planeStride * p + stride * (row + r).
   */
  datatype Drawing = Drawing(width: nat, height: nat, planes: nat, start: nat, stride: nat, planeStride: nat,
                             column: nat, row: nat)
  {
    function RowAt(p: nat, r: nat): nat {
      start + Mul(planeStride, p) + Mul(stride, row + r)
    }

    predicate Draws(p: nat, i: nat, r: nat) {
      p < planes && i < width && r < height
    }

    /** Every row that is read lies between two addresses. */
    ghost predicate Inside(low: nat, high: nat) {
      forall p: nat, r: nat :: p < planes && r < height ==> low <= RowAt(p, r) && RowAt(p, r) + stride <= high
    }
  }

  datatype Outcome = Refused(status: Status) | Direct(drawing: Drawing) | Scratch(drawing: Drawing)

  /** The bytes of one line of the image, over all planes. */
  function LineLength(q: PutImageReq, f: PixelFormat): nat {
    match q.format
    case XYBitmap => BytePad(OneBit, q.totalWidth)
    case XYPixmap => Mul(BytePad(OneBit, q.totalWidth), q.depth)
    case _ => BytePad(f, q.totalWidth)
  }

  /** The request can be handed to PutImage as it is. */
  predicate GoesDirect(q: PutImageReq, scanlinePad: nat) {
    && (if q.format == ZPixmap then q.srcX == 0
        else q.srcX < scanlinePad && (q.format == XYBitmap || (q.srcY == 0 && q.srcHeight == q.totalHeight)))
    && q.srcX + q.srcWidth == q.totalWidth
  }

  /** PutImage of totalWidth columns and srcHeight rows, srcX of it left padding. */
  function DirectDrawing(q: PutImageReq, f: PixelFormat): Drawing {
    var stride := if q.format == ZPixmap then BytePad(f, q.totalWidth) else BytePad(OneBit, q.totalWidth + q.srcX);
    Drawing(q.totalWidth, q.srcHeight, if q.format == XYPixmap then q.depth else 1,
            q.offset + Mul(LineLength(q, f), q.srcY), stride, Mul(stride, q.srcHeight), q.srcX, 0)
  }

  /** CopyArea or CopyPlane out of a pixmap that holds the whole image. */
  function ScratchDrawing(q: PutImageReq, f: PixelFormat): Drawing {
    var stride := if q.format == ZPixmap then BytePad(f, q.totalWidth) else BytePad(OneBit, q.totalWidth);
    Drawing(q.srcWidth, q.srcHeight, if q.format == XYPixmap then q.depth else 1,
            q.offset, stride, Mul(stride, q.totalHeight), q.srcX, q.srcY)
  }

  /** f is the pixel layout of the request's depth. */
  function ProcShmPutImage(q: PutImageReq, f: PixelFormat, drawDepth: nat, size: nat, scanlinePad: nat): Outcome {
    if q.offset % 4 != 0 || q.offset > size then Refused(BadValue)
    else if q.sendEvent != 1 && q.sendEvent != 0 then Refused(BadValue)
    else if q.format == OtherFormat then Refused(BadValue)
    else if q.format == XYBitmap && q.depth != 1 then Refused(BadMatch)
    else if q.format != XYBitmap && q.depth != drawDepth then Refused(BadMatch)
    else if q.totalHeight != 0 && LineLength(q, f) > (size - q.offset) / q.totalHeight then Refused(BadValue)
    else if q.srcX > q.totalWidth then Refused(BadValue)
    else if q.srcY > q.totalHeight then Refused(BadValue)
    else if q.srcX + q.srcWidth > q.totalWidth then Refused(BadValue)
    else if q.srcY + q.srcHeight > q.totalHeight then Refused(BadValue)
    else if GoesDirect(q, scanlinePad) then Direct(DirectDrawing(q, f))
    else Scratch(ScratchDrawing(q, f))
  }

  lemma Quotient(space: nat, height: nat)
    requires height != 0
    ensures Mul(height, space / height) <= space < Mul(height, space / height) + height
  {
    MulIsProduct(height, space / height);
  }

  lemma MulCommutes(a: nat, b: nat)
    ensures Mul(a, b) == Mul(b, a)
  {
    MulIsProduct(a, b);
    MulIsProduct(b, a);
  }

  /** The division decides, without a product that could overflow, whether the product fits. */
  lemma DivisionCheck(length: nat, space: nat, height: nat)
    requires height != 0
    ensures length <= space / height <==> Mul(length, height) <= space
  {
    hide Mul;
    MulCommutes(length, height);
    Quotient(space, height);
    if length <= space / height {
      MulMonotone(height, length, space / height);
    } else {
      MulApart(height, space / height, length);
    }
  }

  /** A request is accepted exactly when its image fits behind the offset and its source box fits in the image. */
  lemma AcceptedIff(q: PutImageReq, f: PixelFormat, drawDepth: nat, size: nat, scanlinePad: nat)
    ensures !ProcShmPutImage(q, f, drawDepth, size, scanlinePad).Refused? <==>
      && q.offset % 4 == 0 && q.offset + Mul(LineLength(q, f), q.totalHeight) <= size
      && q.sendEvent in {0, 1} && q.format != OtherFormat
      && q.depth == (if q.format == XYBitmap then 1 else drawDepth)
      && q.srcX + q.srcWidth <= q.totalWidth && q.srcY + q.srcHeight <= q.totalHeight
  {
    hide LineLength, GoesDirect, DirectDrawing, ScratchDrawing;
    if q.totalHeight != 0 && q.offset <= size {
      DivisionCheck(LineLength(q, f), size - q.offset, q.totalHeight);
    }
  }

  /** What a refusal says: BadMatch for a depth that does not fit a good format, BadValue for everything else. */
  lemma RefusedWith(q: PutImageReq, f: PixelFormat, drawDepth: nat, size: nat, scanlinePad: nat)
    requires ProcShmPutImage(q, f, drawDepth, size, scanlinePad).Refused?
    ensures var status := ProcShmPutImage(q, f, drawDepth, size, scanlinePad).status;
            && status in {BadMatch, BadValue}
            && (status == BadMatch <==>
                 && q.offset % 4 == 0 && q.offset <= size && q.sendEvent in {0, 1} && q.format != OtherFormat
                 && q.depth != (if q.format == XYBitmap then 1 else drawDepth))
  {
    hide LineLength, GoesDirect, DirectDrawing, ScratchDrawing;
  }

  /** Which accepted requests are handed to PutImage as they are: those that reach to the right edge of the image and
      begin at its left edge, or, in the XY formats, within the first scanline pad of it; an XYPixmap only whole. */
  lemma PathTaken(q: PutImageReq, f: PixelFormat, drawDepth: nat, size: nat, scanlinePad: nat)
    requires !ProcShmPutImage(q, f, drawDepth, size, scanlinePad).Refused?
    ensures ProcShmPutImage(q, f, drawDepth, size, scanlinePad).Direct? <==>
      && q.srcX + q.srcWidth == q.totalWidth
      && match q.format
         case ZPixmap => q.srcX == 0
         case XYBitmap => q.srcX < scanlinePad
         case _ => q.srcX < scanlinePad && q.srcY == 0 && q.srcHeight == q.totalHeight
  {
    hide LineLength, DirectDrawing, ScratchDrawing;
  }

  /** A line over all planes, times the height, is a plane over all rows, times the planes. */
  lemma {:induction false} PlanesTimesRows(k: nat, depth: nat, height: nat)
    ensures Mul(Mul(k, depth), height) == Mul(Mul(k, height), depth)
  {
    if height == 0 {
      MulPositive(0, depth);
    } else {
      PlanesTimesRows(k, depth, height - 1);
      MulSum(Mul(k, height - 1), k, depth);
    }
  }

  lemma {:induction false} MulSum(a: nat, b: nat, n: nat)
    ensures Mul(a + b, n) == Mul(a, n) + Mul(b, n)
  {
    if n > 0 { MulSum(a, b, n - 1); }
  }

  /** Rows of a block of planes lie inside the block. */
  lemma RowInBlock(d: Drawing, p: nat, r: nat, rows: nat)
    requires p < d.planes && d.row + r < rows && d.planeStride == Mul(d.stride, rows)
    ensures d.start <= d.RowAt(p, r)
    ensures d.RowAt(p, r) + d.stride <= d.start + Mul(Mul(d.stride, rows), d.planes)
  {
    MulApart(d.stride, d.row + r, rows);
    MulApart(d.planeStride, p, d.planes);
  }

  /** On the scratch path, every row read lies in the image that was checked. */
  lemma ScratchInside(q: PutImageReq, f: PixelFormat, drawDepth: nat, size: nat, scanlinePad: nat)
    requires ProcShmPutImage(q, f, drawDepth, size, scanlinePad).Scratch?
    ensures ProcShmPutImage(q, f, drawDepth, size, scanlinePad).drawing.Inside(q.offset, size)
  {
    hide BytePad, Mul;
    AcceptedIff(q, f, drawDepth, size, scanlinePad);
    var d := ScratchDrawing(q, f);
    forall p: nat, r: nat | p < d.planes && r < d.height
      ensures q.offset <= d.RowAt(p, r) && d.RowAt(p, r) + d.stride <= size
    {
      RowInBlock(d, p, r, q.totalHeight);
      PlanesTimesRows(BytePad(OneBit, q.totalWidth), q.depth, q.totalHeight);
      MulOne(Mul(d.stride, q.totalHeight));
    }
  }

  lemma MulOne(k: nat)
    ensures Mul(k, 1) == k
  {
    assert Mul(k, 0) == 0;
  }

  /** The rows a drawing of whole blocks reads lie below a bound exactly when the blocks do. */
  lemma BlocksInside(d: Drawing, low: nat, high: nat)
    requires d.row == 0 && d.planeStride == Mul(d.stride, d.height) && d.planes > 0
    requires low <= d.start
    ensures d.Inside(low, high) <==> d.height == 0 || d.start + Mul(d.planeStride, d.planes) <= high
  {
    hide Mul;
    if d.height > 0 {
      var p, r := d.planes - 1, d.height - 1;
      LastOf(d.planeStride, d.planes);
      LastOf(d.stride, d.height);
      assert d.RowAt(p, r) + d.stride == d.start + Mul(d.planeStride, d.planes);
      forall p: nat, r: nat | p < d.planes && r < d.height
        ensures d.start <= d.RowAt(p, r) && d.RowAt(p, r) + d.stride <= d.start + Mul(d.planeStride, d.planes)
      {
        RowInBlock(d, p, r, d.height);
      }
    }
  }

  lemma LastOf(k: nat, n: nat)
    requires n > 0
    ensures Mul(k, n - 1) + k == Mul(k, n)
  {}

  /**
   * On the direct path, every row read lies in the image that was checked: always for ZPixmap, and for the XY formats
   * exactly when the padded rows of totalWidth + srcX columns, as many as are drawn, take no more than what is left
   * of a checked plane below srcY.
   */
  lemma DirectInside(q: PutImageReq, f: PixelFormat, drawDepth: nat, size: nat, scanlinePad: nat)
    requires ProcShmPutImage(q, f, drawDepth, size, scanlinePad).Direct? && drawDepth > 0
    ensures var checked := q.offset + Mul(LineLength(q, f), q.totalHeight);
            var inside := DirectDrawing(q, f).Inside(q.offset, checked);
            && checked <= size
            && (q.format == ZPixmap ==> inside)
            && (q.format != ZPixmap ==>
                 (inside <==> Mul(BytePad(OneBit, q.totalWidth + q.srcX), q.srcHeight)
                              <= Mul(BytePad(OneBit, q.totalWidth), q.totalHeight - q.srcY)))
  {
    hide Mul, BytePad;
    AcceptedIff(q, f, drawDepth, size, scanlinePad);
    var d, line := DirectDrawing(q, f), LineLength(q, f);
    BlocksInside(d, q.offset, q.offset + Mul(line, q.totalHeight));
    MulAdd(line, q.srcY, q.totalHeight - q.srcY);
    MulZero(d.stride);
    MulMonotone(line, q.srcHeight, q.totalHeight - q.srcY);
    MulOne(Mul(d.stride, q.srcHeight));
    if q.format == XYPixmap {
      PlanesTimesRows(BytePad(OneBit, q.totalWidth), q.depth, q.totalHeight);
      MulCompare(Mul(d.stride, q.srcHeight), Mul(BytePad(OneBit, q.totalWidth), q.totalHeight), q.depth);
    }
  }

  lemma MulZero(k: nat)
    ensures Mul(k, 0) == 0
  {}

  /** The bytes a direct PutImage reads from the offset on, up to the end of its last row. */
  function DirectExtent(q: PutImageReq): nat {
    var padded := Mul(BytePad(OneBit, q.totalWidth + q.srcX), q.srcHeight);
    if q.format == XYPixmap then Mul(padded, q.depth) else Mul(BytePad(OneBit, q.totalWidth), q.srcY) + padded
  }

  /**
   * What an accepted request reads lies in the segment: always on the scratch path and for ZPixmap, and on the direct
   * path of the XY formats exactly when the rows above the box, and the drawn rows padded to totalWidth + srcX columns
   * in every plane, end within the segment.
   */
  lemma ReadsInSegment(q: PutImageReq, f: PixelFormat, drawDepth: nat, size: nat, scanlinePad: nat)
    requires !ProcShmPutImage(q, f, drawDepth, size, scanlinePad).Refused? && drawDepth > 0
    ensures ProcShmPutImage(q, f, drawDepth, size, scanlinePad).drawing.Inside(q.offset, size)
       <==> !GoesDirect(q, scanlinePad) || q.format == ZPixmap || q.offset + DirectExtent(q) <= size
  {
    hide Mul, BytePad;
    AcceptedIff(q, f, drawDepth, size, scanlinePad);
    if GoesDirect(q, scanlinePad) {
      var d, line := DirectDrawing(q, f), LineLength(q, f);
      BlocksInside(d, q.offset, size);
      MulAdd(line, q.srcY, q.totalHeight - q.srcY);
      MulMonotone(line, q.srcHeight, q.totalHeight - q.srcY);
      MulZero(d.stride);
      MulZero(line);
      MulOne(Mul(d.stride, q.srcHeight));
      ZeroPlanes(q.depth);
    } else {
      ScratchInside(q, f, drawDepth, size, scanlinePad);
    }
  }

  lemma ZeroPlanes(n: nat)
    ensures Mul(0, n) == 0
  {
    MulPositive(0, n);
  }

  /** One row of 32 columns, drawn from column 1 on, ends behind the four bytes that were checked, and inside eight. */
  lemma DirectBehindSegment()
    ensures var q := PutImageReq(XYBitmap, 1, 32, 1, 1, 0, 31, 1, 0, 0);
            && ProcShmPutImage(q, OneBit, 1, 4, 32).Direct? && !DirectDrawing(q, OneBit).Inside(0, 4)
            && ProcShmPutImage(q, OneBit, 1, 8, 32).Direct? && DirectDrawing(q, OneBit).Inside(0, 8)
  {
    hide Mul, DirectDrawing, ScratchDrawing;
    var q := PutImageReq(XYBitmap, 1, 32, 1, 1, 0, 31, 1, 0, 0);
    MulOne(4);
    MulOne(8);
    MulZero(4);
    AcceptedIff(q, OneBit, 1, 4, 32);
    AcceptedIff(q, OneBit, 1, 8, 32);
    ReadsInSegment(q, OneBit, 1, 4, 32);
    ReadsInSegment(q, OneBit, 1, 8, 32);
  }

  lemma {:induction false} MulCompare(a: nat, b: nat, n: nat)
    requires n > 0
    ensures Mul(a, n) <= Mul(b, n) <==> a <= b
  {
    if n > 1 {
      MulCompare(a, b, n - 1);
    } else {
      MulOne(a);
      MulOne(b);
    }
  }

  /** In particular the padding of srcX columns must not lengthen the rows when all rows are drawn. */
  lemma DirectInsideWhole(q: PutImageReq, f: PixelFormat, drawDepth: nat, size: nat, scanlinePad: nat)
    requires ProcShmPutImage(q, f, drawDepth, size, scanlinePad).Direct? && drawDepth > 0
    requires q.format != ZPixmap && q.srcHeight == q.totalHeight > 0
    ensures DirectDrawing(q, f).Inside(q.offset, q.offset + Mul(LineLength(q, f), q.totalHeight))
       <==> BytePad(OneBit, q.totalWidth + q.srcX) == BytePad(OneBit, q.totalWidth)
  {
    hide Mul;
    DirectInside(q, f, drawDepth, size, scanlinePad);
    AcceptedIff(q, f, drawDepth, size, scanlinePad);
    MulCompare(BytePad(OneBit, q.totalWidth + q.srcX), BytePad(OneBit, q.totalWidth), q.totalHeight);
  }

  /** Two drawings paint the same pixels from the same places. */
  ghost predicate SameDrawing(a: Drawing, b: Drawing) {
    forall p: nat, i: nat, r: nat ::
      && (a.Draws(p, i, r) <==> b.Draws(p, i, r))
      && (a.Draws(p, i, r) ==> a.RowAt(p, r) == b.RowAt(p, r) && a.column + i == b.column + i)
  }

  /**
   * The direct path is a shortcut for the scratch path exactly when the source box starts at column 0: otherwise it
   * paints the srcX columns to the right of the box as well.
   */
  lemma ShortcutIff(q: PutImageReq, f: PixelFormat, drawDepth: nat, size: nat, scanlinePad: nat)
    requires ProcShmPutImage(q, f, drawDepth, size, scanlinePad).Direct? && drawDepth > 0
    ensures SameDrawing(DirectDrawing(q, f), ScratchDrawing(q, f)) <==> q.srcX == 0 || q.srcHeight == 0
  {
    hide Mul, BytePad;
    AcceptedIff(q, f, drawDepth, size, scanlinePad);
    var a, b := DirectDrawing(q, f), ScratchDrawing(q, f);
    if q.srcX == 0 {
      forall p: nat, i: nat, r: nat | a.Draws(p, i, r) ensures a.RowAt(p, r) == b.RowAt(p, r) {
        MulAdd(b.stride, q.srcY, r);
        MulZero(a.planeStride);
        MulZero(b.planeStride);
        MulZero(LineLength(q, f));
      }
    } else if q.srcHeight > 0 {
      assert a.Draws(0, q.srcWidth, 0) && !b.Draws(0, q.srcWidth, 0);
    }
  }

  /** Of two rows of four columns the right half is asked for, and all four are painted. */
  lemma ShortcutPaintsMore()
    ensures var q := PutImageReq(XYPixmap, 1, 4, 2, 2, 0, 2, 2, 0, 0);
            && ProcShmPutImage(q, OneBit, 1, 8, 32) == Direct(DirectDrawing(q, OneBit))
            && DirectDrawing(q, OneBit).Draws(0, 2, 0) && !ScratchDrawing(q, OneBit).Draws(0, 2, 0)
            && !SameDrawing(DirectDrawing(q, OneBit), ScratchDrawing(q, OneBit))
  {
    var q := PutImageReq(XYPixmap, 1, 4, 2, 2, 0, 2, 2, 0, 0);
    assert Mul(4, 1) == 4 by { MulOne(4); }
    ShortcutIff(q, OneBit, 1, 8, 32);
  }

  // ----- the pixels painted -----

  /** Painted pixel (i, r) of plane p, as it is read from the segment's bytes; f is the layout of the drawn rows. */
  function Painted(d: Drawing, seg: seq<byte>, f: PixelFormat, p: nat, i: nat, r: nat): Pixel
    requires d.RowAt(p, r) <= |seg| && Holds(|seg| - d.RowAt(p, r), d.stride, f, d.column + i, 0)
  {
    PixelAt(seg[d.RowAt(p, r)..], d.stride, f, d.column + i, 0)
  }

  /**
   * On the scratch path, for ZPixmap, and wherever srcX is 0: exactly the box srcWidth x srcHeight is painted, on
   * every plane of the format, and its pixel (i, r) is pixel (srcX + i, srcY + r) of the image of totalWidth x
   * totalHeight that starts at the offset, with one plane behind the other.
   */
  lemma PaintsSource(q: PutImageReq, f: PixelFormat, drawDepth: nat, scanlinePad: nat, seg: seq<byte>, p: nat, i: nat, r: nat)
    requires var outcome := ProcShmPutImage(q, f, drawDepth, |seg|, scanlinePad);
             outcome.Scratch? || (outcome.Direct? && (q.srcX == 0 || q.format == ZPixmap))
    ensures var d := ProcShmPutImage(q, f, drawDepth, |seg|, scanlinePad).drawing;
            d.Draws(p, i, r) <==>
              p < (if q.format == XYPixmap then q.depth else 1) && i < q.srcWidth && r < q.srcHeight
    ensures p < (if q.format == XYPixmap then q.depth else 1) && i < q.srcWidth && r < q.srcHeight ==>
            var d := ProcShmPutImage(q, f, drawDepth, |seg|, scanlinePad).drawing;
            var layout := if q.format == ZPixmap then f else OneBit;
            var pitch := BytePad(layout, q.totalWidth);
            var plane := q.offset + Mul(Mul(pitch, q.totalHeight), p);
            && d.RowAt(p, r) <= |seg| && Holds(|seg| - d.RowAt(p, r), d.stride, layout, d.column + i, 0)
            && plane <= |seg| && Holds(|seg| - plane, pitch, layout, q.srcX + i, q.srcY + r)
            && Painted(d, seg, layout, p, i, r) == PixelAt(seg[plane..], pitch, layout, q.srcX + i, q.srcY + r)
  {
    hide BytePad, Mul, PixelAt, Holds, ProcShmPutImage;
    DrawnRows(q, f, drawDepth, |seg|, scanlinePad, p, r);
    var d := ProcShmPutImage(q, f, drawDepth, |seg|, scanlinePad).drawing;
    var layout := if q.format == ZPixmap then f else OneBit;
    var pitch := BytePad(layout, q.totalWidth);
    var planes := if q.format == XYPixmap then q.depth else 1;
    if p < planes && i < q.srcWidth && r < q.srcHeight {
      var plane := q.offset + Mul(Mul(pitch, q.totalHeight), p);
      PlaneInside(q, f, |seg|, p, planes);
      PadCovers(layout, q.totalWidth);
      HoldsPixels(layout, q.totalWidth, q.totalHeight, pitch, |seg| - plane, q.srcX + i, q.srcY + r);
      RowStart(seg[plane..], pitch, layout, q.srcX + i, q.srcY + r);
      assert seg[plane..][Mul(pitch, q.srcY + r)..] == seg[d.RowAt(p, r)..];
    }
  }

  /** What is drawn, and where its rows begin. */
  lemma DrawnRows(q: PutImageReq, f: PixelFormat, drawDepth: nat, size: nat, scanlinePad: nat, p: nat, r: nat)
    requires var outcome := ProcShmPutImage(q, f, drawDepth, size, scanlinePad);
             outcome.Scratch? || (outcome.Direct? && (q.srcX == 0 || q.format == ZPixmap))
    ensures var d := ProcShmPutImage(q, f, drawDepth, size, scanlinePad).drawing;
            var pitch := BytePad(if q.format == ZPixmap then f else OneBit, q.totalWidth);
            && d.planes == (if q.format == XYPixmap then q.depth else 1)
            && d.width == q.srcWidth && d.height == q.srcHeight && d.stride == pitch && d.column == q.srcX
            && (p < d.planes ==> d.RowAt(p, r) == q.offset + Mul(Mul(pitch, q.totalHeight), p) + Mul(pitch, q.srcY + r))
    ensures q.offset + Mul(LineLength(q, f), q.totalHeight) <= size && q.format != OtherFormat
    ensures q.srcX + q.srcWidth <= q.totalWidth && q.srcY + q.srcHeight <= q.totalHeight
  {
    hide BytePad, Mul;
    AcceptedIff(q, f, drawDepth, size, scanlinePad);
    var pitch := BytePad(if q.format == ZPixmap then f else OneBit, q.totalWidth);
    MulZero(LineLength(q, f));
    MulZero(Mul(pitch, q.totalHeight));
    MulZero(Mul(pitch, q.srcHeight));
    MulAdd(pitch, q.srcY, r);
  }

  /** Every plane of an accepted image lies in the segment. */
  lemma PlaneInside(q: PutImageReq, f: PixelFormat, size: nat, p: nat, planes: nat)
    requires planes == (if q.format == XYPixmap then q.depth else 1) && p < planes && q.format != OtherFormat
    requires q.offset + Mul(LineLength(q, f), q.totalHeight) <= size
    ensures var block := Mul(BytePad(if q.format == ZPixmap then f else OneBit, q.totalWidth), q.totalHeight);
            q.offset + Mul(block, p) + block <= size
  {
    hide BytePad, Mul;
    var pitch := BytePad(if q.format == ZPixmap then f else OneBit, q.totalWidth);
    var block := Mul(pitch, q.totalHeight);
    MulApart(block, p, planes);
    MulOne(block);
    PlanesTimesRows(pitch, q.depth, q.totalHeight);
  }

  /** A pixel of row y is that of the first row, once the rows above are left out. */
  lemma RowStart(s: seq<byte>, pitch: nat, f: PixelFormat, c: nat, y: nat)
    requires Holds(|s|, pitch, f, c, y)
    ensures Mul(pitch, y) <= |s| && Holds(|s| - Mul(pitch, y), pitch, f, c, 0)
    ensures PixelAt(s[Mul(pitch, y)..], pitch, f, c, 0) == PixelAt(s, pitch, f, c, y)
  {
    hide PixelAt, Mul;
    MulZero(pitch);
    var top, rest := s[..Mul(pitch, y)], s[Mul(pitch, y)..];
    assert top + rest == s;
    SuffixPixel(top, rest, pitch, f, y, c, 0);
  }

  /** Columns 4 to 9 of one row of ten pixels of four bytes. */
  lemma ScratchColumns()
    ensures ProcShmPutImage(PutImageReq(ZPixmap, 24, 10, 1, 4, 0, 6, 1, 0, 0), WholeBytes(4), 24, 4096, 32)
         == Scratch(Drawing(6, 1, 1, 0, 40, 40, 4, 0))
  {
    hide Mul, BytePad, DirectDrawing;
    BytesOfTen();
    assert Mul(40, 1) == 40 by { MulOne(40); }
    AcceptedIff(PutImageReq(ZPixmap, 24, 10, 1, 4, 0, 6, 1, 0, 0), WholeBytes(4), 24, 4096, 32);
  }

  lemma BytesOfTen()
    ensures BytePad(WholeBytes(4), 10) == 40
  {
    MulIsProduct(4, 10);
    hide Mul;
  }

  // ----- GetImage -----

  /** VERIFY_SHMSIZE: offset + length as an unsigned long. */
  predicate Fits(size: nat, offset: nat, length: int) {
    0 <= offset + length <= size
  }

  /** The length of a GetImage reply; the ZPixmap product is one of two ints. */
  function GetImageLength(format: Format, f: PixelFormat, w: nat, h: nat, planemask: bv32, topPlane: bv32): int {
    if format == ZPixmap then Int32(Mul(BytePad(f, w), h))
    else Mul(Mul(BytePad(OneBit, w), h), Ones(Within(planemask, topPlane)))
  }

  /** Blocks of one length, one behind the other. */
  ghost predicate Spaced(starts: seq<nat>, offset: nat, length: nat) {
    forall k :: 0 <= k < |starts| ==> starts[k] == offset + Mul(length, k)
  }

  /** The plane loop of ProcShmGetImage: where each requested plane is written. */
  method WritePlanes(offset: nat, lenPer: nat, planemask: bv32, topPlane: bv32) returns (starts: seq<nat>, length: nat)
    requires Single(topPlane)
    ensures |starts| == Ones(Within(planemask, topPlane))
    ensures Spaced(starts, offset, lenPer) && length == offset + Mul(lenPer, |starts|)
  {
    hide Ones, Within, Single, PlanesFrom, Has, Half, Mul, Spaced, DropLowest;
    var plane := topPlane;
    starts, length := [], offset;
    MulZero(lenPer);
    NoStarts(offset, lenPer);
    while plane != 0
      invariant |starts| + |PlanesFrom(planemask, plane)| == |PlanesFrom(planemask, topPlane)|
      invariant plane == 0 || Single(plane)
      invariant Spaced(starts, offset, lenPer) && length == offset + Mul(lenPer, |starts|)
      decreases plane
    {
      PlanesLeft(planemask, plane);
      HalfSmaller(plane);
      if planemask & plane != 0 {
        NextStart(starts, offset, lenPer);
        starts := starts + [length];
        length := length + lenPer;
      }
      plane := plane >> 1;
    }
    NoPlanes(planemask);
    PlaneCount(planemask, topPlane);
  }

  lemma NoStarts(offset: nat, lenPer: nat)
    ensures Spaced([], offset, lenPer)
  {}

  lemma NextStart(starts: seq<nat>, offset: nat, lenPer: nat)
    requires Spaced(starts, offset, lenPer)
    ensures Spaced(starts + [offset + Mul(lenPer, |starts|)], offset, lenPer)
    ensures Mul(lenPer, |starts|) + lenPer == Mul(lenPer, |starts| + 1)
  {}

  lemma PlanesLeft(planemask: bv32, plane: bv32)
    requires Single(plane)
    ensures |PlanesFrom(planemask, plane)| == (if planemask & plane != 0 then 1 else 0) + |PlanesFrom(planemask, plane >> 1)|
  {
    hide PlanesFrom, DropLowest;
    PlanesStep(planemask, plane);
  }

  lemma HalfSmaller(plane: bv32)
    requires Single(plane)
    ensures plane >> 1 < plane && (plane >> 1 != 0 ==> Single(plane >> 1))
  {
    hide Single;
    HalfBit(plane);
  }

  /** One check of the whole length keeps the write of every plane inside the segment, and no two planes meet. */
  lemma PlaneWritesInside(w: nat, h: nat, planemask: bv32, topPlane: bv32, size: nat, offset: nat, f: PixelFormat, k: nat)
    requires Fits(size, offset, GetImageLength(XYPixmap, f, w, h, planemask, topPlane))
    requires k < Ones(Within(planemask, topPlane))
    ensures var lenPer := Mul(BytePad(OneBit, w), h);
            offset + Mul(lenPer, k) + lenPer <= size
    ensures forall j :: 0 <= j < k ==>
              offset + Mul(Mul(BytePad(OneBit, w), h), j) + Mul(BytePad(OneBit, w), h)
              <= offset + Mul(Mul(BytePad(OneBit, w), h), k)
  {
    hide Mul, BytePad, Ones, Within;
    var lenPer := Mul(BytePad(OneBit, w), h);
    MulApart(lenPer, k, Ones(Within(planemask, topPlane)));
    forall j | 0 <= j < k ensures Mul(lenPer, j) + lenPer <= Mul(lenPer, k) {
      MulApart(lenPer, j, k);
    }
  }

  /** The checks of ProcShmGetImage on the segment: VERIFY_SHMPTR, then VERIFY_SHMSIZE. */
  predicate GetImageAccepted(format: Format, f: PixelFormat, w: nat, h: nat, planemask: bv32, topPlane: bv32,
                             offset: nat, size: nat, writable: bool)
  {
    && offset % 4 == 0 && offset <= size && writable
    && Fits(size, offset, GetImageLength(format, f, w, h, planemask, topPlane))
  }

  /**
   * The write of an accepted ZPixmap request, if there is one, lies in a segment of less than 2^32 bytes exactly when
   * its image is smaller than 2^31 bytes, and in a larger one also when the image fits behind the offset all the same;
   * with 2^31 bytes or more it is accepted, fitting or not, whenever the offset makes up for the negative length.
   */
  lemma ImageWriteInside(f: PixelFormat, w: nat, h: nat, planemask: bv32, topPlane: bv32, offset: nat, size: nat)
    requires Mul(BytePad(f, w), h) < 0x1_0000_0000
    ensures var image := Mul(BytePad(f, w), h);
            var accepted := GetImageAccepted(ZPixmap, f, w, h, planemask, topPlane, offset, size, true);
            && (image < 0x8000_0000 ==> (accepted <==> offset % 4 == 0 && offset + image <= size))
            && (image >= 0x8000_0000 ==>
                 (accepted <==> offset % 4 == 0 && 0x1_0000_0000 <= offset + image && offset <= size))
            && (accepted && size < 0x1_0000_0000 ==> (offset + image <= size <==> image < 0x8000_0000))
            && (accepted ==> (offset + image <= size <==>
                              image < 0x8000_0000 || (0x1_0000_0000 <= size && image <= size - offset)))
            && (accepted ==> (GetImageLength(ZPixmap, f, w, h, planemask, topPlane) == 0 <==> image == 0))
  {
    hide Mul, BytePad;
  }

  /** An XYPixmap request is accepted exactly if the images of all requested planes fit behind the offset. */
  lemma PlanesAccepted(f: PixelFormat, w: nat, h: nat, planemask: bv32, topPlane: bv32, offset: nat, size: nat, writable: bool)
    ensures GetImageAccepted(XYPixmap, f, w, h, planemask, topPlane, offset, size, writable) <==>
      && writable && offset % 4 == 0
      && offset + Mul(Mul((w + 31) / 32 * 4, h), Ones(planemask & (topPlane | (topPlane - 1)))) <= size
  {
    hide Mul, Ones;
  }

  /** An accepted request whose image is sixteen thousand times larger than the segment. */
  lemma LargestImageAccepted(planemask: bv32, topPlane: bv32)
    ensures GetImageAccepted(ZPixmap, WholeBytes(4), 32767, 32767, planemask, topPlane, 262140, 262140, true)
    ensures GetImageLength(ZPixmap, WholeBytes(4), 32767, 32767, planemask, topPlane) != 0
    ensures 262140 + Mul(BytePad(WholeBytes(4), 32767), 32767) > 262140 + 16383 * 262140
  {
    LargestImage(planemask, topPlane);
    MulIsProduct(4, 32767);
    MulIsProduct(131068, 32767);
  }

  /** No drawable of 32767 pixels a side reaches 2^32 bytes. */
  lemma ImageBelow(f: PixelFormat, w: nat, h: nat)
    requires w <= 32767 && h <= 32767 && (f.WholeBytes? ==> f.n <= 4)
    ensures Mul(BytePad(f, w), h) < 0x1_0000_0000
  {
    RowBound(f, w);
    MulWider(BytePad(f, w), 131068, h);
    MulMonotone(131068, h, 32767);
    MulIsProduct(131068, 32767);
  }

  /** A ZPixmap reply has the length of its image exactly when that is below 2^31. */
  lemma ImageLengthIff(f: PixelFormat, w: nat, h: nat, planemask: bv32, topPlane: bv32)
    requires Mul(BytePad(f, w), h) < 0x1_0000_0000
    ensures GetImageLength(ZPixmap, f, w, h, planemask, topPlane) == Mul(BytePad(f, w), h)
       <==> Mul(BytePad(f, w), h) < 0x8000_0000
  {
    hide Mul, BytePad;
  }

  /** A pixmap of the largest size allowed, with four bytes a pixel, gets a negative length. */
  lemma LargestImage(planemask: bv32, topPlane: bv32)
    ensures GetImageLength(ZPixmap, WholeBytes(4), 32767, 32767, planemask, topPlane) == -262140
  {
    MulIsProduct(4, 32767);
    MulIsProduct(131068, 32767);
  }

  // ----- CreatePixmap -----

  /** The checks of ProcShmCreatePixmap after VERIFY_SHMPTR; f is the pixel layout of the depth, and the product is one
      of unsigned ints. */
  function CreatePixmapChecks(f: PixelFormat, width: nat, height: nat, depth: nat, allowedDepths: set<nat>,
                              offset: nat, size: nat): Status {
    if width == 0 || height == 0 || depth == 0 then BadValue
    else if width > 32767 || height > 32767 then BadAlloc
    else if depth != 1 && depth !in allowedDepths then BadValue
    else if !Fits(size, offset, Card32(Mul(BytePad(f, width), height))) then BadAccess
    else Success
  }

  /** The bound on width and height keeps the product in 32 bits, so the pixmap's bits lie inside the segment. */
  lemma PixmapInside(f: PixelFormat, width: nat, height: nat, depth: nat, allowedDepths: set<nat>, offset: nat, size: nat)
    requires f.WholeBytes? ==> f.n <= 4
    ensures CreatePixmapChecks(f, width, height, depth, allowedDepths, offset, size) == Success
       <==> && 0 < width <= 32767 && 0 < height <= 32767 && (depth == 1 || (depth > 0 && depth in allowedDepths))
            && offset + Mul(BytePad(f, width), height) <= size
  {
    hide Mul, BytePad;
    if width <= 32767 && height <= 32767 {
      ImageBelow(f, width, height);
    }
  }

  lemma PixmapLimits(f: PixelFormat, width: nat, height: nat, depth: nat, allowedDepths: set<nat>, offset: nat, size: nat)
    ensures var status := CreatePixmapChecks(f, width, height, depth, allowedDepths, offset, size);
            && (status == BadValue <==> (|| width == 0 || height == 0 || depth == 0
                                         || (width <= 32767 && height <= 32767 && depth != 1 && depth !in allowedDepths)))
            && (status == BadAlloc <==> width > 0 && height > 0 && depth > 0 && (width > 32767 || height > 32767))
            && (status == Success ==> 0 < width <= 32767 && 0 < height <= 32767 && (depth == 1 || depth in allowedDepths))
            && status in {BadValue, BadAlloc, BadAccess, Success}
  {
    hide Mul, BytePad;
  }

  lemma {:induction false} MulWider(a: nat, b: nat, n: nat)
    requires a <= b
    ensures Mul(a, n) <= Mul(b, n)
  {
    if n > 0 { MulWider(a, b, n - 1); }
  }

  lemma RowBound(f: PixelFormat, width: nat)
    requires width <= 32767 && (f.WholeBytes? ==> f.n <= 4)
    ensures BytePad(f, width) <= 131068
  {
    if f.WholeBytes? {
      MulWider(f.n, 4, width);
      MulIsProduct(4, width);
    }
  }
}
