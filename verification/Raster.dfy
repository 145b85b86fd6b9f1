/** How image rows lie in a byte buffer, and the copy loops of XineramaGetImageData. */
module Raster {
  import opened Arith
  import opened Bits

  /** One bit per pixel (depth 1 and single planes), or a whole number of bytes per pixel. */
  datatype PixelFormat = OneBit | WholeBytes(n: nat)

  datatype Pixel = BitPixel(b: bool) | BytesPixel(bs: seq<byte>)

  /** Bytes of pixel data in a row of w pixels, before padding. */
  function RowBytes(f: PixelFormat, w: nat): nat {
    match f
    case OneBit => (w + 7) / 8
    case WholeBytes(n) => Mul(n, w)
  }

  /** PixmapBytePad for the 32-bit scanline pad. */
  function BytePad(f: PixelFormat, w: nat): nat {
    match f
    case OneBit => (w + 31) / 32 * 4
    case WholeBytes(n) => (Mul(n, w) + 3) / 4 * 4
  }

  /** Pixel (c, r) lies inside the rows of a buffer with this pitch. */
  predicate Holds(size: nat, pitch: nat, f: PixelFormat, c: nat, r: nat) {
    match f
    case OneBit => c < 8 * pitch && Mul(pitch, r) + pitch <= size
    case WholeBytes(n) => Mul(n, c) + n <= pitch && Mul(pitch, r) + pitch <= size
  }

  function PixelAt(s: seq<byte>, pitch: nat, f: PixelFormat, c: nat, r: nat): Pixel
    requires Holds(|s|, pitch, f, c, r)
  {
    match f
    case OneBit => BitPixel(BitAt(s, 8 * Mul(pitch, r) + c))
    case WholeBytes(n) => BytesPixel(s[Mul(pitch, r) + Mul(n, c)..Mul(pitch, r) + Mul(n, c) + n])
  }

  lemma HoldsPixels(f: PixelFormat, w: nat, h: nat, pitch: nat, size: nat, c: nat, r: nat)
    requires c < w && r < h && RowBytes(f, w) <= pitch && Mul(pitch, h) <= size
    ensures Holds(size, pitch, f, c, r)
  {
    MulApart(pitch, r, h);
    if f.WholeBytes? {
      MulApart(f.n, c, w);
    }
  }

  lemma PadCovers(f: PixelFormat, w: nat)
    ensures RowBytes(f, w) <= BytePad(f, w)
    ensures BytePad(f, w) % 4 == 0
  {
    hide Mul;
    match f
    case OneBit =>
      var q := (w + 31) / 32;
      assert w <= 32 * q;
    case WholeBytes(n) =>
      var m := Mul(n, w);
      assert m <= (m + 3) / 4 * 4;
  }

  /** A pixel that lies below whole rows. */
  lemma SuffixPixel(a: seq<byte>, s: seq<byte>, pitch: nat, f: PixelFormat, rows: nat, c: nat, r: nat)
    requires |a| == Mul(pitch, rows) && Holds(|s|, pitch, f, c, r)
    ensures Holds(|a + s|, pitch, f, c, rows + r) && PixelAt(a + s, pitch, f, c, rows + r) == PixelAt(s, pitch, f, c, r)
  {
    hide Bit, Mul;
    var base := Mul(pitch, rows);
    MulAdd(pitch, rows, r);
    match f
    case OneBit =>
      var p := 8 * Mul(pitch, r) + c;
      assert (8 * Mul(pitch, rows + r) + c) / 8 == base + p / 8;
      assert (a + s)[base + p / 8] == s[p / 8];
    case WholeBytes(n) =>
      var at := Mul(pitch, r) + Mul(n, c);
      assert (a + s)[base + at..base + at + n] == s[at..at + n];
  }

  // ----- memory copies -----

  method Memcpy(dst: array<byte>, d: nat, src: array<byte>, s: nat, n: nat)
    requires dst != src && d + n <= dst.Length && s + n <= src.Length
    modifies dst
    ensures dst[..] == old(dst[..d]) + src[s..s + n] + old(dst[d + n..])
  {
    var i := 0;
    while i < n
      invariant 0 <= i <= n
      invariant forall k :: d <= k < d + i ==> dst[k] == old(src[s + k - d])
      invariant src[..] == old(src[..])
      invariant forall k :: 0 <= k < dst.Length && !(d <= k < d + i) ==> dst[k] == old(dst[k])
    {
      dst[d + i] := src[s + i];
      i := i + 1;
    }
  }

  /** Bit p of the destination of a shifted copy of `count` bits from bit `from` to bit `lo`. */
  predicate Merged(was: seq<byte>, src: seq<byte>, lo: nat, from: nat, count: nat, p: nat)
    requires p < 8 * |was| && from + count <= 8 * |src|
  {
    BitAt(was, p) || (lo <= p < lo + count && BitAt(src, from + (p - lo)))
  }

  /** Every bit of `now` is what ORing bits [from, from + count) of `src` into `was` at `lo` gives. */
  ghost predicate AllMerged(was: seq<byte>, now: seq<byte>, src: seq<byte>, lo: nat, from: nat, count: nat)
    requires from + count <= 8 * |src|
  {
    && |now| == |was|
    && forall p :: 0 <= p < 8 * |now| ==> BitAt(now, p) == Merged(was, src, lo, from, count, p)
  }

  /** *p |= v */
  method OrByte(dst: array<byte>, k: nat, v: byte)
    requires k < dst.Length
    modifies dst
    ensures dst[..] == old(dst[..])[k := old(dst[k]) | v]
  {
    dst[k] := dst[k] | v;
  }

  /** CopyBits: ORs `bytes` source bytes into the destination, shifted up by shiftL bits. */
  method CopyBits(dst: array<byte>, d: nat, shiftL: nat, src: array<byte>, s: nat, bytes: nat)
    requires dst != src && shiftL < 8
    requires s + bytes <= src.Length && (bytes > 0 ==> d + bytes < dst.Length)
    modifies dst
    ensures AllMerged(old(dst[..]), dst[..], src[..], 8 * d + shiftL, 8 * s, 8 * bytes)
  {
    hide Bit, Shl, Shr, BitAt;
    ghost var was, from := dst[..], src[..];
    var shiftR := 8 - shiftL;
    var i := 0;
    while i < bytes
      invariant 0 <= i <= bytes
      invariant src[..] == from
      invariant AllMerged(was, dst[..], from, 8 * d + shiftL, 8 * s, 8 * i)
    {
      ghost var before := dst[..];
      OrByte(dst, d + i, Shl(src[s + i], shiftL));
      OrByte(dst, d + i + 1, Shr(src[s + i], shiftR));
      CopyStep(was, before, dst[..], from, d, shiftL, s, i);
      i := i + 1;
    }
  }

  /** One more source byte merged: the bits of that byte join at offset 8 * (d + i) + shift. */
  lemma MergedStep(was: seq<byte>, src: seq<byte>, d: nat, shift: nat, s: nat, i: nat, p: nat)
    requires p < 8 * |was| && s + i < |src|
    ensures var lo := 8 * (d + i) + shift;
            Merged(was, src, 8 * d + shift, 8 * s, 8 * (i + 1), p)
            == (Merged(was, src, 8 * d + shift, 8 * s, 8 * i, p)
                || (lo <= p < lo + 8 && Bit(src[s + i], p - lo)))
  {
    hide Bit, Shl, Shr, BitAt;
    var lo := 8 * (d + i) + shift;
    if lo <= p < lo + 8 {
      BitAtIndex(src, s + i, p - lo);
    }
  }

  lemma CopyStepAt(was: seq<byte>, before: seq<byte>, after: seq<byte>, src: seq<byte>,
                   d: nat, shift: nat, s: nat, i: nat, p: nat)
    requires |was| == |before| == |after| && shift < 8 && p < 8 * |was|
    requires d + i + 1 < |was| && s + i < |src|
    requires BitAt(before, p) == Merged(was, src, 8 * d + shift, 8 * s, 8 * i, p)
    requires var t := before[d + i := before[d + i] | Shl(src[s + i], shift)];
             after == t[d + i + 1 := t[d + i + 1] | Shr(src[s + i], 8 - shift)]
    ensures BitAt(after, p) == Merged(was, src, 8 * d + shift, 8 * s, 8 * (i + 1), p)
  {
    hide *;
    PlaceByte(before, d + i, shift, src[s + i], p);
    MergedStep(was, src, d, shift, s, i, p);
  }

  lemma CopyStep(was: seq<byte>, before: seq<byte>, after: seq<byte>, src: seq<byte>,
                 d: nat, shift: nat, s: nat, i: nat)
    requires shift < 8 && d + i + 1 < |was| && s + i < |src|
    requires AllMerged(was, before, src, 8 * d + shift, 8 * s, 8 * i)
    requires var t := before[d + i := before[d + i] | Shl(src[s + i], shift)];
             after == t[d + i + 1 := t[d + i + 1] | Shr(src[s + i], 8 - shift)]
    ensures AllMerged(was, after, src, 8 * d + shift, 8 * s, 8 * (i + 1))
  {
    hide Bit, Shl, Shr, BitAt, Merged;
    forall p | 0 <= p < 8 * |after|
      ensures BitAt(after, p) == Merged(was, src, 8 * d + shift, 8 * s, 8 * (i + 1), p)
    {
      CopyStepAt(was, before, after, src, d, shift, s, i, p);
    }
  }

  /** Bits of a partial last byte join after the w whole ones. */
  lemma MergedLeft(was: seq<byte>, src: seq<byte>, lo: nat, s: nat, w: nat, leftover: nat, p: nat)
    requires p < 8 * |was| && s + w < |src| && leftover < 8
    ensures Merged(was, src, lo, 8 * s, 8 * w + leftover, p)
            == (Merged(was, src, lo, 8 * s, 8 * w, p)
                || (lo + 8 * w <= p < lo + 8 * w + leftover && Bit(src[s + w], p - lo - 8 * w)))
  {
    hide Bit, Shl, Shr, BitAt;
    if lo + 8 * w <= p < lo + 8 * w + leftover {
      BitAtIndex(src, s + w, p - lo - 8 * w);
    }
  }

  lemma LeftoverAt(was: seq<byte>, before: seq<byte>, after: seq<byte>, src: seq<byte>,
                   d: nat, shift: nat, s: nat, w: nat, leftover: nat, p: nat)
    requires |was| == |before| == |after| && shift < 8 && 0 < leftover < 8 && p < 8 * |was|
    requires d + w < |was| && s + w < |src| && (shift + leftover > 8 ==> d + w + 1 < |was|)
    requires Narrow(src[s + w], leftover)
    requires BitAt(before, p) == Merged(was, src, 8 * d + shift, 8 * s, 8 * w, p)
    requires var t := before[d + w := before[d + w] | Shl(src[s + w], shift)];
             after == if shift + leftover > 8 then t[d + w + 1 := t[d + w + 1] | Shr(src[s + w], 8 - shift)] else t
    ensures BitAt(after, p) == Merged(was, src, 8 * d + shift, 8 * s, 8 * w + leftover, p)
  {
    hide Bit, Shl, Shr, BitAt, Merged;
    if shift + leftover > 8 {
      PlaceByte(before, d + w, shift, src[s + w], p);
    } else {
      PlaceNarrow(before, d + w, shift, src[s + w], leftover, p);
    }
    MergedLeft(was, src, 8 * d + shift, s, w, leftover, p);
  }

  lemma LeftoverStep(was: seq<byte>, before: seq<byte>, after: seq<byte>, src: seq<byte>,
                     d: nat, shift: nat, s: nat, w: nat, leftover: nat)
    requires |was| == |after| && shift < 8 && 0 < leftover < 8
    requires d + w < |was| && s + w < |src| && (shift + leftover > 8 ==> d + w + 1 < |was|)
    requires Narrow(src[s + w], leftover)
    requires AllMerged(was, before, src, 8 * d + shift, 8 * s, 8 * w)
    requires var t := before[d + w := before[d + w] | Shl(src[s + w], shift)];
             after == if shift + leftover > 8 then t[d + w + 1 := t[d + w + 1] | Shr(src[s + w], 8 - shift)] else t
    ensures AllMerged(was, after, src, 8 * d + shift, 8 * s, 8 * w + leftover)
  {
    hide Bit, Shl, Shr, BitAt, Merged, Narrow;
    forall p | 0 <= p < 8 * |after|
      ensures BitAt(after, p) == Merged(was, src, 8 * d + shift, 8 * s, 8 * w + leftover, p)
    {
      LeftoverAt(was, before, after, src, d, shift, s, w, leftover, p);
    }
  }

  /** Nothing is set yet where `count` bits are to go. */
  ghost predicate ClearBits(s: seq<byte>, lo: nat, count: nat)
    requires lo + count <= 8 * |s|
  {
    forall p :: lo <= p < lo + count ==> !BitAt(s, p)
  }

  /** Replacing whole clear bytes is the same as ORing into them. */
  lemma CopyIsMerge(was: seq<byte>, now: seq<byte>, src: seq<byte>, d: nat, s: nat, n: nat)
    requires d + n <= |was| && s + n <= |src| && ClearBits(was, 8 * d, 8 * n)
    requires now == was[..d] + src[s..s + n] + was[d + n..]
    ensures AllMerged(was, now, src, 8 * d, 8 * s, 8 * n)
  {
    hide Bit, Shl, Shr;
    forall p | 0 <= p < 8 * |now|
      ensures BitAt(now, p) == Merged(was, src, 8 * d, 8 * s, 8 * n, p)
    {
      var q, i := p / 8, p % 8;
      assert p == 8 * q + i;
      if d <= q < d + n {
        assert now[q] == src[s + (q - d)];
        BitAtIndex(src, s + (q - d), i);
      }
    }
  }

  /** The whole bytes of one row of the 1 bpp copy. */
  method CopyWhole(data: array<byte>, index: nat, shift: nat, scratch: array<byte>, index2: nat, w: nat)
    requires data != scratch && shift < 8
    requires 8 * index + shift + 8 * w <= 8 * data.Length && index2 + w <= scratch.Length
    requires ClearBits(data[..], 8 * index + shift, 8 * w)
    modifies data
    ensures AllMerged(old(data[..]), data[..], scratch[..], 8 * index + shift, 8 * index2, 8 * w)
  {
    hide Bit, Shl, Shr, BitAt;
    ghost var was, from := data[..], scratch[..];
    if w > 0 {
      if shift == 0 {
        Memcpy(data, index, scratch, index2, w);
        CopyIsMerge(was, data[..], from, index, index2, w);
      } else {
        CopyBits(data, index, shift, scratch, index2, w);
      }
    }
  }

  lemma ClearFront(s: seq<byte>, lo: nat, count: nat, less: nat)
    requires lo + count <= 8 * |s| && less <= count && ClearBits(s, lo, count)
    ensures ClearBits(s, lo, less)
  {}

  /** One row of the 1 bpp copy: the body of the row loop. */
  method CopyRow(data: array<byte>, index: nat, shift: nat, scratch: array<byte>, index2: nat, w: nat, leftover: nat)
    requires data != scratch && shift < 8 && leftover < 8
    requires 8 * index + shift + 8 * w + leftover <= 8 * data.Length
    requires index2 + w <= scratch.Length && (leftover > 0 ==> index2 + w < scratch.Length)
    requires leftover > 0 ==> Narrow(scratch[index2 + w], leftover)
    requires ClearBits(data[..], 8 * index + shift, 8 * w + leftover)
    modifies data
    ensures AllMerged(old(data[..]), data[..], scratch[..], 8 * index + shift, 8 * index2, 8 * w + leftover)
  {
    hide Bit, Shl, Shr, BitAt, Narrow, AllMerged, ClearBits;
    ghost var was, from := data[..], scratch[..];
    ClearFront(was, 8 * index + shift, 8 * w + leftover, 8 * w);
    CopyWhole(data, index, shift, scratch, index2, w);
    if leftover > 0 {
      ghost var before := data[..];
      OrByte(data, index + w, Shl(scratch[index2 + w], shift));
      if shift + leftover > 8 {
        OrByte(data, index + w + 1, Shr(scratch[index2 + w], 8 - shift));
      }
      LeftoverStep(was, before, data[..], from, index, shift, index2, w, leftover);
    }
  }

  // ----- boxes -----

  predicate InRange(c: int, x: int, w: int) {
    x <= c < x + w
  }

  /** The box [x, x + w) by [y, y + h) of the image now shows the scratch image; every other pixel is as it was. */
  ghost predicate BoxCopied(was: seq<byte>, now: seq<byte>, pitch: nat, f: PixelFormat, x: nat, y: nat,
                            scratch: seq<byte>, spitch: nat, w: nat, h: nat)
    requires RowBytes(f, w) <= spitch && Mul(spitch, h) <= |scratch|
  {
    && |now| == |was|
    && forall c: nat, r: nat :: Holds(|now|, pitch, f, c, r) ==>
         PixelAt(now, pitch, f, c, r) ==
         if InRange(c, x, w) && InRange(r, y, h)
         then (HoldsPixels(f, w, h, spitch, |scratch|, c - x, r - y); PixelAt(scratch, spitch, f, c - x, r - y))
         else PixelAt(was, pitch, f, c, r)
  }

  /** A 1 bpp box is clear where it is about to be filled. */
  ghost predicate ClearBox(s: seq<byte>, pitch: nat, f: PixelFormat, x: nat, y: nat, w: nat, h: nat) {
    f.OneBit? ==> forall c: nat, r: nat :: Holds(|s|, pitch, f, c, r) && InRange(c, x, w) && InRange(r, y, h) ==>
                    PixelAt(s, pitch, f, c, r) == BitPixel(false)
  }

  lemma RowStart(pitch: nat, y: nat, j: nat, x: nat)
    ensures 8 * (Mul(pitch, y + j) + x / 8) + x % 8 == 8 * Mul(pitch, y + j) + x
  {}

  lemma RowFits(pitch: nat, y: nat, j: nat, h: nat)
    requires j < h
    ensures Mul(pitch, y + j) + pitch <= Mul(pitch, y + h)
  {
    MulApart(pitch, y + j, y + h);
  }

  /** The bit position of a pixel in another row lies outside this row's run of bits. */
  lemma OtherRow(pitch: nat, row: nat, x: nat, w: nat, c: nat, r: nat)
    requires r != row && x + w <= 8 * pitch && c < 8 * pitch
    ensures !(8 * Mul(pitch, row) + x <= 8 * Mul(pitch, r) + c < 8 * Mul(pitch, row) + x + w)
  {
    if r < row {
      MulApart(pitch, r, row);
    } else {
      MulApart(pitch, row, r);
    }
  }

  lemma RowClear(was: seq<byte>, now: seq<byte>, pitch: nat, x: nat, y: nat,
                 scratch: seq<byte>, spitch: nat, w: nat, h: nat, j: nat)
    requires RowBytes(OneBit, w) <= spitch && j < h && Mul(spitch, j) <= |scratch|
    requires x + w <= 8 * pitch && Mul(pitch, y + h) <= |now|
    requires ClearBox(was, pitch, OneBit, x, y, w, h)
    requires BoxCopied(was, now, pitch, OneBit, x, y, scratch, spitch, w, j)
    ensures 8 * Mul(pitch, y + j) + x + w <= 8 * |now|
    ensures ClearBits(now, 8 * Mul(pitch, y + j) + x, w)
  {
    hide BitAt;
    RowFits(pitch, y, j, h);
    var lo := 8 * Mul(pitch, y + j) + x;
    forall p | lo <= p < lo + w
      ensures !BitAt(now, p)
    {
      var c := p - lo + x;
      assert Holds(|now|, pitch, OneBit, c, y + j) && InRange(c, x, w);
      assert PixelAt(now, pitch, OneBit, c, y + j) == PixelAt(was, pitch, OneBit, c, y + j);
      assert PixelAt(was, pitch, OneBit, c, y + j) == BitPixel(false);
    }
  }

  /** One pixel of the row that AllMerged describes. */
  lemma MergedPixel(before: seq<byte>, after: seq<byte>, pitch: nat, x: nat, row: nat,
                    scratch: seq<byte>, spitch: nat, w: nat, j: nat, c: nat, r: nat)
    requires 8 * Mul(spitch, j) + w <= 8 * |scratch| && w <= 8 * spitch && Mul(spitch, j) + spitch <= |scratch|
    requires x + w <= 8 * pitch && 8 * Mul(pitch, row) + x + w <= 8 * |before|
    requires ClearBits(before, 8 * Mul(pitch, row) + x, w)
    requires AllMerged(before, after, scratch, 8 * Mul(pitch, row) + x, 8 * Mul(spitch, j), w)
    requires Holds(|after|, pitch, OneBit, c, r)
    ensures PixelAt(after, pitch, OneBit, c, r) ==
            if InRange(c, x, w) && r == row then PixelAt(scratch, spitch, OneBit, c - x, j)
            else PixelAt(before, pitch, OneBit, c, r)
  {
    hide BitAt;
    var p := 8 * Mul(pitch, r) + c;
    if r == row {
      assert BitAt(after, p) == Merged(before, scratch, 8 * Mul(pitch, row) + x, 8 * Mul(spitch, j), w, p);
      if InRange(c, x, w) {
        assert !BitAt(before, p);
      }
    } else {
      OtherRow(pitch, row, x, w, c, r);
      assert BitAt(after, p) == BitAt(before, p);
    }
  }

  lemma RowCopied(was: seq<byte>, before: seq<byte>, after: seq<byte>, pitch: nat, x: nat, y: nat,
                  scratch: seq<byte>, spitch: nat, w: nat, j: nat)
    requires RowBytes(OneBit, w) <= spitch && Mul(spitch, j + 1) <= |scratch| && Mul(spitch, j) + spitch <= |scratch|
    requires Mul(spitch, j) <= |scratch| && 8 * Mul(spitch, j) + w <= 8 * |scratch|
    requires x + w <= 8 * pitch && 8 * Mul(pitch, y + j) + x + w <= 8 * |before|
    requires BoxCopied(was, before, pitch, OneBit, x, y, scratch, spitch, w, j)
    requires ClearBits(before, 8 * Mul(pitch, y + j) + x, w)
    requires AllMerged(before, after, scratch, 8 * Mul(pitch, y + j) + x, 8 * Mul(spitch, j), w)
    ensures BoxCopied(was, after, pitch, OneBit, x, y, scratch, spitch, w, j + 1)
  {
    assert |after| == |before|;
    forall c: nat, r: nat | Holds(|after|, pitch, OneBit, c, r)
      ensures PixelAt(after, pitch, OneBit, c, r) ==
              if InRange(c, x, w) && InRange(r, y, j + 1)
              then (HoldsPixels(OneBit, w, j + 1, spitch, |scratch|, c - x, r - y); PixelAt(scratch, spitch, OneBit, c - x, r - y))
              else PixelAt(was, pitch, OneBit, c, r)
    {
      hide PixelAt, ClearBits, AllMerged, Holds;
      MergedPixel(before, after, pitch, x, y + j, scratch, spitch, w, j, c, r);
    }
  }

  /** *p &= v */
  method AndByte(dst: array<byte>, k: nat, v: byte)
    requires k < dst.Length
    modifies dst
    ensures dst[..] == old(dst[..])[k := old(dst[k]) & v]
  {
    dst[k] := dst[k] & v;
  }

  /** Clears the bits of the last partial byte of each scratch row. */
  method MaskEdges(scratch: array<byte>, spitch: nat, w: nat, leftover: nat, h: nat)
    requires 0 < leftover < 8 && w < spitch && Mul(spitch, h) <= scratch.Length
    modifies scratch
    ensures forall j: nat :: j < h ==> RowEdge(scratch[..], spitch, w, leftover, j)
    ensures forall c: nat, j: nat :: c < 8 * w + leftover && j < h && Holds(scratch.Length, spitch, OneBit, c, j) ==>
              PixelAt(scratch[..], spitch, OneBit, c, j) == PixelAt(old(scratch[..]), spitch, OneBit, c, j)
  {
    hide Bit, LowMask, Narrow, BitAt, PixelAt, Holds;
    ghost var was := scratch[..];
    var j, k := 0, w;
    while j < h
      invariant 0 <= j <= h && k == Mul(spitch, j) + w
      invariant forall i: nat :: i < j ==> RowEdge(scratch[..], spitch, w, leftover, i)
      invariant EdgesKept(was, scratch[..], spitch, w, leftover, h)
    {
      MulApart(spitch, j, h);
      ghost var before := scratch[..];
      AndByte(scratch, k, LowMask(leftover));
      MaskStep(was, before, scratch[..], spitch, w, leftover, h, j);
      assert Mul(spitch, j + 1) == Mul(spitch, j) + spitch;
      j, k := j + 1, k + spitch;
    }
  }

  ghost predicate RowEdge(s: seq<byte>, spitch: nat, w: nat, leftover: nat, j: nat) {
    Mul(spitch, j) + w < |s| && Narrow(s[Mul(spitch, j) + w], leftover)
  }

  ghost predicate EdgesKept(was: seq<byte>, now: seq<byte>, spitch: nat, w: nat, leftover: nat, h: nat) {
    && |now| == |was|
    && forall c: nat, j: nat :: c < 8 * w + leftover && j < h && Holds(|was|, spitch, OneBit, c, j) ==>
         PixelAt(now, spitch, OneBit, c, j) == PixelAt(was, spitch, OneBit, c, j)
  }

  lemma MaskStep(was: seq<byte>, before: seq<byte>, after: seq<byte>, spitch: nat, w: nat, leftover: nat, h: nat, j: nat)
    requires 0 < leftover < 8 && w < spitch && Mul(spitch, h) <= |was| && j < h
    requires EdgesKept(was, before, spitch, w, leftover, h) && Mul(spitch, j) + w < |before|
    requires after == before[Mul(spitch, j) + w := before[Mul(spitch, j) + w] & LowMask(leftover)]
    requires forall i: nat :: i < j ==> RowEdge(before, spitch, w, leftover, i)
    ensures EdgesKept(was, after, spitch, w, leftover, h)
    ensures forall i: nat :: i < j + 1 ==> RowEdge(after, spitch, w, leftover, i)
  {
    hide Bit, LowMask, Mul;
    var k := Mul(spitch, j) + w;
    forall i: nat | i < j + 1
      ensures RowEdge(after, spitch, w, leftover, i)
    {
      if i < j {
        assert RowEdge(before, spitch, w, leftover, i);
        MulApart(spitch, i, j);
      } else {
        forall b | leftover <= b < 8 ensures !Bit(after[k], b) {
          MaskBit(before[k], leftover, b);
        }
      }
    }
    forall c: nat, i: nat | c < 8 * w + leftover && i < h && Holds(|was|, spitch, OneBit, c, i)
      ensures PixelAt(after, spitch, OneBit, c, i) == PixelAt(was, spitch, OneBit, c, i)
    {
      assert PixelAt(before, spitch, OneBit, c, i) == PixelAt(was, spitch, OneBit, c, i);
      var p := 8 * Mul(spitch, i) + c;
      if p / 8 == k {
        SameRow(spitch, i, j, c, w);
        MaskBit(before[k], leftover, p % 8);
      }
    }
  }

  /** A pixel whose byte is the edge byte of row j is in row j. */
  lemma SameRow(spitch: nat, i: nat, j: nat, c: nat, w: nat)
    requires c < 8 * spitch && w < spitch && (8 * Mul(spitch, i) + c) / 8 == Mul(spitch, j) + w
    ensures i == j && c / 8 == w
  {
    if i < j {
      MulApart(spitch, i, j);
    } else if j < i {
      MulApart(spitch, j, i);
    }
  }

  /** Reading the box from an equal scratch image gives an equal copy. */
  lemma BoxFromEqualScratch(was: seq<byte>, now: seq<byte>, pitch: nat, x: nat, y: nat,
                            masked: seq<byte>, scratch: seq<byte>, spitch: nat, w: nat, h: nat)
    requires RowBytes(OneBit, w) <= spitch && Mul(spitch, h) <= |masked| == |scratch|
    requires BoxCopied(was, now, pitch, OneBit, x, y, masked, spitch, w, h)
    requires forall c: nat, j: nat :: c < w && j < h && Holds(|scratch|, spitch, OneBit, c, j) ==>
               PixelAt(masked, spitch, OneBit, c, j) == PixelAt(scratch, spitch, OneBit, c, j)
    ensures BoxCopied(was, now, pitch, OneBit, x, y, scratch, spitch, w, h)
  {
    hide PixelAt, Holds;
    forall c: nat, r: nat | Holds(|now|, pitch, OneBit, c, r)
      ensures PixelAt(now, pitch, OneBit, c, r) ==
              if InRange(c, x, w) && InRange(r, y, h)
              then (HoldsPixels(OneBit, w, h, spitch, |scratch|, c - x, r - y); PixelAt(scratch, spitch, OneBit, c - x, r - y))
              else PixelAt(was, pitch, OneBit, c, r)
    {
      if InRange(c, x, w) && InRange(r, y, h) {
        HoldsPixels(OneBit, w, h, spitch, |scratch|, c - x, r - y);
      }
    }
  }

  /** The depth 1 copy: each scratch bit (c, r) lands on data bit (x0 + c, y0 + r), whatever the shift. */
  method CopyBitBox(data: array<byte>, pitch: nat, x0: nat, y0: nat,
                    scratch: array<byte>, spitch: nat, w0: nat, h: nat)
    requires data != scratch
    requires RowBytes(OneBit, w0) <= spitch && Mul(spitch, h) <= scratch.Length
    requires x0 + w0 <= 8 * pitch && Mul(pitch, y0 + h) <= data.Length
    requires ClearBox(data[..], pitch, OneBit, x0, y0, w0, h)
    modifies data, scratch
    ensures BoxCopied(old(data[..]), data[..], pitch, OneBit, x0, y0, old(scratch[..]), spitch, w0, h)
  {
    hide Bit, BitAt, Narrow, PixelAt, ClearBits, AllMerged;
    ghost var was, image := data[..], scratch[..];
    var shift, x, leftover, w := x0 % 8, x0 / 8, w0 % 8, w0 / 8;
    if leftover > 0 {
      MaskEdges(scratch, spitch, w, leftover, h);
    }
    ghost var masked := scratch[..];
    var j, index, index2 := 0, Mul(pitch, y0) + x, 0;
    while j < h
      invariant 0 <= j <= h && index == Mul(pitch, y0 + j) + x && index2 == Mul(spitch, j)
      invariant scratch[..] == masked && Mul(spitch, j) <= scratch.Length
      invariant BoxCopied(was, data[..], pitch, OneBit, x0, y0, masked, spitch, w0, j)
    {
      ghost var before := data[..];
      MulApart(spitch, j, h);
      RowStart(pitch, y0, j, x0);
      RowClear(was, before, pitch, x0, y0, masked, spitch, w0, h, j);
      assert leftover > 0 ==> RowEdge(masked, spitch, w, leftover, j);
      CopyRow(data, index, shift, scratch, index2, w, leftover);
      assert Mul(spitch, j + 1) == Mul(spitch, j) + spitch && Mul(pitch, y0 + (j + 1)) == Mul(pitch, y0 + j) + pitch;
      RowCopied(was, before, data[..], pitch, x0, y0, masked, spitch, w0, j);
      j, index, index2 := j + 1, index + pitch, index2 + spitch;
    }
    BoxFromEqualScratch(was, data[..], pitch, x0, y0, masked, image, spitch, w0, h);
  }

  lemma ByteSpan(n: nat, c: nat, x: nat, w: nat)
    ensures x <= c < x + w ==> Mul(n, x) <= Mul(n, c) && Mul(n, c) + n <= Mul(n, x + w) && Mul(n, c) - Mul(n, x) == Mul(n, c - x)
    ensures c < x ==> Mul(n, c) + n <= Mul(n, x)
    ensures x + w <= c ==> Mul(n, x + w) <= Mul(n, c)
  {
    if x <= c < x + w {
      MulApart(n, c, x + w);
      MulAdd(n, x, c - x);
    } else if c < x {
      MulApart(n, c, x);
    } else {
      MulMonotone(n, x + w, c);
    }
  }

  /** One row of the whole-byte copy, seen pixel by pixel. */
  lemma ByteRowCopied(was: seq<byte>, before: seq<byte>, after: seq<byte>, pitch: nat, n: nat, x: nat, y: nat,
                      scratch: seq<byte>, spitch: nat, w: nat, j: nat)
    requires Mul(n, w) <= spitch && Mul(spitch, j + 1) <= |scratch| && Mul(spitch, j) + spitch <= |scratch| && Mul(spitch, j) <= |scratch|
    requires Mul(n, x + w) <= pitch && Mul(n, x + w) == Mul(n, x) + Mul(n, w) && Mul(pitch, y + j) + pitch <= |before|
    requires BoxCopied(was, before, pitch, WholeBytes(n), x, y, scratch, spitch, w, j)
    requires var d := Mul(pitch, y + j) + Mul(n, x);
             after == before[..d] + scratch[Mul(spitch, j)..Mul(spitch, j) + Mul(n, w)] + before[d + Mul(n, w)..]
    ensures BoxCopied(was, after, pitch, WholeBytes(n), x, y, scratch, spitch, w, j + 1)
  {
    hide PixelAt, Mul;
    assert |after| == |before|;
    forall c: nat, r: nat | Holds(|after|, pitch, WholeBytes(n), c, r)
      ensures PixelAt(after, pitch, WholeBytes(n), c, r) ==
              if InRange(c, x, w) && InRange(r, y, j + 1)
              then (HoldsPixels(WholeBytes(n), w, j + 1, spitch, |scratch|, c - x, r - y); PixelAt(scratch, spitch, WholeBytes(n), c - x, r - y))
              else PixelAt(was, pitch, WholeBytes(n), c, r)
    {
      if r == y + j && InRange(c, x, w) {
        BytePixelInside(before, after, pitch, n, x, y + j, scratch, spitch, w, j, c);
      } else {
        BytePixelOutside(before, after, pitch, n, x, y + j, scratch, Mul(spitch, j), w, c, r);
      }
    }
  }

  lemma SubSlice(src: seq<byte>, s: nat, m: nat, k: nat, n: nat)
    requires k + n <= m && s + m <= |src|
    ensures src[s..s + m][k..k + n] == src[s + k..s + k + n]
  {
    var whole := src[s..s + m];
    var part, direct := whole[k..k + n], src[s + k..s + k + n];
    forall i | 0 <= i < n ensures part[i] == direct[i] {
      assert part[i] == whole[k + i];
    }
  }

  lemma ReadFirst(a: seq<byte>, b: seq<byte>, at: nat, n: nat)
    requires at + n <= |a|
    ensures (a + b)[at..at + n] == a[at..at + n]
  {
    assert (a + b)[..|a|] == a;
    SubSlice(a + b, 0, |a|, at, n);
  }

  lemma ReadSecond(a: seq<byte>, b: seq<byte>, at: nat, n: nat)
    requires |a| <= at && at + n <= |a| + |b|
    ensures (a + b)[at..at + n] == b[at - |a|..at - |a| + n]
  {
    assert (a + b)[|a|..] == b;
    SubSlice(a + b, |a|, |b|, at - |a|, n);
  }

  /** Where the bytes of pixel (c, r) lie relative to the run copied for one row. */
  lemma BytePlace(pitch: nat, n: nat, x: nat, row: nat, w: nat, c: nat, r: nat)
    requires Mul(n, x + w) == Mul(n, x) + Mul(n, w) <= pitch && Mul(n, c) + n <= pitch
    ensures var d, at := Mul(pitch, row) + Mul(n, x), Mul(pitch, r) + Mul(n, c);
            if InRange(c, x, w) && r == row
            then at == d + Mul(n, c - x) && Mul(n, c - x) + n <= Mul(n, w) && d <= at
            else at + n <= d || d + Mul(n, w) <= at
  {
    ByteSpan(n, c, x, w);
    if r < row {
      MulApart(pitch, r, row);
    } else if row < r {
      MulApart(pitch, row, r);
    } else if InRange(c, x, w) {
      MulApart(n, c - x, w);
    }
  }

  lemma BytePixelInside(before: seq<byte>, after: seq<byte>, pitch: nat, n: nat, x: nat, row: nat,
                        scratch: seq<byte>, spitch: nat, w: nat, j: nat, c: nat)
    requires Mul(n, w) <= spitch && Mul(spitch, j) + spitch <= |scratch| && InRange(c, x, w)
    requires Mul(n, x + w) == Mul(n, x) + Mul(n, w) <= pitch && Mul(pitch, row) + pitch <= |before|
    requires var d := Mul(pitch, row) + Mul(n, x);
             after == before[..d] + scratch[Mul(spitch, j)..Mul(spitch, j) + Mul(n, w)] + before[d + Mul(n, w)..]
    requires Holds(|after|, pitch, WholeBytes(n), c, row)
    ensures Holds(|scratch|, spitch, WholeBytes(n), c - x, j)
    ensures PixelAt(after, pitch, WholeBytes(n), c, row) == PixelAt(scratch, spitch, WholeBytes(n), c - x, j)
  {
    hide Mul;
    BytePlace(pitch, n, x, row, w, c, row);
    var d, at := Mul(pitch, row) + Mul(n, x), Mul(pitch, row) + Mul(n, c);
    var run := scratch[Mul(spitch, j)..Mul(spitch, j) + Mul(n, w)];
    ReadFirst(before[..d] + run, before[d + Mul(n, w)..], at, n);
    ReadSecond(before[..d], run, at, n);
    SubSlice(scratch, Mul(spitch, j), Mul(n, w), at - d, n);
  }

  lemma BytePixelOutside(before: seq<byte>, after: seq<byte>, pitch: nat, n: nat, x: nat, row: nat,
                         scratch: seq<byte>, s: nat, w: nat, c: nat, r: nat)
    requires s + Mul(n, w) <= |scratch| && !(InRange(c, x, w) && r == row)
    requires Mul(n, x + w) == Mul(n, x) + Mul(n, w) <= pitch && Mul(pitch, row) + pitch <= |before|
    requires var d := Mul(pitch, row) + Mul(n, x);
             after == before[..d] + scratch[s..s + Mul(n, w)] + before[d + Mul(n, w)..]
    requires Holds(|after|, pitch, WholeBytes(n), c, r)
    ensures |after| == |before|
    ensures PixelAt(after, pitch, WholeBytes(n), c, r) == PixelAt(before, pitch, WholeBytes(n), c, r)
  {
    hide Mul;
    BytePlace(pitch, n, x, row, w, c, r);
    var d, at := Mul(pitch, row) + Mul(n, x), Mul(pitch, r) + Mul(n, c);
    var run := scratch[s..s + Mul(n, w)];
    if at + n <= d {
      ReadFirst(before[..d] + run, before[d + Mul(n, w)..], at, n);
      ReadFirst(before[..d], run, at, n);
      SubSlice(before, 0, d, at, n);
    } else {
      ReadSecond(before[..d] + run, before[d + Mul(n, w)..], at, n);
      SubSlice(before, d + Mul(n, w), |before| - d - Mul(n, w), at - d - Mul(n, w), n);
    }
  }

  /** The copy for depths of whole bytes per pixel. */
  method CopyByteBox(data: array<byte>, pitch: nat, n: nat, x0: nat, y0: nat,
                     scratch: array<byte>, spitch: nat, w0: nat, h: nat)
    requires data != scratch
    requires Mul(n, w0) <= spitch && Mul(spitch, h) <= scratch.Length
    requires Mul(n, x0 + w0) <= pitch && Mul(pitch, y0 + h) <= data.Length
    modifies data
    ensures BoxCopied(old(data[..]), data[..], pitch, WholeBytes(n), x0, y0, scratch[..], spitch, w0, h)
  {
    hide PixelAt;
    ghost var was, image := data[..], scratch[..];
    var x, w := Mul(n, x0), Mul(n, w0);
    MulAdd(n, x0, w0);
    var j := 0;
    while j < h
      invariant 0 <= j <= h && scratch[..] == image && Mul(spitch, j) <= scratch.Length
      invariant BoxCopied(was, data[..], pitch, WholeBytes(n), x0, y0, image, spitch, w0, j)
    {
      ghost var before := data[..];
      MulApart(spitch, j, h);
      RowFits(pitch, y0, j, h);
      Memcpy(data, Mul(pitch, y0 + j) + x, scratch, Mul(spitch, j), w);
      assert Mul(spitch, j + 1) == Mul(spitch, j) + spitch;
      ByteRowCopied(was, before, data[..], pitch, n, x0, y0, image, spitch, w0, j);
      j := j + 1;
    }
  }
}
