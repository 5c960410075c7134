/**
 The monochrome form of a cursor: one bit per pixel for the image and one for
 the mask, rows padded to whole bytes, against 32-bit pixels.
 */
module MonoCursor {
  import opened Basics

  type Pixel = bv32

  /** cursor_get_mono_bpl */
  function BytesPerLine(w: nat): nat { (w + 7) / 8 }

  /** The bit of pixel k of a byte, leftmost first. */
  function BitMask(k: nat): bv8 {
    if k == 0 then 0x80 else if k == 1 then 0x40 else if k == 2 then 0x20 else if k == 3 then 0x10
    else if k == 4 then 0x08 else if k == 5 then 0x04 else if k == 6 then 0x02 else 0x01
  }

  predicate HasBit(b: bv8, k: nat) { b & BitMask(k) != 0 }

  lemma MaskMoves(k: nat)
    requires k < 8
    ensures BitMask(k) >> 1 == if k == 7 then 0 else BitMask(k + 1)
    ensures BitMask(k) != 0
  {}

  lemma BitAfterOr(b: bv8, k: nat, j: nat)
    requires k < 8 && j < 8
    ensures HasBit(b | BitMask(k), j) <==> j == k || HasBit(b, j)
  {}

  lemma NoBits(j: nat)
    ensures !HasBit(0, j)
  {}

  // ----- where a pixel's bit is

  function ByteOf(w: nat, x: nat, y: nat): nat { y * BytesPerLine(w) + x / 8 }

  /** Bit k of byte b is the bit of a pixel, not padding. */
  predicate IsPixel(w: nat, b: nat, k: nat) { w > 0 && 8 * (b % BytesPerLine(w)) + k < w }

  function PixelOf(w: nat, b: nat, k: nat): nat
    requires w > 0
  {
    (b / BytesPerLine(w)) * w + (8 * (b % BytesPerLine(w)) + k)
  }

  predicate BitIn(bytes: seq<bv8>, b: nat, k: nat) { b < |bytes| && HasBit(bytes[b], k) }

  function Column(w: nat, i: nat): nat
    requires w > 0
  {
    i % w
  }

  function Row(w: nat, i: nat): nat
    requires w > 0
  {
    i / w
  }

  predicate BitOfPixel(bytes: seq<bv8>, w: nat, i: nat)
    requires w > 0
  {
    BitIn(bytes, ByteOf(w, Column(w, i), Row(w, i)), Column(w, i) % 8)
  }

  lemma RowEnd(y: nat, h: nat, n: nat, x: nat)
    requires y < h && x < n
    ensures y * n + x < h * n
  {
    assert (y + 1) * n <= h * n;
  }

  /** A pixel's bit lies inside the packed rows, and leads back to the pixel. */
  lemma PixelHasByte(w: nat, h: nat, x: nat, y: nat)
    requires x < w && y < h
    ensures y * w + x < h * w && Column(w, y * w + x) == x && Row(w, y * w + x) == y
    ensures var b := ByteOf(w, x, y);
            && b < h * BytesPerLine(w) && b / BytesPerLine(w) == y && b % BytesPerLine(w) == x / 8
            && IsPixel(w, b, x % 8) && PixelOf(w, b, x % 8) == y * w + x
  {
    var bpl := BytesPerLine(w);
    RowEnd(y, h, w, x);
    DivIs(y * w + x, w, y, x);
    assert x / 8 < bpl;
    RowEnd(y, h, bpl, x / 8);
    DivIs(y * bpl + x / 8, bpl, y, x / 8);
  }

  /** A bit that is not padding belongs to one pixel. */
  lemma ByteHasPixel(w: nat, h: nat, b: nat, k: nat, i: nat)
    requires w > 0 && k < 8 && IsPixel(w, b, k) && b < h * BytesPerLine(w) && i == PixelOf(w, b, k)
    ensures i < h * w && ByteOf(w, Column(w, i), Row(w, i)) == b && Column(w, i) % 8 == k
  {
    var bpl := BytesPerLine(w);
    var x, y := 8 * (b % bpl) + k, b / bpl;
    RowOf(b, bpl, h);
    RowEnd(y, h, w, x);
    DivIs(y * w + x, w, y, x);
  }

  lemma RowOf(b: nat, n: nat, h: nat)
    requires n > 0 && b < h * n
    ensures b / n < h && b == (b / n) * n + b % n
  {
    var y := b / n;
    assert b == y * n + b % n;
    assert y >= h ==> y * n >= h * n;
  }

  // ----- meaning

  const OPAQUE: Pixel := 0xff000000

  predicate IsOpaque(p: Pixel) { p & OPAQUE == OPAQUE }

  /** The pixel for an image bit and a mask bit. */
  function Colour(foreground: Pixel, background: Pixel, transparent: bool, image: bool, mask: bool): Pixel {
    if transparent && mask then 0
    else if !transparent && !mask then 0
    else if image then OPAQUE | foreground
    else OPAQUE | background
  }

  ghost predicate IsSet(w: nat, h: nat, foreground: Pixel, background: Pixel, image: seq<bv8>, transparent: bool,
                        mask: seq<bv8>, data: seq<Pixel>) {
    && |data| == h * w
    && forall i: nat | i < |data| ::
         w > 0 && data[i] == Colour(foreground, background, transparent, BitOfPixel(image, w, i), BitOfPixel(mask, w, i))
  }

  /** The bit is that of a pixel among the first n, and the pixel passes the test. */
  predicate Shows(w: nat, data: seq<Pixel>, keep: Pixel -> bool, n: nat, b: nat, k: nat) {
    IsPixel(w, b, k) && PixelOf(w, b, k) < n && PixelOf(w, b, k) < |data| && keep(data[PixelOf(w, b, k)])
  }

  /** The bits of the pixels with the property, and no others: padding is zero. */
  ghost predicate IsPacked(w: nat, h: nat, data: seq<Pixel>, keep: Pixel -> bool, out: seq<bv8>, upTo: nat) {
    && |data| == h * w && |out| == h * BytesPerLine(w)
    && forall b: nat, k: nat | b < |out| && k < 8 ::
         BitIn(out, b, k) <==> Shows(w, data, keep, upTo, b, k)
  }

  function ImageTest(foreground: Pixel): Pixel -> bool { p => IsOpaque(p) && p & 0x00ffffff == foreground }

  function MaskTest(transparent: bool): Pixel -> bool { p => IsOpaque(p) != transparent }

  // ----- round trips

  lemma MaskComesBack(foreground: Pixel, background: Pixel, transparent: bool, image: bool, mask: bool)
    ensures MaskTest(transparent)(Colour(foreground, background, transparent, image, mask)) == mask
  {}

  predicate Separate(foreground: Pixel, background: Pixel) {
    foreground & OPAQUE == 0 && background & 0x00ffffff != foreground
  }

  /** The image bit comes back from this pixel, or zero if it is transparent. */
  predicate ComesBack(foreground: Pixel, background: Pixel, transparent: bool, image: bool, mask: bool) {
    ImageTest(foreground)(Colour(foreground, background, transparent, image, mask)) == (image && mask != transparent)
  }

  lemma ImageComesBack(foreground: Pixel, background: Pixel, transparent: bool, image: bool, mask: bool)
    requires Separate(foreground, background)
    ensures ComesBack(foreground, background, transparent, image, mask)
  {
    ForegroundSurvives(foreground);
    BackgroundSurvives(background);
    NothingIsTransparent();
  }

  lemma ForegroundSurvives(c: Pixel)
    ensures (OPAQUE | c) & OPAQUE == OPAQUE
    ensures (OPAQUE | c) & 0x00ffffff == c <==> c & OPAQUE == 0
  {}

  lemma BackgroundSurvives(c: Pixel)
    ensures (OPAQUE | c) & OPAQUE == OPAQUE && (OPAQUE | c) & 0x00ffffff == c & 0x00ffffff
  {}

  lemma NothingIsTransparent()
    ensures !IsOpaque(0)
  {}

  /** Every opaque pixel gives back its image bit exactly for colours that are separate. */
  lemma ImageComesBackIff(foreground: Pixel, background: Pixel)
    ensures (forall transparent: bool, image: bool, mask: bool :: ComesBack(foreground, background, transparent, image, mask))
       <==> Separate(foreground, background)
  {
    hide Separate, ComesBack;
    if Separate(foreground, background) {
      forall transparent: bool, image: bool, mask: bool ensures ComesBack(foreground, background, transparent, image, mask) {
        ImageComesBack(foreground, background, transparent, image, mask);
      }
    } else {
      SomeBitLost(foreground, background);
    }
  }

  lemma SomeBitLost(foreground: Pixel, background: Pixel)
    requires !Separate(foreground, background)
    ensures !ComesBack(foreground, background, false, true, true) || !ComesBack(foreground, background, false, false, true)
  {
    ForegroundSurvives(foreground);
    BackgroundSurvives(background);
  }

  /** cursor_get_mono_mask after cursor_set_mono: the mask bit for bit, for either setting, with zero padding. */
  lemma MaskRoundTrip(w: nat, h: nat, foreground: Pixel, background: Pixel, image: seq<bv8>, transparent: bool,
                      mask: seq<bv8>, data: seq<Pixel>, out: seq<bv8>)
    requires IsSet(w, h, foreground, background, image, transparent, mask, data)
    requires IsPacked(w, h, data, MaskTest(transparent), out, |data|)
    ensures |out| == h * BytesPerLine(w)
    ensures forall b: nat, k: nat | b < |out| && k < 8 :: BitIn(out, b, k) <==> IsPixel(w, b, k) && BitIn(mask, b, k)
  {
    hide HasBit, Colour, MaskTest, BytesPerLine, ByteOf;
    forall b: nat, k: nat | b < |out| && k < 8 ensures BitIn(out, b, k) <==> IsPixel(w, b, k) && BitIn(mask, b, k) {
      if IsPixel(w, b, k) {
        var i := PixelOf(w, b, k);
        ByteHasPixel(w, h, b, k, i);
        MaskComesBack(foreground, background, transparent, BitOfPixel(image, w, i), BitOfPixel(mask, w, i));
      }
    }
  }

  /** cursor_get_mono_image after cursor_set_mono: the image bits where the mask lets them through, zero elsewhere. */
  lemma ImageRoundTrip(w: nat, h: nat, foreground: Pixel, background: Pixel, image: seq<bv8>, transparent: bool,
                       mask: seq<bv8>, data: seq<Pixel>, out: seq<bv8>)
    requires Separate(foreground, background)
    requires IsSet(w, h, foreground, background, image, transparent, mask, data)
    requires IsPacked(w, h, data, ImageTest(foreground), out, |data|)
    ensures |out| == h * BytesPerLine(w)
    ensures forall b: nat, k: nat | b < |out| && k < 8 ::
              BitIn(out, b, k) <==> IsPixel(w, b, k) && BitIn(image, b, k) && BitIn(mask, b, k) != transparent
  {
    hide HasBit, Colour, ImageTest, BytesPerLine, ByteOf, Separate;
    forall b: nat, k: nat | b < |out| && k < 8
      ensures BitIn(out, b, k) <==> IsPixel(w, b, k) && BitIn(image, b, k) && BitIn(mask, b, k) != transparent
    {
      if IsPixel(w, b, k) {
        var i := PixelOf(w, b, k);
        ByteHasPixel(w, h, b, k, i);
        ImageComesBack(foreground, background, transparent, BitOfPixel(image, w, i), BitOfPixel(mask, w, i));
      }
    }
  }

  // ----- the code

  /** A row starts at pixel p0 and at byte `row`. */
  predicate RowAt(w: nat, h: nat, y: nat, p0: nat, row: nat) { y < h && p0 == y * w && row == y * BytesPerLine(w) }

  lemma PixelInRow(w: nat, h: nat, x: nat, y: nat, p0: nat, row: nat)
    requires RowAt(w, h, y, p0, row) && x < w
    ensures p0 + x < h * w && Column(w, p0 + x) == x && Row(w, p0 + x) == y
    ensures ByteOf(w, x, y) == row + x / 8 < h * BytesPerLine(w)
    ensures IsPixel(w, row + x / 8, x % 8) && PixelOf(w, row + x / 8, x % 8) == p0 + x
  {
    PixelHasByte(w, h, x, y);
  }

  lemma OnlyPixelInRow(w: nat, h: nat, x: nat, y: nat, p0: nat, row: nat, b: nat, k: nat)
    requires RowAt(w, h, y, p0, row) && x < w && k < 8 && b < h * BytesPerLine(w)
    requires IsPixel(w, b, k) && PixelOf(w, b, k) == p0 + x
    ensures b == row + x / 8 && k == x % 8
  {
    hide IsPixel, PixelOf, BytesPerLine, ByteOf, Column, Row, RowAt;
    PixelInRow(w, h, x, y, p0, row);
    ByteHasPixel(w, h, b, k, p0 + x);
  }

  /** The bit of the next pixel, starting again after the last of a byte. */
  function Rotate(bit: bv8): bv8 { if bit >> 1 == 0 then 0x80 else bit >> 1 }

  lemma RotateMask(x: nat)
    ensures Rotate(BitMask(x % 8)) == BitMask((x + 1) % 8)
  {
    MaskMoves(x % 8);
    assert (x + 1) % 8 == if x % 8 == 7 then 0 else x % 8 + 1;
  }

  /** The first n pixels are set. */
  ghost predicate SetUpTo(w: nat, foreground: Pixel, background: Pixel, image: seq<bv8>, transparent: bool,
                          mask: seq<bv8>, data: seq<Pixel>, n: nat)
  {
    && n <= |data|
    && forall i: nat | i < n ::
         w > 0 && data[i] == Colour(foreground, background, transparent, BitOfPixel(image, w, i), BitOfPixel(mask, w, i))
  }

  lemma NothingSet(w: nat, foreground: Pixel, background: Pixel, image: seq<bv8>, transparent: bool,
                   mask: seq<bv8>, data: seq<Pixel>)
    ensures SetUpTo(w, foreground, background, image, transparent, mask, data, 0)
  {}

  lemma AllSet(w: nat, h: nat, foreground: Pixel, background: Pixel, image: seq<bv8>, transparent: bool,
               mask: seq<bv8>, data: seq<Pixel>)
    requires |data| == h * w && SetUpTo(w, foreground, background, image, transparent, mask, data, |data|)
    ensures IsSet(w, h, foreground, background, image, transparent, mask, data)
  {
    hide Colour, BitOfPixel;
  }

  lemma SetStep(w: nat, h: nat, foreground: Pixel, background: Pixel, image: seq<bv8>, transparent: bool,
                mask: seq<bv8>, data: seq<Pixel>, x: nat, y: nat, p0: nat, row: nat)
    requires |data| == h * w && |image| == |mask| == h * BytesPerLine(w)
    requires RowAt(w, h, y, p0, row) && x < w && SetUpTo(w, foreground, background, image, transparent, mask, data, p0 + x)
    ensures p0 + x < |data| && row + x / 8 < |image| && row + x / 8 < |mask|
    ensures var colour := Colour(foreground, background, transparent, HasBit(image[row + x / 8], x % 8), HasBit(mask[row + x / 8], x % 8));
            SetUpTo(w, foreground, background, image, transparent, mask, data[p0 + x := colour], p0 + x + 1)
  {
    hide Colour, HasBit, BytesPerLine, ByteOf, Column, Row, RowAt, IsPixel, PixelOf;
    PixelInRow(w, h, x, y, p0, row);
  }

  lemma ShowsOneMore(w: nat, h: nat, data: seq<Pixel>, keep: Pixel -> bool, x: nat, y: nat, p0: nat, row: nat, b: nat, k: nat)
    requires RowAt(w, h, y, p0, row) && x < w && b < h * BytesPerLine(w) && k < 8 && |data| == h * w
    ensures p0 + x < |data|
    ensures Shows(w, data, keep, p0 + x + 1, b, k)
       <==> Shows(w, data, keep, p0 + x, b, k) || (b == row + x / 8 && k == x % 8 && keep(data[p0 + x]))
  {
    hide BytesPerLine, ByteOf, Column, Row, RowAt, IsPixel, PixelOf;
    PixelInRow(w, h, x, y, p0, row);
    if IsPixel(w, b, k) && PixelOf(w, b, k) == p0 + x {
      OnlyPixelInRow(w, h, x, y, p0, row, b, k);
    }
  }

  /** One more pixel packed. */
  lemma PackStep(w: nat, h: nat, data: seq<Pixel>, keep: Pixel -> bool, out: seq<bv8>, x: nat, y: nat, p0: nat, row: nat)
    requires RowAt(w, h, y, p0, row) && x < w && IsPacked(w, h, data, keep, out, p0 + x)
    ensures p0 + x < |data| && row + x / 8 < |out|
    ensures IsPacked(w, h, data, keep,
                     if keep(data[p0 + x]) then out[row + x / 8 := out[row + x / 8] | BitMask(x % 8)] else out, p0 + x + 1)
  {
    hide BitMask, HasBit, BytesPerLine, RowAt, Shows, IsPixel, PixelOf, ByteOf;
    PixelInRow(w, h, x, y, p0, row);
    var b0, p := row + x / 8, p0 + x;
    var out' := if keep(data[p]) then out[b0 := out[b0] | BitMask(x % 8)] else out;
    forall b: nat, k: nat | b < |out| && k < 8 ensures BitIn(out', b, k) <==> Shows(w, data, keep, p + 1, b, k) {
      BitAfterOr(out[b0], x % 8, k);
      ShowsOneMore(w, h, data, keep, x, y, p0, row, b, k);
    }
  }

  lemma NothingPacked(w: nat, h: nat, data: seq<Pixel>, keep: Pixel -> bool, out: seq<bv8>)
    requires |data| == h * w && |out| == h * BytesPerLine(w) && forall b | 0 <= b < |out| :: out[b] == 0
    ensures IsPacked(w, h, data, keep, out, 0)
  {
    hide BytesPerLine, BitMask;
    forall b: nat, k: nat | b < |out| && k < 8 ensures !BitIn(out, b, k) {
      NoBits(k);
    }
  }

  lemma NextRow(w: nat, h: nat, y: nat, p0: nat, row: nat)
    requires RowAt(w, h, y, p0, row)
    ensures if y + 1 < h then RowAt(w, h, y + 1, p0 + w, row + BytesPerLine(w)) else p0 + w == h * w
  {
    assert (y + 1) * w == y * w + w;
    assert (y + 1) * BytesPerLine(w) == y * BytesPerLine(w) + BytesPerLine(w);
  }

  lemma FirstRow(w: nat, h: nat)
    ensures if 0 < h then RowAt(w, h, 0, 0, 0) else h * w == 0
    ensures BitMask(0) == 0x80
  {}

  class Cursor {
    const width: nat
    const height: nat
    const data: array<Pixel>

    ghost predicate Valid() { data.Length == height * width }

    constructor (width: nat, height: nat)
      ensures Valid() && this.width == width && this.height == height && fresh(data)
    {
      this.width, this.height := width, height;
      data := new Pixel[height * width];
    }

    /** The inner loop of cursor_set_mono. */
    method SetRow(foreground: Pixel, background: Pixel, image: seq<bv8>, transparent: bool, mask: seq<bv8>,
                  ghost y: nat, p0: nat, row: nat)
      requires Valid() && |image| == |mask| == height * BytesPerLine(width) && RowAt(width, height, y, p0, row)
      requires SetUpTo(width, foreground, background, image, transparent, mask, data[..], p0)
      modifies data
      ensures SetUpTo(width, foreground, background, image, transparent, mask, data[..], p0 + width)
    {
      hide BitMask, BytesPerLine, RowAt, SetUpTo, Colour;
      var bit: bv8 := 0x80;
      FirstRow(width, height);
      var x := 0;
      while x < width
        invariant 0 <= x <= width && bit == BitMask(x % 8)
        invariant SetUpTo(width, foreground, background, image, transparent, mask, data[..], p0 + x)
      {
        SetStep(width, height, foreground, background, image, transparent, mask, data[..], x, y, p0, row);
        ghost var before := data[..];
        var i, m := image[row + x / 8] & bit != 0, mask[row + x / 8] & bit != 0;
        ColourIs(foreground, background, transparent, i, m);
        if transparent && m {
          data[p0 + x] := 0;
        } else if !transparent && !m {
          data[p0 + x] := 0;
        } else if i {
          data[p0 + x] := OPAQUE | foreground;
        } else {
          data[p0 + x] := OPAQUE | background;
        }
        assert data[..] == before[p0 + x := data[p0 + x]];
        RotateMask(x);
        bit := Rotate(bit);
        x := x + 1;
      }
    }

    /** cursor_set_mono */
    method SetMono(foreground: Pixel, background: Pixel, image: seq<bv8>, transparent: bool, mask: seq<bv8>)
      requires Valid() && |image| == |mask| == height * BytesPerLine(width)
      modifies data
      ensures IsSet(width, height, foreground, background, image, transparent, mask, data[..])
    {
      hide RowAt, BytesPerLine, SetUpTo;
      NothingSet(width, foreground, background, image, transparent, mask, data[..]);
      var p: nat, row: nat, y := 0, 0, 0;
      FirstRow(width, height);
      while y < height
        invariant 0 <= y <= height && SetUpTo(width, foreground, background, image, transparent, mask, data[..], p)
        invariant if y < height then RowAt(width, height, y, p, row) else p == height * width
      {
        SetRow(foreground, background, image, transparent, mask, y, p, row);
        NextRow(width, height, y, p, row);
        p := p + width;
        row := row + BytesPerLine(width);
        y := y + 1;
      }
      AllSet(width, height, foreground, background, image, transparent, mask, data[..]);
    }

    /** The inner loop of the two getters, which differ in the test. */
    method PackRow(keep: Pixel -> bool, out: array<bv8>, ghost y: nat, p0: nat, row: nat)
      requires Valid() && RowAt(width, height, y, p0, row) && IsPacked(width, height, data[..], keep, out[..], p0)
      modifies out
      ensures IsPacked(width, height, data[..], keep, out[..], p0 + width)
    {
      hide BitMask, BytesPerLine, RowAt, IsPacked;
      var bit: bv8 := 0x80;
      FirstRow(width, height);
      var x := 0;
      while x < width
        invariant 0 <= x <= width && bit == BitMask(x % 8) && IsPacked(width, height, data[..], keep, out[..], p0 + x)
      {
        PackStep(width, height, data[..], keep, out[..], x, y, p0, row);
        ghost var before := out[..];
        if keep(data[p0 + x]) {
          out[row + x / 8] := out[row + x / 8] | bit;
          assert out[..] == before[row + x / 8 := before[row + x / 8] | bit];
        }
        RotateMask(x);
        bit := Rotate(bit);
        x := x + 1;
      }
    }

    method Pack(keep: Pixel -> bool, out: array<bv8>)
      requires Valid() && out.Length == height * BytesPerLine(width)
      modifies out
      ensures IsPacked(width, height, data[..], keep, out[..], |data[..]|)
    {
      hide BytesPerLine, IsPacked, RowAt;
      forall b | 0 <= b < out.Length {
        out[b] := 0;
      }
      NothingPacked(width, height, data[..], keep, out[..]);
      var p: nat, row: nat, y := 0, 0, 0;
      FirstRow(width, height);
      while y < height
        invariant 0 <= y <= height && IsPacked(width, height, data[..], keep, out[..], p)
        invariant if y < height then RowAt(width, height, y, p, row) else p == height * width
      {
        PackRow(keep, out, y, p, row);
        NextRow(width, height, y, p, row);
        p := p + width;
        row := row + BytesPerLine(width);
        y := y + 1;
      }
    }

    /** cursor_get_mono_image */
    method GetMonoImage(foreground: Pixel, image: array<bv8>)
      requires Valid() && image.Length == height * BytesPerLine(width)
      modifies image
      ensures IsPacked(width, height, data[..], ImageTest(foreground), image[..], |data[..]|)
    {
      Pack(ImageTest(foreground), image);
    }

    /** cursor_get_mono_mask */
    method GetMonoMask(transparent: bool, mask: array<bv8>)
      requires Valid() && mask.Length == height * BytesPerLine(width)
      modifies mask
      ensures IsPacked(width, height, data[..], MaskTest(transparent), mask[..], |data[..]|)
    {
      Pack(MaskTest(transparent), mask);
    }
  }

  lemma ColourIs(foreground: Pixel, background: Pixel, transparent: bool, image: bool, mask: bool)
    ensures Colour(foreground, background, transparent, image, mask)
         == if transparent == mask then 0 else if image then OPAQUE | foreground else OPAQUE | background
  {}
}
