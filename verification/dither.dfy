/**
 * Palette mapping: plain quantisation and ordered (Bayer) dithering. The table
 * variants follow the worker, where the dither cell is chosen per pixelation
 * block; the direct-search variants follow the standalone module, where the cell
 * is chosen per pixel and every pixel is matched by exhaustive search.
 */
module Dither {
  import opened Pixels
  import opened Nearest
  import opened ColorLut
  import opened Bayer
  import opened Wrappers

  /** A channel after the dither offset: `r + offset`, clamped to [0, 255]. */
  function Perturb(v: byte, offset: real): (w: real)
    ensures 0.0 <= w <= 255.0
  {
    ClampReal(v as real + offset, 0.0, 255.0)
  }

  /** A clamped channel's integer part, what `>>` reads from it. */
  function Truncate(w: real): byte
    requires 0.0 <= w <= 255.0
  {
    w.Floor
  }

  /** A palette colour written into the output cells. */
  function Paint(c: RGB, alpha: byte): Pixel {
    Pixel(ClampByte(c.r), ClampByte(c.g), ClampByte(c.b), alpha)
  }

  /** The colour part of an output pixel equals the palette colour it was painted from. */
  lemma PaintValid(c: RGB, alpha: byte)
    requires ValidColor(c)
    ensures ColorOf(Paint(c, alpha)) == c && Paint(c, alpha).a == alpha
  {
  }

  // ----- worker: table-driven stages -----

  /**
   * The block a pixel coordinate falls in: `(v * (1 / blockSize)) | 0`. For a
   * block size of 0 the reciprocal is infinite and the product is NaN or
   * infinite, both of which `| 0` turns into 0.
   */
  function BlockCoord(v: nat, blockSize: nat): nat {
    if blockSize == 0 then 0 else v / blockSize
  }

  /**
   * The worker's offset of pixel (x, y): the matrix cell at (row, column) =
   * (block row mod N, block column mod N), times strength · 64.
   */
  function BlockOffset(m: Matrix, strength: real, blockSize: nat, x: nat, y: nat): real
    requires Square(m)
  {
    var row, col := MatrixCoord(m.size, BlockCoord(y, blockSize)), MatrixCoord(m.size, BlockCoord(x, blockSize));
    m.values[row][col] * (strength * 64.0)
  }

  /** A block (or pixel) coordinate wrapped onto the matrix: `v mod N`. */
  function MatrixCoord(n: MatrixSize, v: nat): (c: nat)
    ensures c < n
  {
    v % n
  }

  /** One pixel of the worker's dithering: perturb, clamp, then look up (or store as is without a table). */
  function DitherPixel(p: Pixel, offset: real, lut: ColorLUT): Pixel
    requires WellFormed(lut)
  {
    var r, g, b := Perturb(p.r, offset), Perturb(p.g, offset), Perturb(p.b, offset);
    if |lut.table| > 0 then Paint(LookupColor(lut, Truncate(r), Truncate(g), Truncate(b)).value, p.a)
    else Pixel(RealToByte(r), RealToByte(g), RealToByte(b), p.a)
  }

  /** The worker's `applyBayerDithering`: every pixel perturbed by its block's offset. */
  function ApplyBayerDithering(img: Image, m: Matrix, strength: real, blockSize: nat, lut: ColorLUT): (out: Image)
    requires WellSized(img) && Square(m) && WellFormed(lut)
    ensures WellSized(out) && out.width == img.width && out.height == img.height
    ensures forall x: nat, y: nat :: x < img.width && y < img.height ==>
      At(out, x, y) == DitherPixel(At(img, x, y), BlockOffset(m, strength, blockSize, x, y), lut)
  {
    var w := img.width;
    var out := Image(w, img.height, seq(|img.pixels|, p requires 0 <= p < |img.pixels| =>
      IndexRoundTrip(p, w, img.height);
      DitherPixel(img.pixels[p], BlockOffset(m, strength, blockSize, p % w, p / w), lut)));
    forall x: nat, y: nat | x < w && y < img.height
      ensures At(out, x, y) == DitherPixel(At(img, x, y), BlockOffset(m, strength, blockSize, x, y), lut)
    {
      IndexInRange(x, y, w, img.height);
      CoordsOfIndex(x, y, w);
    }
    out
  }

  /** One pixel of the worker's `quantizeToPalette`. */
  function QuantizePixel(p: Pixel, lut: ColorLUT): Pixel
    requires WellFormed(lut)
  {
    if |lut.table| > 0 then Paint(LookupColor(lut, p.r, p.g, p.b).value, p.a) else p
  }

  /** The worker's `quantizeToPalette`: every pixel mapped through the table. */
  function QuantizeToPalette(img: Image, lut: ColorLUT): (out: Image)
    requires WellFormed(lut)
    ensures out.width == img.width && out.height == img.height && |out.pixels| == |img.pixels|
    ensures forall i :: 0 <= i < |img.pixels| ==> out.pixels[i] == QuantizePixel(img.pixels[i], lut)
  {
    Image(img.width, img.height, seq(|img.pixels|, i requires 0 <= i < |img.pixels| => QuantizePixel(img.pixels[i], lut)))
  }

  /**
   * Quantisation: with a table, each output colour is the palette entry stored for
   * the pixel's bucket (`palette[table[(r>>3 << 10) + (g>>3 << 5) + (b>>3)]]`);
   * without one, the pixel passes through. Alpha is copied either way.
   */
  lemma QuantizeContents(img: Image, lut: ColorLUT, i: int)
    requires WellFormed(lut) && ValidPalette(lut.palette) && 0 <= i < |img.pixels|
    ensures var p, q := img.pixels[i], QuantizeToPalette(img, lut).pixels[i];
      && q.a == p.a
      && (|lut.table| == 0 ==> q == p)
      && (|lut.table| > 0 ==>
            ColorOf(q) == lut.palette[lut.table[LutIndex(p.r / 8, p.g / 8, p.b / 8)]])
  {
    var p := img.pixels[i];
    if |lut.table| > 0 {
      var c := LookupColor(lut, p.r, p.g, p.b).value;
      PaintValid(c, p.a);
    }
  }

  /** Palette closure of quantisation: with a table, every output colour is a palette entry. */
  lemma QuantizeClosure(img: Image, lut: ColorLUT)
    requires WellFormed(lut) && ValidPalette(lut.palette) && |lut.table| > 0
    ensures forall i :: 0 <= i < |img.pixels| ==> ColorOf(QuantizeToPalette(img, lut).pixels[i]) in lut.palette
  {
    forall i | 0 <= i < |img.pixels|
      ensures ColorOf(QuantizeToPalette(img, lut).pixels[i]) in lut.palette
    {
      var p := img.pixels[i];
      var c := LookupColor(lut, p.r, p.g, p.b).value;
      PaintValid(c, p.a);
    }
  }

  /**
   * Dithering output: with a table, every output colour is a palette entry and
   * every alpha is the input alpha.
   */
  lemma DitherClosure(img: Image, m: Matrix, strength: real, blockSize: nat, lut: ColorLUT, x: nat, y: nat)
    requires WellSized(img) && Square(m) && WellFormed(lut) && ValidPalette(lut.palette)
    requires |lut.table| > 0 && x < img.width && y < img.height
    ensures ColorOf(At(ApplyBayerDithering(img, m, strength, blockSize, lut), x, y)) in lut.palette
    ensures At(ApplyBayerDithering(img, m, strength, blockSize, lut), x, y).a == At(img, x, y).a
  {
    var p := At(img, x, y);
    var o := BlockOffset(m, strength, blockSize, x, y);
    var c := LookupColor(lut, Truncate(Perturb(p.r, o)), Truncate(Perturb(p.g, o)), Truncate(Perturb(p.b, o))).value;
    PaintValid(c, p.a);
  }

  /** Dithering output by position in the buffer: palette colours and the input alpha. */
  lemma DitherClosureAll(img: Image, m: Matrix, strength: real, blockSize: nat, lut: ColorLUT)
    requires WellSized(img) && Square(m) && WellFormed(lut) && ValidPalette(lut.palette) && |lut.table| > 0
    ensures var out := ApplyBayerDithering(img, m, strength, blockSize, lut);
      forall i :: 0 <= i < |img.pixels| ==> ColorOf(out.pixels[i]) in lut.palette && out.pixels[i].a == img.pixels[i].a
  {
    var out := ApplyBayerDithering(img, m, strength, blockSize, lut);
    forall i | 0 <= i < |img.pixels|
      ensures ColorOf(out.pixels[i]) in lut.palette && out.pixels[i].a == img.pixels[i].a
    {
      IndexRoundTrip(i, img.width, img.height);
      var x, y := i % img.width, i / img.width;
      DitherClosure(img, m, strength, blockSize, lut, x, y);
      assert out.pixels[i] == At(out, x, y);
      assert img.pixels[i] == At(img, x, y);
    }
  }

  /** All pixels of one pixelation block receive the same dither offset. */
  lemma OffsetUniformPerBlock(m: Matrix, strength: real, blockSize: nat, x1: nat, y1: nat, x2: nat, y2: nat)
    requires Square(m)
    requires BlockCoord(x1, blockSize) == BlockCoord(x2, blockSize)
    requires BlockCoord(y1, blockSize) == BlockCoord(y2, blockSize)
    ensures BlockOffset(m, strength, blockSize, x1, y1) == BlockOffset(m, strength, blockSize, x2, y2)
  {
  }

  /** With a centred matrix and a strength in [0, 1] the offset lies in [−32, 32]. */
  lemma OffsetAmplitude(m: Matrix, strength: real, blockSize: nat, x: nat, y: nat)
    requires Square(m) && Centred(m) && 0.0 <= strength <= 1.0
    ensures -32.0 <= BlockOffset(m, strength, blockSize, x, y) <= 32.0
  {
    var row, col := MatrixCoord(m.size, BlockCoord(y, blockSize)), MatrixCoord(m.size, BlockCoord(x, blockSize));
    ScaleBounds(m.values[row][col], strength * 64.0);
  }

  /** Strength 0 gives offset 0. */
  lemma ZeroOffset(m: Matrix, blockSize: nat, x: nat, y: nat)
    requires Square(m)
    ensures BlockOffset(m, 0.0, blockSize, x, y) == 0.0
  {
    var row, col := MatrixCoord(m.size, BlockCoord(y, blockSize)), MatrixCoord(m.size, BlockCoord(x, blockSize));
    assert m.values[row][col] * (0.0 * 64.0) == 0.0;
  }

  /** A zero offset leaves the channels whole, so dithering a pixel is quantising it. */
  lemma DitherPixelZero(p: Pixel, lut: ColorLUT)
    requires WellFormed(lut)
    ensures DitherPixel(p, 0.0, lut) == QuantizePixel(p, lut)
  {
    assert Truncate(Perturb(p.r, 0.0)) == p.r;
    assert Truncate(Perturb(p.g, 0.0)) == p.g;
    assert Truncate(Perturb(p.b, 0.0)) == p.b;
    RealToByteOfInt(p.r);
    RealToByteOfInt(p.g);
    RealToByteOfInt(p.b);
  }

  /** A value in [−½, ½] scaled by at most 64 stays within [−32, 32]. */
  lemma ScaleBounds(t: real, s: real)
    requires -0.5 <= t <= 0.5 && 0.0 <= s <= 64.0
    ensures -32.0 <= t * s <= 32.0
  {
    var below, above := 0.5 - t, t + 0.5;
    NonNegativeProduct(below, s);
    NonNegativeProduct(above, s);
    assert below * s == 0.5 * s - t * s;
    assert above * s == t * s + 0.5 * s;
  }

  /** The product of two non-negative reals is non-negative. */
  lemma NonNegativeProduct(a: real, b: real)
    requires 0.0 <= a && 0.0 <= b
    ensures 0.0 <= a * b
  {
  }

  /** With strength 0 the worker's dithering produces exactly the quantised pixels. */
  lemma ZeroStrengthIsQuantize(img: Image, m: Matrix, blockSize: nat, lut: ColorLUT)
    requires WellSized(img) && Square(m) && WellFormed(lut)
    ensures ApplyBayerDithering(img, m, 0.0, blockSize, lut).pixels == QuantizeToPalette(img, lut).pixels
  {
    var d := ApplyBayerDithering(img, m, 0.0, blockSize, lut);
    var q := QuantizeToPalette(img, lut);
    forall i | 0 <= i < |img.pixels|
      ensures d.pixels[i] == q.pixels[i]
    {
      IndexRoundTrip(i, img.width, img.height);
      var x, y := i % img.width, i / img.width;
      ZeroOffset(m, blockSize, x, y);
      DitherPixelZero(img.pixels[i], lut);
      assert d.pixels[i] == At(d, x, y);
    }
  }

  // ----- standalone module: direct search -----

  /**
   * The standalone offset: `(matrix[y mod N][x mod N] − 0.5) · strength · 64`, the
   * cell chosen per pixel from a matrix of uncentred fractions.
   */
  function PixelOffset(m: Matrix, strength: real, x: nat, y: nat): real
    requires Square(m)
  {
    (m.values[MatrixCoord(m.size, y)][MatrixCoord(m.size, x)] - 0.5) * (strength * 64.0)
  }

  /**
   * The two modules pick the same offsets at block size 1 when the worker's
   * matrix is the standalone one shifted by 0.5, as `MatricesAgree` shows the
   * Bayer tables are.
   */
  lemma PixelOffsetIsUnitBlocks(f: Matrix, c: Matrix, strength: real, x: nat, y: nat)
    requires Square(f) && Square(c) && ShiftedByHalf(f, c)
    ensures PixelOffset(f, strength, x, y) == BlockOffset(c, strength, 1, x, y)
  {
    assert BlockCoord(x, 1) == x && BlockCoord(y, 1) == y;
  }

  /**
   * One pixel of the standalone dithering: the nearest palette entry to the
   * perturbed, clamped colour, alpha kept.
   */
  function DirectDitherPixel(p: Pixel, offset: real, palette: seq<RGB>): Pixel
    requires |palette| > 0
  {
    Paint(FindNearestColor(Query(Perturb(p.r, offset), Perturb(p.g, offset), Perturb(p.b, offset)), palette).value, p.a)
  }

  /**
   * The standalone `applyBayerDithering`. The source reads the fields of the
   * search result without a check, so on an empty palette a non-empty image
   * throws: that is `None` here.
   */
  function DirectDithering(img: Image, m: Matrix, strength: real, palette: seq<RGB>): (out: Option<Image>)
    requires WellSized(img) && Square(m)
    ensures out.None? <==> |palette| == 0 && |img.pixels| > 0
    ensures out.Some? ==> (WellSized(out.value) && out.value.width == img.width && out.value.height == img.height)
    ensures out.Some? ==> forall x: nat, y: nat :: x < img.width && y < img.height ==>
      At(out.value, x, y) == DirectDitherPixel(At(img, x, y), PixelOffset(m, strength, x, y), palette)
  {
    var w := img.width;
    if |img.pixels| == 0 then Some(img)
    else if |palette| == 0 then None
    else
      var out := Image(w, img.height, seq(|img.pixels|, p requires 0 <= p < |img.pixels| =>
        IndexRoundTrip(p, w, img.height);
        DirectDitherPixel(img.pixels[p], PixelOffset(m, strength, p % w, p / w), palette)));
      forall x: nat, y: nat | x < w && y < img.height
        ensures At(out, x, y) == DirectDitherPixel(At(img, x, y), PixelOffset(m, strength, x, y), palette)
      {
        IndexInRange(x, y, w, img.height);
        CoordsOfIndex(x, y, w);
        var p := IndexOf(x, y, w);
        assert out.pixels[p] == DirectDitherPixel(img.pixels[p], PixelOffset(m, strength, p % w, p / w), palette);
      }
      Some(out)
  }

  /** One pixel of the standalone `quantizeToPalette`. */
  function DirectQuantizePixel(p: Pixel, palette: seq<RGB>): Pixel
    requires |palette| > 0
  {
    Paint(FindNearestColor(QueryOf(ColorOf(p)), palette).value, p.a)
  }

  /** The standalone `quantizeToPalette`; throws (`None`) on an empty palette and a non-empty image. */
  function DirectQuantize(img: Image, palette: seq<RGB>): (out: Option<Image>)
    ensures out.None? <==> |palette| == 0 && |img.pixels| > 0
    ensures out.Some? ==> (out.value.width == img.width && out.value.height == img.height
      && |out.value.pixels| == |img.pixels|)
    ensures out.Some? ==> forall i :: 0 <= i < |img.pixels| ==>
      out.value.pixels[i] == DirectQuantizePixel(img.pixels[i], palette)
  {
    if |img.pixels| == 0 then Some(img)
    else if |palette| == 0 then None
    else Some(Image(img.width, img.height,
      seq(|img.pixels|, i requires 0 <= i < |img.pixels| => DirectQuantizePixel(img.pixels[i], palette))))
  }

  /**
   * Standalone dithering output: every pixel's colour is the first nearest palette
   * entry to its clamped, perturbed colour (so a palette member); alpha is copied.
   */
  lemma DirectDitheringContents(img: Image, m: Matrix, strength: real, palette: seq<RGB>, x: nat, y: nat)
    requires WellSized(img) && Square(m) && ValidPalette(palette) && |palette| > 0
    requires x < img.width && y < img.height
    ensures var out := DirectDithering(img, m, strength, palette).value;
      var p, o := At(img, x, y), PixelOffset(m, strength, x, y);
      && WellSized(out)
      && At(out, x, y).a == p.a
      && Some(ColorOf(At(out, x, y)))
         == FindNearestColor(Query(Perturb(p.r, o), Perturb(p.g, o), Perturb(p.b, o)), palette)
      && ColorOf(At(out, x, y)) in palette
  {
    var p, o := At(img, x, y), PixelOffset(m, strength, x, y);
    var found := FindNearestColor(Query(Perturb(p.r, o), Perturb(p.g, o), Perturb(p.b, o)), palette);
    PaintValid(found.value, p.a);
  }

  /** Standalone dithering output by position in the buffer: palette colours and the input alpha. */
  lemma DirectDitheringClosure(img: Image, m: Matrix, strength: real, palette: seq<RGB>)
    requires WellSized(img) && Square(m) && ValidPalette(palette) && |palette| > 0
    ensures var out := DirectDithering(img, m, strength, palette).value;
      forall i :: 0 <= i < |img.pixels| ==> ColorOf(out.pixels[i]) in palette && out.pixels[i].a == img.pixels[i].a
  {
    var out := DirectDithering(img, m, strength, palette).value;
    forall i | 0 <= i < |img.pixels|
      ensures ColorOf(out.pixels[i]) in palette && out.pixels[i].a == img.pixels[i].a
    {
      IndexRoundTrip(i, img.width, img.height);
      var x, y := i % img.width, i / img.width;
      DirectDitheringContents(img, m, strength, palette, x, y);
      assert out.pixels[i] == At(out, x, y);
      assert img.pixels[i] == At(img, x, y);
    }
  }

  /** Standalone quantisation output: each colour is the first nearest palette entry; alpha copied. */
  lemma DirectQuantizeContents(img: Image, palette: seq<RGB>, i: int)
    requires ValidPalette(palette) && |palette| > 0 && 0 <= i < |img.pixels|
    ensures var q := DirectQuantize(img, palette).value.pixels[i];
      && q.a == img.pixels[i].a
      && Some(ColorOf(q)) == FindNearestColor(QueryOf(ColorOf(img.pixels[i])), palette)
      && ColorOf(q) in palette
  {
    var found := FindNearestColor(QueryOf(ColorOf(img.pixels[i])), palette);
    PaintValid(found.value, img.pixels[i].a);
  }

  /** Strength 0 gives a zero per-pixel offset. */
  lemma PixelOffsetZero(m: Matrix, x: nat, y: nat)
    requires Square(m)
    ensures PixelOffset(m, 0.0, x, y) == 0.0
  {
    var t := m.values[MatrixCoord(m.size, y)][MatrixCoord(m.size, x)] - 0.5;
    assert t * (0.0 * 64.0) == 0.0;
  }

  /** A zero offset leaves the query at the pixel's own colour. */
  lemma DirectPixelZero(p: Pixel, palette: seq<RGB>)
    requires |palette| > 0
    ensures DirectDitherPixel(p, 0.0, palette) == DirectQuantizePixel(p, palette)
  {
    assert Query(Perturb(p.r, 0.0), Perturb(p.g, 0.0), Perturb(p.b, 0.0)) == QueryOf(ColorOf(p));
  }

  /** With strength 0 each pixel of the standalone dithering is its quantised pixel. */
  lemma DirectZeroStrengthAt(img: Image, m: Matrix, palette: seq<RGB>, i: int)
    requires WellSized(img) && Square(m) && |palette| > 0 && 0 <= i < |img.pixels|
    ensures DirectDithering(img, m, 0.0, palette).value.pixels[i] == DirectQuantizePixel(img.pixels[i], palette)
  {
    var w := img.width;
    IndexRoundTrip(i, w, img.height);
    var x, y := i % w, i / w;
    PixelOffsetZero(m, x, y);
    DirectPixelZero(img.pixels[i], palette);
    var d := DirectDithering(img, m, 0.0, palette).value;
    assert At(img, x, y) == img.pixels[i];
    assert d.pixels[i] == At(d, x, y);
  }

  /** With strength 0 the standalone dithering produces exactly its quantisation, failure included. */
  lemma DirectZeroStrengthIsQuantize(img: Image, m: Matrix, palette: seq<RGB>)
    requires WellSized(img) && Square(m)
    ensures DirectDithering(img, m, 0.0, palette) == DirectQuantize(img, palette)
  {
    if |img.pixels| > 0 && |palette| > 0 {
      var d := DirectDithering(img, m, 0.0, palette).value;
      var q := DirectQuantize(img, palette).value;
      forall i | 0 <= i < |img.pixels|
        ensures d.pixels[i] == q.pixels[i]
      {
        DirectZeroStrengthAt(img, m, palette, i);
      }
      assert d.pixels == q.pixels;
    }
  }

  /** At a pixel whose channels are all bucket centres, table lookup and exhaustive search agree. */
  lemma QuantizePixelAgrees(p: Pixel, palette: seq<RGB>)
    requires 0 < |palette| <= 256
    requires p.r % 8 == 4 && p.g % 8 == 4 && p.b % 8 == 4
    ensures DirectQuantizePixel(p, palette) == QuantizePixel(p, BuildColorLUT(palette))
  {
    var rq, gq, bq := p.r / 8, p.g / 8, p.b / 8;
    assert Centre(rq) == p.r && Centre(gq) == p.g && Centre(bq) == p.b;
    LookupMatchesSearchAtCentres(palette, rq, gq, bq);
    assert CentreQuery(rq, gq, bq) == QueryOf(ColorOf(p));
  }

  /**
   * Where every channel of every pixel is a bucket centre, the table-driven
   * quantisation and the exhaustive-search quantisation agree pixel for pixel.
   */
  lemma QuantizeAgreesAtCentres(img: Image, palette: seq<RGB>)
    requires 0 < |palette| <= 256
    requires forall i :: 0 <= i < |img.pixels| ==>
      img.pixels[i].r % 8 == 4 && img.pixels[i].g % 8 == 4 && img.pixels[i].b % 8 == 4
    ensures DirectQuantize(img, palette) == Some(QuantizeToPalette(img, BuildColorLUT(palette)))
  {
    var lut := BuildColorLUT(palette);
    if |img.pixels| > 0 {
      var out := DirectQuantize(img, palette).value;
      var q := QuantizeToPalette(img, lut);
      forall i | 0 <= i < |img.pixels|
        ensures out.pixels[i] == q.pixels[i]
      {
        QuantizePixelAgrees(img.pixels[i], palette);
      }
      assert out.pixels == q.pixels;
    }
  }

  /**
   * Standalone quantisation is idempotent: its output colours are palette entries,
   * and a palette entry is its own nearest match.
   */
  lemma DirectQuantizeIdempotent(img: Image, palette: seq<RGB>)
    requires ValidPalette(palette) && |palette| > 0
    ensures DirectQuantize(DirectQuantize(img, palette).value, palette) == DirectQuantize(img, palette)
  {
    var once := DirectQuantize(img, palette).value;
    var twice := DirectQuantize(once, palette).value;
    forall i | 0 <= i < |img.pixels|
      ensures twice.pixels[i] == once.pixels[i]
    {
      DirectQuantizeContents(img, palette, i);
      var q := once.pixels[i];
      SearchFindsMember(palette, ColorOf(q));
      PaintValid(ColorOf(q), q.a);
    }
    assert twice.pixels == once.pixels;
  }

  /**
   * The table is an approximation: a colour that is itself a palette entry can be
   * mapped to a different entry, because the table stores the match for the
   * centre of the colour's bucket. With palette [(0,0,0), (7,7,7)] the bucket
   * (0,0,0) has centre (4,4,4), which is nearer to (7,7,7).
   */
  lemma TableMapsMemberElsewhere()
    ensures var palette := [RGB(0, 0, 0), RGB(7, 7, 7)];
      QuantizePixel(Pixel(0, 0, 0, 255), BuildColorLUT(palette)) == Pixel(7, 7, 7, 255)
  {
    var palette := [RGB(0, 0, 0), RGB(7, 7, 7)];
    var lut := BuildColorLUT(palette);
    var q := CentreQuery(0, 0, 0);
    assert Distance(q, palette[1]) < Distance(q, palette[0]);
    assert lut.table[0] == 1;
  }
  // ----- alpha, for any palette -----

  /** The worker's dithering copies alpha, whatever the palette holds. */
  lemma DitherKeepsAlpha(img: Image, m: Matrix, strength: real, blockSize: nat, lut: ColorLUT)
    requires WellSized(img) && Square(m) && WellFormed(lut)
    ensures forall i :: 0 <= i < |img.pixels| ==> ApplyBayerDithering(img, m, strength, blockSize, lut).pixels[i].a == img.pixels[i].a
  {
    var out := ApplyBayerDithering(img, m, strength, blockSize, lut);
    forall i | 0 <= i < |img.pixels|
      ensures out.pixels[i].a == img.pixels[i].a
    {
      IndexRoundTrip(i, img.width, img.height);
      var x, y := i % img.width, i / img.width;
      assert out.pixels[i] == At(out, x, y);
      assert img.pixels[i] == At(img, x, y);
    }
  }

  /** The standalone dithering copies alpha, whatever the palette holds. */
  lemma DirectDitheringKeepsAlpha(img: Image, m: Matrix, strength: real, palette: seq<RGB>)
    requires WellSized(img) && Square(m) && |palette| > 0
    ensures forall i :: 0 <= i < |img.pixels| ==> DirectDithering(img, m, strength, palette).value.pixels[i].a == img.pixels[i].a
  {
    var out := DirectDithering(img, m, strength, palette).value;
    forall i | 0 <= i < |img.pixels|
      ensures out.pixels[i].a == img.pixels[i].a
    {
      IndexRoundTrip(i, img.width, img.height);
      var x, y := i % img.width, i / img.width;
      assert out.pixels[i] == At(out, x, y);
      assert img.pixels[i] == At(img, x, y);
    }
  }
}
