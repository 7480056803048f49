/**
 * Block pixelation: the image is cut into blockSize×blockSize tiles starting at
 * multiples of blockSize (clipped at the right and bottom edges), and every pixel
 * of a tile receives the tile's per-channel mean, rounded half up.
 */
module Pixelate {
  import opened Pixels

  datatype Channel = Red | Green | Blue | Alpha

  function Chan(p: Pixel, c: Channel): byte {
    match c
    case Red => p.r
    case Green => p.g
    case Blue => p.b
    case Alpha => p.a
  }

  /** `Math.round(sum / count)` for non-negative sums: the mean rounded half up. */
  function RoundMean(sum: nat, count: nat): nat
    requires count > 0
  {
    (2 * sum + count) / (2 * count)
  }

  /** The integer formula is exactly `Math.round` (floor of x + 1/2) of the real quotient. */
  lemma RoundMeanIsMathRound(sum: nat, count: nat)
    requires count > 0
    ensures RoundMean(sum, count) == ((sum as real) / (count as real) + 0.5).Floor
  {
    var num, den := 2 * sum + count, 2 * count;
    var q := num / den;
    var r := num % den;
    assert num == q * den + r;
    QuotientFloor(q, r, den);
    var x := (sum as real) / (count as real);
    assert x * (count as real) == sum as real;
    assert (x + 0.5) * (den as real) == num as real;
    RealDivUnique(x + 0.5, num as real, den as real);
  }

  lemma RealDivUnique(a: real, num: real, den: real)
    requires den != 0.0 && a * den == num
    ensures a == num / den
  {
  }

  /** (q·den + r) / den has floor q when 0 <= r < den. */
  lemma QuotientFloor(q: int, r: int, den: int)
    requires den > 0 && 0 <= r < den
    ensures (((q * den + r) as real) / (den as real)).Floor == q
  {
    var d := den as real;
    var frac := (r as real) / d;
    assert frac * d == r as real;
    assert frac < 0.0 ==> frac * d < 0.0;
    assert frac >= 1.0 ==> frac * d >= d;
    assert ((q as real) + frac) * d == (q * den + r) as real;
    RealDivUnique((q as real) + frac, (q * den + r) as real, d);
  }

  /** The first coordinate of the tile that coordinate v falls in. */
  function TileStart(v: nat, blockSize: nat): nat
    requires blockSize > 0
  {
    (v / blockSize) * blockSize
  }

  /** Width (or height) of the tile starting at `start`: blockSize, clipped at the edge. */
  function TileExtent(start: nat, size: nat, blockSize: nat): nat
    requires start <= size
  {
    if blockSize < size - start then blockSize else size - start
  }

  /** Sum of channel c over the `n` pixels of row y starting at column x0. */
  function RowSum(img: Image, x0: nat, y: nat, n: nat, c: Channel): nat
    requires WellSized(img) && x0 + n <= img.width && y < img.height
  {
    if n == 0 then 0 else RowSum(img, x0, y, n - 1, c) + Chan(At(img, x0 + n - 1, y), c)
  }

  /** Sum of channel c over the bw×bh rectangle with top-left corner (x0, y0). */
  function RectSum(img: Image, x0: nat, y0: nat, bw: nat, bh: nat, c: Channel): nat
    requires WellSized(img) && x0 + bw <= img.width && y0 + bh <= img.height
  {
    if bh == 0 then 0 else RectSum(img, x0, y0, bw, bh - 1, c) + RowSum(img, x0, y0 + bh - 1, bw, c)
  }

  /** A tile: its top-left corner and its clipped extent. */
  datatype Tile = Tile(x0: nat, y0: nat, w: nat, h: nat)

  /** The tile holding pixel (x, y). */
  function TileOf(img: Image, blockSize: nat, x: nat, y: nat): (t: Tile)
    requires blockSize > 0 && x < img.width && y < img.height
    ensures t.x0 <= x < t.x0 + t.w <= img.width
    ensures t.y0 <= y < t.y0 + t.h <= img.height
    ensures 0 < t.w <= blockSize && 0 < t.h <= blockSize
  {
    var x0, y0 := TileStart(x, blockSize), TileStart(y, blockSize);
    StartBelow(x, blockSize);
    StartBelow(y, blockSize);
    Tile(x0, y0, TileExtent(x0, img.width, blockSize), TileExtent(y0, img.height, blockSize))
  }

  lemma StartBelow(v: nat, blockSize: nat)
    requires blockSize > 0
    ensures TileStart(v, blockSize) <= v < TileStart(v, blockSize) + blockSize
  {
    DivModUnique(v, blockSize, v / blockSize, v % blockSize);
  }

  /** The channel mean of the tile holding (x, y). */
  function TileMean(img: Image, blockSize: nat, x: nat, y: nat, c: Channel): nat
    requires WellSized(img) && blockSize > 0 && x < img.width && y < img.height
  {
    var t := TileOf(img, blockSize, x, y);
    RoundMean(RectSum(img, t.x0, t.y0, t.w, t.h, c), t.w * t.h)
  }

  /** Every channel of every tile stays within 0..255, so the mean fits a byte. */
  function TilePixel(img: Image, blockSize: nat, x: nat, y: nat): Pixel
    requires WellSized(img) && blockSize > 0 && x < img.width && y < img.height
  {
    var t := TileOf(img, blockSize, x, y);
    TileMeanInRange(img, blockSize, x, y, Red);
    TileMeanInRange(img, blockSize, x, y, Green);
    TileMeanInRange(img, blockSize, x, y, Blue);
    TileMeanInRange(img, blockSize, x, y, Alpha);
    Pixel(TileMean(img, blockSize, x, y, Red), TileMean(img, blockSize, x, y, Green),
          TileMean(img, blockSize, x, y, Blue), TileMean(img, blockSize, x, y, Alpha))
  }

  /**
   * `pixelate`: same dimensions, and the pixel at every position is its tile's
   * rounded mean colour (alpha included).
   */
  function Pixelate(img: Image, blockSize: nat): (out: Image)
    requires WellSized(img) && blockSize > 0
    ensures WellSized(out) && out.width == img.width && out.height == img.height
    ensures forall x: nat, y: nat :: x < img.width && y < img.height ==> At(out, x, y) == TilePixel(img, blockSize, x, y)
  {
    var w := img.width;
    var out := Image(w, img.height, seq(|img.pixels|, p requires 0 <= p < |img.pixels| =>
      IndexRoundTrip(p, w, img.height);
      TilePixel(img, blockSize, p % w, p / w)));
    forall x: nat, y: nat | x < w && y < img.height
      ensures At(out, x, y) == TilePixel(img, blockSize, x, y)
    {
      IndexInRange(x, y, w, img.height);
      CoordsOfIndex(x, y, w);
    }
    out
  }

  // ----- partition -----

  /**
   * Tiles partition the image: the tile found for (x, y) starts at a multiple of
   * blockSize and covers (x, y), and any tile starting at a multiple of blockSize
   * that covers (x, y) is that tile.
   */
  lemma TilesPartition(img: Image, blockSize: nat, x: nat, y: nat, kx: nat, ky: nat)
    requires blockSize > 0 && x < img.width && y < img.height
    requires kx * blockSize <= img.width && ky * blockSize <= img.height
    requires kx * blockSize <= x < kx * blockSize + TileExtent(kx * blockSize, img.width, blockSize)
    requires ky * blockSize <= y < ky * blockSize + TileExtent(ky * blockSize, img.height, blockSize)
    ensures TileOf(img, blockSize, x, y) == Tile(kx * blockSize, ky * blockSize,
      TileExtent(kx * blockSize, img.width, blockSize), TileExtent(ky * blockSize, img.height, blockSize))
  {
    DivModUnique(x, blockSize, kx, x - kx * blockSize);
    DivModUnique(y, blockSize, ky, y - ky * blockSize);
  }

  /** Two positions in the same tile find the same tile. */
  lemma SameTile(img: Image, blockSize: nat, x: nat, y: nat, x2: nat, y2: nat)
    requires blockSize > 0 && x < img.width && y < img.height
    requires var t := TileOf(img, blockSize, x, y); t.x0 <= x2 < t.x0 + t.w && t.y0 <= y2 < t.y0 + t.h
    ensures TileOf(img, blockSize, x2, y2) == TileOf(img, blockSize, x, y)
  {
    TilesPartition(img, blockSize, x2, y2, x / blockSize, y / blockSize);
  }

  /** Uniform tiles: every pixel of one tile of the output carries the same R, G, B and A. */
  lemma UniformTiles(img: Image, blockSize: nat, x: nat, y: nat, x2: nat, y2: nat)
    requires WellSized(img) && blockSize > 0 && x < img.width && y < img.height
    requires var t := TileOf(img, blockSize, x, y); t.x0 <= x2 < t.x0 + t.w && t.y0 <= y2 < t.y0 + t.h
    ensures At(Pixelate(img, blockSize), x2, y2) == At(Pixelate(img, blockSize), x, y)
  {
    SameTile(img, blockSize, x, y, x2, y2);
  }

  // ----- bounds -----

  /** All pixels of a rectangle have channel c within [lo, hi]. */
  ghost predicate RectWithin(img: Image, x0: nat, y0: nat, bw: nat, bh: nat, c: Channel, lo: int, hi: int)
    requires WellSized(img) && x0 + bw <= img.width && y0 + bh <= img.height
  {
    forall x, y :: x0 <= x < x0 + bw && y0 <= y < y0 + bh ==> lo <= Chan(At(img, x, y), c) <= hi
  }

  lemma {:induction false} RowSumBounds(img: Image, x0: nat, y: nat, n: nat, c: Channel, lo: int, hi: int)
    requires WellSized(img) && x0 + n <= img.width && y < img.height
    requires forall x :: x0 <= x < x0 + n ==> lo <= Chan(At(img, x, y), c) <= hi
    ensures n * lo <= RowSum(img, x0, y, n, c) <= n * hi
  {
    if n > 0 {
      RowSumBounds(img, x0, y, n - 1, c, lo, hi);
      assert n * lo == (n - 1) * lo + lo;
      assert n * hi == (n - 1) * hi + hi;
    }
  }

  lemma {:induction false} RectSumBounds(img: Image, x0: nat, y0: nat, bw: nat, bh: nat, c: Channel, lo: int, hi: int)
    requires WellSized(img) && x0 + bw <= img.width && y0 + bh <= img.height
    requires RectWithin(img, x0, y0, bw, bh, c, lo, hi)
    ensures (bw * bh) * lo <= RectSum(img, x0, y0, bw, bh, c) <= (bw * bh) * hi
  {
    if bh > 0 {
      RectSumBounds(img, x0, y0, bw, bh - 1, c, lo, hi);
      RowSumBounds(img, x0, y0 + bh - 1, bw, c, lo, hi);
      var a := bw * (bh - 1);
      assert bw * bh == a + bw;
      AddBounds(a, bw, lo, hi, RectSum(img, x0, y0, bw, bh - 1, c), RowSum(img, x0, y0 + bh - 1, bw, c));
    }
  }

  lemma MulPositive(a: int, b: int)
    requires a > 0 && b > 0
    ensures a * b > 0
  {
  }

  /** Bounds of two sums of a and b terms add up to bounds of a sum of a + b terms. */
  lemma AddBounds(a: int, b: int, lo: int, hi: int, s: int, t: int)
    requires a * lo <= s <= a * hi && b * lo <= t <= b * hi
    ensures (a + b) * lo <= s + t <= (a + b) * hi
  {
    Distrib(a, b, lo);
    Distrib(a, b, hi);
  }

  lemma Distrib(a: int, b: int, c: int)
    ensures (a + b) * c == a * c + b * c
  {
  }

  /** A rounded mean of values within [lo, hi] is within [lo, hi]. */
  lemma RoundMeanBounds(sum: nat, count: nat, lo: int, hi: int)
    requires count > 0 && count * lo <= sum <= count * hi
    ensures lo <= RoundMean(sum, count) <= hi
  {
    var r := RoundMean(sum, count);
    DivModUnique(2 * sum + count, 2 * count, r, (2 * sum + count) % (2 * count));
    MulMono(lo, r + 1, 2 * count);
    MulMono(r, hi, 2 * count);
    MulMono(hi + 1, r, 2 * count);
    MulMono(r + 1, lo, 2 * count);
  }

  /**
   * Bounds: each output channel lies between the least and greatest value of that
   * channel in the input tile (hence in 0..255).
   */
  lemma TileMeanBetween(img: Image, blockSize: nat, x: nat, y: nat, c: Channel, lo: int, hi: int)
    requires WellSized(img) && blockSize > 0 && x < img.width && y < img.height
    requires var t := TileOf(img, blockSize, x, y); RectWithin(img, t.x0, t.y0, t.w, t.h, c, lo, hi)
    ensures lo <= TileMean(img, blockSize, x, y, c) <= hi
  {
    var t := TileOf(img, blockSize, x, y);
    RectSumBounds(img, t.x0, t.y0, t.w, t.h, c, lo, hi);
    RoundMeanBounds(RectSum(img, t.x0, t.y0, t.w, t.h, c), t.w * t.h, lo, hi);
  }

  lemma TileMeanInRange(img: Image, blockSize: nat, x: nat, y: nat, c: Channel)
    requires WellSized(img) && blockSize > 0 && x < img.width && y < img.height
    ensures 0 <= TileMean(img, blockSize, x, y, c) < 256
  {
    TileMeanBetween(img, blockSize, x, y, c, 0, 255);
  }

  // ----- idempotence -----

  /** A rectangle whose channel c is constant v sums to area·v. */
  lemma RectSumConstant(img: Image, x0: nat, y0: nat, bw: nat, bh: nat, c: Channel, v: int)
    requires WellSized(img) && x0 + bw <= img.width && y0 + bh <= img.height
    requires RectWithin(img, x0, y0, bw, bh, c, v, v)
    ensures RectSum(img, x0, y0, bw, bh, c) == (bw * bh) * v
  {
    RectSumBounds(img, x0, y0, bw, bh, c, v, v);
  }

  lemma RoundMeanExact(count: nat, v: nat)
    requires count > 0
    ensures RoundMean(count * v, count) == v
  {
    DivModUnique(2 * (count * v) + count, 2 * count, v, count);
  }

  /** In the output, a whole tile carries the value of any one of its pixels. */
  lemma OutputTileConstant(img: Image, blockSize: nat, x: nat, y: nat, c: Channel)
    requires WellSized(img) && blockSize > 0 && x < img.width && y < img.height
    ensures var out := Pixelate(img, blockSize);
            var t := TileOf(img, blockSize, x, y);
            var v := Chan(At(out, x, y), c);
            RectWithin(out, t.x0, t.y0, t.w, t.h, c, v, v)
  {
    var out := Pixelate(img, blockSize);
    var t := TileOf(img, blockSize, x, y);
    var v := Chan(At(out, x, y), c);
    forall x2, y2 | t.x0 <= x2 < t.x0 + t.w && t.y0 <= y2 < t.y0 + t.h
      ensures v <= Chan(At(out, x2, y2), c) <= v
    {
      UniformTiles(img, blockSize, x, y, x2, y2);
    }
  }

  /** In the output, every tile mean is the value the tile already carries. */
  lemma OutputTileMean(img: Image, blockSize: nat, x: nat, y: nat, c: Channel)
    requires WellSized(img) && blockSize > 0 && x < img.width && y < img.height
    ensures TileMean(Pixelate(img, blockSize), blockSize, x, y, c) == Chan(At(Pixelate(img, blockSize), x, y), c)
  {
    var out := Pixelate(img, blockSize);
    var t := TileOf(img, blockSize, x, y);
    assert TileOf(out, blockSize, x, y) == t;
    var v := Chan(At(out, x, y), c);
    OutputTileConstant(img, blockSize, x, y, c);
    RectSumConstant(out, t.x0, t.y0, t.w, t.h, c, v);
    var area := t.w * t.h;
    MulPositive(t.w, t.h);
    RoundMeanExact(area, v);
    assert TileMean(out, blockSize, x, y, c) == RoundMean(RectSum(out, t.x0, t.y0, t.w, t.h, c), area);
  }

  /** Pixelating the output again with the same block size changes nothing. */
  lemma PixelateIdempotent(img: Image, blockSize: nat)
    requires WellSized(img) && blockSize > 0
    ensures Pixelate(Pixelate(img, blockSize), blockSize) == Pixelate(img, blockSize)
  {
    var out := Pixelate(img, blockSize);
    var again := Pixelate(out, blockSize);
    forall x: nat, y: nat | x < img.width && y < img.height
      ensures At(again, x, y) == At(out, x, y)
    {
      OutputTileMean(img, blockSize, x, y, Red);
      OutputTileMean(img, blockSize, x, y, Green);
      OutputTileMean(img, blockSize, x, y, Blue);
      OutputTileMean(img, blockSize, x, y, Alpha);
    }
    SameImage(again, out);
  }

  /** Images of equal dimensions that agree at every position are equal. */
  lemma SameImage(a: Image, b: Image)
    requires WellSized(a) && WellSized(b) && a.width == b.width && a.height == b.height
    requires forall x: nat, y: nat :: x < a.width && y < a.height ==> At(a, x, y) == At(b, x, y)
    ensures a == b
  {
    forall p | 0 <= p < |a.pixels|
      ensures a.pixels[p] == b.pixels[p]
    {
      IndexRoundTrip(p, a.width, a.height);
      assert At(a, p % a.width, p / a.width) == At(b, p % a.width, p / a.width);
    }
  }
  // ----- one channel on its own -----

  /** Images of equal dimensions that agree on channel `c` at every position. */
  predicate SameChannel(a: Image, b: Image, c: Channel) {
    && a.width == b.width && a.height == b.height && |a.pixels| == |b.pixels|
    && forall i :: 0 <= i < |a.pixels| ==> Chan(a.pixels[i], c) == Chan(b.pixels[i], c)
  }

  lemma {:induction false} RowSumSameChannel(a: Image, b: Image, x0: nat, y: nat, n: nat, c: Channel)
    requires WellSized(a) && WellSized(b) && SameChannel(a, b, c) && x0 + n <= a.width && y < a.height
    ensures RowSum(a, x0, y, n, c) == RowSum(b, x0, y, n, c)
  {
    if n > 0 {
      RowSumSameChannel(a, b, x0, y, n - 1, c);
      IndexInRange(x0 + n - 1, y, a.width, a.height);
    }
  }

  lemma {:induction false} RectSumSameChannel(a: Image, b: Image, x0: nat, y0: nat, bw: nat, bh: nat, c: Channel)
    requires WellSized(a) && WellSized(b) && SameChannel(a, b, c)
    requires x0 + bw <= a.width && y0 + bh <= a.height
    ensures RectSum(a, x0, y0, bw, bh, c) == RectSum(b, x0, y0, bw, bh, c)
  {
    if bh > 0 {
      RectSumSameChannel(a, b, x0, y0, bw, bh - 1, c);
      RowSumSameChannel(a, b, x0, y0 + bh - 1, bw, c);
    }
  }

  /**
   * A tile's mean of one channel depends on that channel alone: images that agree
   * on it have the same pixelated value of it everywhere.
   */
  lemma PixelateChannelOnly(a: Image, b: Image, blockSize: nat, x: nat, y: nat, c: Channel)
    requires WellSized(a) && WellSized(b) && SameChannel(a, b, c) && blockSize > 0
    requires x < a.width && y < a.height
    ensures Chan(At(Pixelate(a, blockSize), x, y), c) == Chan(At(Pixelate(b, blockSize), x, y), c)
    ensures Chan(At(Pixelate(a, blockSize), x, y), c) == TileMean(b, blockSize, x, y, c)
  {
    var t := TileOf(a, blockSize, x, y);
    assert t == TileOf(b, blockSize, x, y);
    RectSumSameChannel(a, b, t.x0, t.y0, t.w, t.h, c);
  }
}
