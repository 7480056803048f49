/** RGBA8 pixels, the byte buffers they live in, and the typed-array store rules. */
module Pixels {

  /** A value a `Uint8ClampedArray` cell can hold. */
  type byte = x: int | 0 <= x < 256

  /** One RGBA pixel; four consecutive cells of the row-major buffer. */
  datatype Pixel = Pixel(r: byte, g: byte, b: byte, a: byte)

  /** A palette colour. Channels are plain numbers: imported palettes are not range-checked. */
  datatype RGB = RGB(r: int, g: int, b: int)

  predicate IsByte(x: int) {
    0 <= x < 256
  }

  /** A colour whose channels all lie in 0..255. */
  predicate ValidColor(c: RGB) {
    IsByte(c.r) && IsByte(c.g) && IsByte(c.b)
  }

  predicate ValidPalette(palette: seq<RGB>) {
    forall i :: 0 <= i < |palette| ==> ValidColor(palette[i])
  }

  /** The colour part of a pixel. */
  function ColorOf(p: Pixel): (c: RGB)
    ensures ValidColor(c)
  {
    RGB(p.r, p.g, p.b)
  }

  /** Storing an integer into a `Uint8ClampedArray` cell: saturate to 0..255. */
  function ClampByte(x: int): (v: byte)
    ensures x < 0 ==> v == 0
    ensures x > 255 ==> v == 255
    ensures IsByte(x) ==> v == x
  {
    if x < 0 then 0 else if x > 255 then 255 else x
  }

  /** Clamping a real to [lo, hi], the source's `Math.max(lo, Math.min(hi, v))`. */
  function ClampReal(v: real, lo: real, hi: real): (c: real)
    requires lo <= hi
    ensures lo <= c <= hi
    ensures lo <= v <= hi ==> c == v
    ensures v < lo ==> c == lo
    ensures hi < v ==> c == hi
  {
    if v < lo then lo else if hi < v then hi else v
  }

  lemma ClampRealMonotone(x: real, y: real, lo: real, hi: real)
    requires lo <= hi && x <= y
    ensures ClampReal(x, lo, hi) <= ClampReal(y, lo, hi)
  {
  }

  /**
   * Storing a number into a `Uint8ClampedArray` cell (ToUint8Clamp): saturate,
   * then round to nearest with ties to even.
   */
  function RealToByte(x: real): (v: byte)
    ensures x <= 0.0 ==> v == 0
    ensures x >= 255.0 ==> v == 255
    ensures 0.0 <= x <= 255.0 ==> x - 0.5 <= v as real <= x + 0.5
  {
    if x <= 0.0 then 0
    else if x >= 255.0 then 255
    else
      var f := x.Floor;
      if x - f as real < 0.5 then f
      else if x - f as real > 0.5 then f + 1
      else if f % 2 == 0 then f
      else f + 1
  }

  /** An integer stored through the real path lands exactly where ClampByte puts it. */
  lemma RealToByteOfInt(x: int)
    ensures RealToByte(x as real) == ClampByte(x)
  {
    if 0 < x < 255 {
      assert (x as real).Floor == x;
    }
  }

  /** The pixels a byte buffer holds, four cells per pixel. */
  function Decode(buf: seq<byte>): (px: seq<Pixel>)
    requires |buf| % 4 == 0
    ensures 4 * |px| == |buf|
    ensures forall i :: 0 <= i < |px| ==>
      px[i] == Pixel(buf[4 * i], buf[4 * i + 1], buf[4 * i + 2], buf[4 * i + 3])
  {
    seq(|buf| / 4, i requires 0 <= i < |buf| / 4 =>
      Pixel(buf[4 * i], buf[4 * i + 1], buf[4 * i + 2], buf[4 * i + 3]))
  }

  /** The byte buffer holding the given pixels, row-major RGBA. */
  function Encode(px: seq<Pixel>): (buf: seq<byte>)
    ensures |buf| == 4 * |px|
  {
    if |px| == 0 then []
    else [px[0].r, px[0].g, px[0].b, px[0].a] + Encode(px[1..])
  }

  lemma {:induction false} EncodeCells(px: seq<Pixel>, i: int)
    requires 0 <= i < |px|
    ensures Encode(px)[4 * i] == px[i].r
    ensures Encode(px)[4 * i + 1] == px[i].g
    ensures Encode(px)[4 * i + 2] == px[i].b
    ensures Encode(px)[4 * i + 3] == px[i].a
  {
    if i > 0 {
      EncodeCells(px[1..], i - 1);
    }
  }

  /** Reading a buffer back after writing pixels gives the same pixels. */
  lemma DecodeEncode(px: seq<Pixel>)
    ensures Decode(Encode(px)) == px
  {
    var d := Decode(Encode(px));
    forall i | 0 <= i < |px|
      ensures d[i] == px[i]
    {
      EncodeCells(px, i);
    }
  }

  /** Writing the pixels of a buffer gives back the same buffer. */
  lemma EncodeDecode(buf: seq<byte>)
    requires |buf| % 4 == 0
    ensures Encode(Decode(buf)) == buf
  {
    var px := Decode(buf);
    var e := Encode(px);
    forall k | 0 <= k < |buf|
      ensures e[k] == buf[k]
    {
      var i := k / 4;
      EncodeCells(px, i);
      assert k == 4 * i + k % 4;
    }
  }

  // ----- row-major geometry -----

  /** An `ImageData`: dimensions and the row-major pixels. */
  datatype Image = Image(width: nat, height: nat, pixels: seq<Pixel>)

  /** The `ImageData` invariant: the buffer holds exactly width·height pixels. */
  predicate WellSized(img: Image) {
    |img.pixels| == img.width * img.height
  }

  /** The pixel at column x, row y. */
  function At(img: Image, x: nat, y: nat): Pixel
    requires WellSized(img) && x < img.width && y < img.height
  {
    IndexInRange(x, y, img.width, img.height);
    img.pixels[IndexOf(x, y, img.width)]
  }

  /** The pixel index of (x, y) in a row-major image `width` pixels wide. */
  function IndexOf(x: nat, y: nat, width: nat): nat {
    y * width + x
  }

  lemma IndexInRange(x: nat, y: nat, width: nat, height: nat)
    requires x < width && y < height
    ensures IndexOf(x, y, width) < width * height
  {
    assert y * width + x < y * width + width == (y + 1) * width;
    MulMono(y + 1, height, width);
  }

  lemma MulMono(a: int, b: int, c: int)
    ensures 0 <= c && a <= b ==> a * c <= b * c
  {
  }

  /** Splitting a pixel index into its column and row and joining them again is the identity. */
  lemma IndexRoundTrip(p: nat, width: nat, height: nat)
    requires p < width * height
    ensures width > 0
    ensures p % width < width && p / width < height
    ensures IndexOf(p % width, p / width, width) == p
  {
    if p / width >= height {
      MulMono(height, p / width, width);
    }
  }

  /** The column and row of an index built from (x, y) are x and y. */
  lemma CoordsOfIndex(x: nat, y: nat, width: nat)
    requires x < width
    ensures IndexOf(x, y, width) % width == x
    ensures IndexOf(x, y, width) / width == y
  {
    var p := y * width + x;
    DivModUnique(p, width, y, x);
  }

  lemma DivModUnique(p: int, d: int, q: int, r: int)
    requires d > 0 && 0 <= r < d && p == q * d + r
    ensures p / d == q && p % d == r
  {
    MulMono(q + 1, p / d, d);
    MulMono(p / d + 1, q, d);
  }
}
