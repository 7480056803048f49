/**
 * Tonal adjustments: brightness, then contrast, then saturation and hue through
 * HSL, per pixel, with alpha copied. The HSL conversions themselves are supplied
 * by the caller as a pair of functions.
 */
module Adjustments {
  import opened Pixels

  datatype AdjustmentParams = AdjustmentParams(brightness: int, contrast: int, saturation: int, hue: int)

  /** The ranges the adjustment sliders produce. */
  predicate InSliderRange(a: AdjustmentParams) {
    && -100 <= a.brightness <= 100
    && -100 <= a.contrast <= 100
    && -100 <= a.saturation <= 100
    && -180 <= a.hue <= 180
  }

  predicate IsNeutral(a: AdjustmentParams) {
    a.brightness == 0 && a.contrast == 0 && a.saturation == 0 && a.hue == 0
  }

  /** `rgbToHsl` (channels 0..255 to H in degrees, S and L in percent) and `hslToRgb`. */
  datatype HslCodec = HslCodec(toHsl: (real, real, real) -> (real, real, real),
                               toRgb: (real, real, real) -> (real, real, real))

  /** `(brightness / 100) * 255`. */
  function BrightnessOffset(brightness: int): real {
    (brightness as real / 100.0) * 255.0
  }

  /** `259 (c + 255) / (255 (259 − c))`. */
  function ContrastFactor(contrast: int): (f: real)
    requires -100 <= contrast <= 100
    ensures f > 0.0
    ensures contrast == 0 ==> f == 1.0
  {
    (259.0 * (contrast + 255) as real) / (255.0 * (259 - contrast) as real)
  }

  /** Brightness step: add the offset and clamp; skipped when brightness is 0. */
  function Brighten(v: real, brightness: int): real {
    if brightness != 0 then ClampReal(v + BrightnessOffset(brightness), 0.0, 255.0) else v
  }

  /** Contrast step: `factor · (v − 128) + 128`, clamped; skipped when contrast is 0. */
  function Contrast(v: real, contrast: int): real
    requires -100 <= contrast <= 100
  {
    if contrast != 0 then ClampReal(ContrastFactor(contrast) * (v - 128.0) + 128.0, 0.0, 255.0) else v
  }

  /** JavaScript's `%` on numbers: the remainder takes the sign of the dividend. */
  function JsRem(x: real, m: real): real
    requires m > 0.0
  {
    if x >= 0.0 then x - m * ((x / m).Floor as real)
    else -((-x) - m * (((-x) / m).Floor as real))
  }

  /** Hue step: `(h + hue + 360) % 360`; skipped when hue is 0. */
  function RotateHue(h: real, hue: int): real {
    if hue != 0 then JsRem(h + hue as real + 360.0, 360.0) else h
  }

  /** Saturation step: add and clamp to [0, 100]; skipped when saturation is 0. */
  function Saturate(s: real, saturation: int): real {
    if saturation != 0 then ClampReal(s + saturation as real, 0.0, 100.0) else s
  }

  /** One pixel: brightness, contrast, then (if needed) the HSL round trip; alpha copied. */
  function AdjustPixel(p: Pixel, a: AdjustmentParams, hsl: HslCodec): Pixel
    requires InSliderRange(a)
  {
    var r := Contrast(Brighten(p.r as real, a.brightness), a.contrast);
    var g := Contrast(Brighten(p.g as real, a.brightness), a.contrast);
    var b := Contrast(Brighten(p.b as real, a.brightness), a.contrast);
    if a.saturation != 0 || a.hue != 0 then
      var (h, s, l) := hsl.toHsl(r, g, b);
      var (r2, g2, b2) := hsl.toRgb(RotateHue(h, a.hue), Saturate(s, a.saturation), l);
      Pixel(RealToByte(r2), RealToByte(g2), RealToByte(b2), p.a)
    else
      Pixel(RealToByte(r), RealToByte(g), RealToByte(b), p.a)
  }

  /**
   * `applyAdjustments`: with all four parameters 0 the very same image comes back;
   * otherwise every pixel is adjusted. Dimensions and alpha are always kept.
   */
  function ApplyAdjustments(img: Image, a: AdjustmentParams, hsl: HslCodec): (out: Image)
    requires InSliderRange(a)
    ensures out.width == img.width && out.height == img.height && |out.pixels| == |img.pixels|
    ensures IsNeutral(a) ==> out == img
    ensures forall i :: 0 <= i < |out.pixels| ==> out.pixels[i].a == img.pixels[i].a
  {
    if IsNeutral(a) then img
    else Image(img.width, img.height, seq(|img.pixels|, i requires 0 <= i < |img.pixels| => AdjustPixel(img.pixels[i], a, hsl)))
  }

  // ----- properties of the steps -----

  /** Skipping a zero brightness or contrast step changes nothing: the formulas are then the identity. */
  lemma ZeroStepsAreIdentity(v: real)
    requires 0.0 <= v <= 255.0
    ensures ClampReal(v + BrightnessOffset(0), 0.0, 255.0) == v
    ensures ClampReal(ContrastFactor(0) * (v - 128.0) + 128.0, 0.0, 255.0) == v
  {
  }

  /** Mid-grey is the fixed point of every contrast setting. */
  lemma ContrastFixesMidGrey(contrast: int)
    requires -100 <= contrast <= 100
    ensures Contrast(128.0, contrast) == 128.0
  {
  }

  /** The contrast step never reverses the order of two channel values. */
  lemma ContrastMonotone(u: real, v: real, contrast: int)
    requires -100 <= contrast <= 100 && u <= v
    ensures Contrast(u, contrast) <= Contrast(v, contrast)
  {
    if contrast != 0 {
      var f := ContrastFactor(contrast);
      assert f * (v - 128.0) - f * (u - 128.0) == f * (v - u);
      assert f * (u - 128.0) + 128.0 <= f * (v - 128.0) + 128.0;
      ClampRealMonotone(f * (u - 128.0) + 128.0, f * (v - 128.0) + 128.0, 0.0, 255.0);
    }
  }

  /** For h in [0, 360) and hue in [−180, 180], the rotated hue stays in [0, 360). */
  lemma HueStaysInRange(h: real, hue: int)
    requires 0.0 <= h < 360.0 && -180 <= hue <= 180
    ensures 0.0 <= RotateHue(h, hue) < 360.0
  {
    if hue != 0 {
      var x := h + hue as real + 360.0;
      var q := (x / 360.0).Floor;
      assert (q as real) <= x / 360.0 < (q + 1) as real;
      assert (q as real) * 360.0 <= x < ((q + 1) as real) * 360.0;
    }
  }

  /** The saturation step keeps S in [0, 100]. */
  lemma SaturationStaysInRange(s: real, saturation: int)
    requires 0.0 <= s <= 100.0
    ensures 0.0 <= Saturate(s, saturation) <= 100.0
  {
  }

  lemma RealToByteAtLeast(x: real, v: byte)
    requires v as real <= x
    ensures v <= RealToByte(x)
  {
  }

  lemma RealToByteAtMost(x: real, v: byte)
    requires x <= v as real
    ensures RealToByte(x) <= v
  {
  }

  /**
   * With only brightness set, a non-negative brightness never darkens a channel
   * and a non-positive one never brightens it.
   */
  lemma BrightnessDirection(p: Pixel, a: AdjustmentParams, hsl: HslCodec)
    requires InSliderRange(a) && a.contrast == 0 && a.saturation == 0 && a.hue == 0
    ensures var q := AdjustPixel(p, a, hsl);
      && (a.brightness >= 0 ==> q.r >= p.r && q.g >= p.g && q.b >= p.b)
      && (a.brightness <= 0 ==> q.r <= p.r && q.g <= p.g && q.b <= p.b)
      && q.a == p.a
  {
    var q := AdjustPixel(p, a, hsl);
    if a.brightness >= 0 {
      RealToByteAtLeast(Brighten(p.r as real, a.brightness), p.r);
      RealToByteAtLeast(Brighten(p.g as real, a.brightness), p.g);
      RealToByteAtLeast(Brighten(p.b as real, a.brightness), p.b);
    }
    if a.brightness <= 0 {
      RealToByteAtMost(Brighten(p.r as real, a.brightness), p.r);
      RealToByteAtMost(Brighten(p.g as real, a.brightness), p.g);
      RealToByteAtMost(Brighten(p.b as real, a.brightness), p.b);
    }
  }

  /**
   * With only brightness set, at +50 or more every channel from 128 up saturates
   * to 255 (the offset is at least 127.5); alpha is kept.
   */
  lemma BrightnessSaturatesUpperHalf(p: Pixel, a: AdjustmentParams, hsl: HslCodec)
    requires InSliderRange(a) && a.contrast == 0 && a.saturation == 0 && a.hue == 0
    requires a.brightness >= 50
    ensures var q := AdjustPixel(p, a, hsl);
      && (p.r >= 128 ==> q.r == 255) && (p.g >= 128 ==> q.g == 255) && (p.b >= 128 ==> q.b == 255)
      && q.a == p.a
  {
    assert BrightnessOffset(a.brightness) >= 127.5;
  }
}
