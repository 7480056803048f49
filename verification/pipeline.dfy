/**
 * The three-stage processing pass: adjustments, optional pixelation, then palette
 * mapping (ordered dithering or plain quantisation). The worker runs it on a raw
 * RGBA buffer with a colour table; the shared pipeline module runs it on an
 * image with the direct-search stages.
 */
module Pipeline {
  import opened Pixels
  import opened Nearest
  import opened ColorLut
  import opened Bayer
  import opened Adjustments
  import opened Pixelate
  import opened Dither

  datatype PixelationParams = PixelationParams(enabled: bool, blockSize: nat)

  datatype DitheringParams = DitheringParams(enabled: bool, matrixSize: MatrixSize, strength: real)

  datatype ProcessingParams = ProcessingParams(
    adjustments: AdjustmentParams,
    pixelation: PixelationParams,
    dithering: DitheringParams)

  /** Pixelation runs only when it is enabled with a block larger than one pixel. */
  predicate Pixelates(p: ProcessingParams) {
    p.pixelation.enabled && p.pixelation.blockSize > 1
  }

  /** Dither blocks follow the pixelation blocks when pixelation is enabled, else single pixels. */
  function DitherBlockSize(p: ProcessingParams): nat {
    if p.pixelation.enabled then p.pixelation.blockSize else 1
  }

  /** Stages 1 and 2, which both variants share. */
  function AdjustAndPixelate(img: Image, params: ProcessingParams, hsl: HslCodec): (out: Image)
    requires WellSized(img) && InSliderRange(params.adjustments)
    ensures WellSized(out) && out.width == img.width && out.height == img.height
  {
    var adjusted := ApplyAdjustments(img, params.adjustments, hsl);
    if Pixelates(params) then Pixelate.Pixelate(adjusted, params.pixelation.blockSize) else adjusted
  }

  /** The worker's pass: the table is built from the palette for every request. */
  function WorkerProcess(img: Image, params: ProcessingParams, palette: seq<RGB>, hsl: HslCodec): (out: Image)
    requires WellSized(img) && InSliderRange(params.adjustments)
    ensures WellSized(out) && out.width == img.width && out.height == img.height
  {
    var staged := AdjustAndPixelate(img, params, hsl);
    if |palette| == 0 then staged
    else
      var lut := BuildColorLUT(palette);
      if params.dithering.enabled then
        ApplyBayerDithering(staged, CentredMatrix(params.dithering.matrixSize), params.dithering.strength,
                            DitherBlockSize(params), lut)
      else QuantizeToPalette(staged, lut)
  }

  /**
   * `processImage` of the pipeline module. The dithering and quantisation it
   * calls search the palette directly; the table and block size it also passes
   * are ignored by them. A non-empty palette is checked first, so the search
   * always succeeds.
   */
  function ProcessImage(img: Image, params: ProcessingParams, palette: seq<RGB>, hsl: HslCodec): (out: Image)
    requires WellSized(img) && InSliderRange(params.adjustments)
    ensures WellSized(out) && out.width == img.width && out.height == img.height
  {
    var staged := AdjustAndPixelate(img, params, hsl);
    if |palette| == 0 then staged
    else if params.dithering.enabled then
      DirectDithering(staged, FractionMatrix(params.dithering.matrixSize), params.dithering.strength, palette).value
    else DirectQuantize(staged, palette).value
  }

  /** Neutral adjustments, no pixelation and no palette leave the image untouched in both variants. */
  lemma NeutralSettingsAreIdentity(img: Image, params: ProcessingParams, hsl: HslCodec)
    requires WellSized(img) && IsNeutral(params.adjustments) && !Pixelates(params)
    ensures WorkerProcess(img, params, [], hsl) == img
    ensures ProcessImage(img, params, [], hsl) == img
  {
  }

  /** With a palette, every output colour of the worker's pass is a palette entry. */
  lemma WorkerPaletteClosure(img: Image, params: ProcessingParams, palette: seq<RGB>, hsl: HslCodec)
    requires WellSized(img) && InSliderRange(params.adjustments)
    requires ValidPalette(palette) && |palette| > 0
    ensures forall i :: 0 <= i < |img.pixels| ==>
      ColorOf(WorkerProcess(img, params, palette, hsl).pixels[i]) in palette
  {
    var staged := AdjustAndPixelate(img, params, hsl);
    var lut := BuildColorLUT(palette);
    var out := WorkerProcess(img, params, palette, hsl);
    if params.dithering.enabled {
      DitherClosureAll(staged, CentredMatrix(params.dithering.matrixSize), params.dithering.strength,
                       DitherBlockSize(params), lut);
    } else {
      QuantizeClosure(staged, lut);
    }
  }

  /** With a palette, every output colour of the pipeline module's pass is a palette entry. */
  lemma ProcessPaletteClosure(img: Image, params: ProcessingParams, palette: seq<RGB>, hsl: HslCodec)
    requires WellSized(img) && InSliderRange(params.adjustments)
    requires ValidPalette(palette) && |palette| > 0
    ensures forall i :: 0 <= i < |img.pixels| ==>
      ColorOf(ProcessImage(img, params, palette, hsl).pixels[i]) in palette
  {
    var staged := AdjustAndPixelate(img, params, hsl);
    if params.dithering.enabled {
      DirectDitheringClosure(staged, FractionMatrix(params.dithering.matrixSize), params.dithering.strength, palette);
    } else {
      forall i | 0 <= i < |img.pixels|
        ensures ColorOf(ProcessImage(img, params, palette, hsl).pixels[i]) in palette
      {
        DirectQuantizeContents(staged, palette, i);
      }
    }
  }

  /** Dithering at strength 0 gives the same result as turning dithering off, in the worker. */
  lemma WorkerZeroStrength(img: Image, params: ProcessingParams, palette: seq<RGB>, hsl: HslCodec)
    requires WellSized(img) && InSliderRange(params.adjustments)
    requires params.dithering.enabled && params.dithering.strength == 0.0
    ensures WorkerProcess(img, params, palette, hsl)
         == WorkerProcess(img, params.(dithering := params.dithering.(enabled := false)), palette, hsl)
  {
    if |palette| > 0 {
      var staged := AdjustAndPixelate(img, params, hsl);
      ZeroStrengthIsQuantize(staged, CentredMatrix(params.dithering.matrixSize), DitherBlockSize(params),
                             BuildColorLUT(palette));
    }
  }

  /** Dithering at strength 0 gives the same result as turning dithering off, in the pipeline module. */
  lemma ProcessZeroStrength(img: Image, params: ProcessingParams, palette: seq<RGB>, hsl: HslCodec)
    requires WellSized(img) && InSliderRange(params.adjustments)
    requires params.dithering.enabled && params.dithering.strength == 0.0
    ensures ProcessImage(img, params, palette, hsl)
         == ProcessImage(img, params.(dithering := params.dithering.(enabled := false)), palette, hsl)
  {
    if |palette| > 0 {
      var staged := AdjustAndPixelate(img, params, hsl);
      DirectZeroStrengthIsQuantize(staged, FractionMatrix(params.dithering.matrixSize), palette);
    }
  }

  /**
   * The palette stage copies alpha in both variants, whatever the palette holds:
   * imported palettes are not range-checked, and only the colour channels are painted.
   */
  lemma MappingKeepsAlpha(img: Image, params: ProcessingParams, palette: seq<RGB>, hsl: HslCodec)
    requires WellSized(img) && InSliderRange(params.adjustments)
    ensures var staged := AdjustAndPixelate(img, params, hsl);
      forall i :: 0 <= i < |img.pixels| ==>
        && WorkerProcess(img, params, palette, hsl).pixels[i].a == staged.pixels[i].a
        && ProcessImage(img, params, palette, hsl).pixels[i].a == staged.pixels[i].a
  {
    var staged := AdjustAndPixelate(img, params, hsl);
    if |palette| > 0 && params.dithering.enabled {
      DitherKeepsAlpha(staged, CentredMatrix(params.dithering.matrixSize), params.dithering.strength,
                       DitherBlockSize(params), BuildColorLUT(palette));
      DirectDitheringKeepsAlpha(staged, FractionMatrix(params.dithering.matrixSize), params.dithering.strength, palette);
    }
  }

  /** Without pixelation every stage copies alpha, so the output alpha is the input alpha. */
  lemma AlphaKeptWithoutPixelation(img: Image, params: ProcessingParams, palette: seq<RGB>, hsl: HslCodec)
    requires WellSized(img) && InSliderRange(params.adjustments) && !Pixelates(params)
    ensures forall i :: 0 <= i < |img.pixels| ==> WorkerProcess(img, params, palette, hsl).pixels[i].a == img.pixels[i].a
    ensures forall i :: 0 <= i < |img.pixels| ==> ProcessImage(img, params, palette, hsl).pixels[i].a == img.pixels[i].a
  {
    MappingKeepsAlpha(img, params, palette, hsl);
  }

  /**
   * With pixelation, the output alpha at every position is the rounded mean of the
   * input alpha over that position's tile: adjustments copy alpha, pixelation
   * averages it, and the palette stage copies it.
   */
  lemma AlphaWithPixelation(img: Image, params: ProcessingParams, palette: seq<RGB>, hsl: HslCodec, x: nat, y: nat)
    requires WellSized(img) && InSliderRange(params.adjustments) && Pixelates(params)
    requires x < img.width && y < img.height
    ensures At(WorkerProcess(img, params, palette, hsl), x, y).a
         == TileMean(img, params.pixelation.blockSize, x, y, Alpha)
    ensures At(ProcessImage(img, params, palette, hsl), x, y).a
         == TileMean(img, params.pixelation.blockSize, x, y, Alpha)
  {
    var adjusted := ApplyAdjustments(img, params.adjustments, hsl);
    PixelateChannelOnly(adjusted, img, params.pixelation.blockSize, x, y, Alpha);
    MappingKeepsAlpha(img, params, palette, hsl);
    IndexInRange(x, y, img.width, img.height);
  }

  // ----- the worker's message handler -----

  datatype ProcessRequest = ProcessRequest(
    requestId: int, imageBuffer: seq<byte>, width: nat, height: nat,
    params: ProcessingParams, palette: seq<RGB>)

  datatype ProcessResponse = ProcessResponse(requestId: int, imageBuffer: seq<byte>, width: nat, height: nat)

  /** A request as the coordinator builds it: the buffer of a width×height image, slider-range settings. */
  predicate WellFormedRequest(req: ProcessRequest) {
    |req.imageBuffer| == 4 * (req.width * req.height) && InSliderRange(req.params.adjustments)
  }

  /** The pixels a request carries. */
  function RequestImage(req: ProcessRequest): (img: Image)
    requires WellFormedRequest(req)
    ensures WellSized(img)
  {
    Image(req.width, req.height, Decode(req.imageBuffer))
  }

  /** `onmessage`: process the request's pixels and answer with the same id and dimensions. */
  function HandleRequest(req: ProcessRequest, hsl: HslCodec): (resp: ProcessResponse)
    requires WellFormedRequest(req)
    ensures resp.requestId == req.requestId && resp.width == req.width && resp.height == req.height
    ensures |resp.imageBuffer| == |req.imageBuffer|
  {
    var out := WorkerProcess(RequestImage(req), req.params, req.palette, hsl);
    ProcessResponse(req.requestId, Encode(out.pixels), req.width, req.height)
  }

  /** The response buffer decodes to exactly the processed image of the request. */
  lemma ResponseCarriesResult(req: ProcessRequest, hsl: HslCodec)
    requires WellFormedRequest(req)
    ensures var resp := HandleRequest(req, hsl);
      Image(resp.width, resp.height, Decode(resp.imageBuffer))
        == WorkerProcess(RequestImage(req), req.params, req.palette, hsl)
  {
    DecodeEncode(WorkerProcess(RequestImage(req), req.params, req.palette, hsl).pixels);
  }
}
