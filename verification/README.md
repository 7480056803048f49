# Pixelate: a Dafny model of the pixel pipeline and its state

Pixelate is a browser tool that turns images (or frame sequences) into pixel art.
It applies brightness, contrast, saturation and hue adjustments. It averages the
image over square blocks. Finally it maps every pixel onto a palette, either
directly or with an ordered (Bayer) dither. Palettes come from a colour-strip
image or from a GIMP `.gpl` file, and can be written back as GPL text. Processing
runs in a Web Worker. A small coordinator on the main thread keeps only the
newest request alive. The application store caches processed frames, stamped
with the version of the parameters they were made under.

This project models that core as pure Dafny functions over immutable data and
proves what each stage promises.

| module | file | what it models |
|---|---|---|
| `Wrappers` | wrappers.dfy | `Option` (for `undefined` and thrown errors) |
| `Pixels` | pixels.dfy | bytes, RGBA pixels, palette colours, `ImageData`, the row-major buffer, `Uint8ClampedArray` stores |
| `Nearest` | nearest.dfy | `findNearestColor`: the weighted distance and the first-minimum scan |
| `ColorLut` | color_lut.dfy | `buildColorLUT`, `lookupColor`, `lookupColorValues`: the 32³ bucket table |
| `Bayer` | bayer.dfy | the 2×2, 4×4 and 8×8 Bayer tables and both `getBayerMatrix` variants |
| `Adjustments` | adjustments.dfy | `applyAdjustments` (brightness, contrast, hue, saturation) |
| `Pixelate` | pixelate.dfy | `pixelate`: block means rounded with `Math.round` |
| `Dither` | dither.dfy | the worker's table-driven `applyBayerDithering` / `quantizeToPalette`, and the direct-search versions of `dither.ts` |
| `Pipeline` | pipeline.dfy | `processImage` and the worker's `onmessage` |
| `Coordinator` | coordinator.dfy | `workerProcessor.ts`: request ids, stale replies, cancel, terminate |
| `PaletteExtract` | palette_extract.dfy | `extractPaletteFromStrip`, `deduplicateColors`, `sampleColors` |
| `Text` | text.dfy | the JavaScript string operations the GPL code relies on (`split`, `join`, `trim`, `startsWith`, `toString`, `padStart`, `parseInt` on digit runs, ASCII case mapping) |
| `PaletteFiles` | palette_files.dfy | `exportAsGPL`, `parseGPL`, `rgbToHex`, `parsePaletteFile` |
| `AppStore` | app_store.dfy | the store's reducers, the image cache and the version check of `processCurrentFrame` |

Modelling choices:

- Channels in images are bytes. Palette channels are plain integers, because imported palettes are not range-checked. Palette-closure results therefore require `ValidPalette`.
- Every write into a `Uint8ClampedArray` is explicit:
  - `ClampByte` for integers;
  - `RealToByte` for fractional values, which saturates and rounds half to even as ToUint8Clamp does.
- Palette indices written into the table's `Uint8Array` wrap modulo 256. The "nearest entry" guarantee of the table is stated for palettes of 1 to 256 colours.
- The worker and `dither.ts` build their Bayer matrices differently:
  - the worker stores centred thresholds `k/N² − 0.5`;
  - `dither.ts` stores `k/N²` and subtracts 0.5 when it uses a cell.
  
  `Bayer.MatricesAgree` and `Dither.PixelOffsetIsUnitBlocks` prove that the two give the same offsets.
- `pipeline.ts` as written cannot run: it imports `buildColorLUT` from `dither.ts`, which does not export it. A strict module loader refuses to link the file; a lenient bundler yields `undefined`, and the call at `pipeline.ts:30` then throws a `TypeError` whenever the palette is non-empty and no table is passed in. The re-export at line 52 fails the same way. `Pipeline.ProcessImage` models the evidently intended module, as if the builder came from `colorLUT.ts`, where it is defined. The file's `applyBayerDithering` and `quantizeToPalette` also ignore the table and block size they are handed. `Pipeline.ProcessImage` therefore models `pipeline.ts` with the direct-search stages. `Pipeline.WorkerProcess` models the worker with the table-driven stages.
- The coordinator is a state machine. Its events are calls, timer firings, replies, worker errors, cancel and terminate. Its effects are posted messages, resolved and rejected callers, and terminated workers. Promise callbacks are identified by the id of the call that created them.
- The store's processing is split at the `await`:
  - `StartProcessing` captures the job;
  - `FinishProcessing` stores the result only if the parameter version has not moved.
  
  Between the two, any sequence of synchronous actions may run. How a frame is processed is a parameter (`Processor`). `AppStore.ProcessingKeepsCacheCurrent` proves that every image the cache reports as up to date is the processing of its original under the parameters and palette in force.

Behaviour of the code that differs from a first reading:

- A worker error rejects whichever caller is waiting, without checking which request failed.
- A caller superseded by a newer `processImageAsync`, or dropped by `terminateWorker`, is never settled: its promise stays pending.
- A result that arrives for a frame removed meanwhile is still written into the cache when the version has not moved.
- The colour table is an approximation. A colour that is itself in the palette can be mapped to another entry (`Dither.TableMapsMemberElsewhere`).

## Model

| member | source | states |
|---|---|---|
| Pixels.ClampByte | src/lib/processing/dither.ts:103-108 | storing a palette channel into a clamped cell saturates below 0 and above 255 and keeps bytes unchanged |
| Pixels.ClampReal | src/lib/processing/adjustments.ts:70-72 | `clamp` lands in [lo, hi], is the identity inside, and gives the nearer bound outside |
| Pixels.ClampRealMonotone | src/lib/processing/adjustments.ts:70-72 | clamping never reverses the order of two values |
| Pixels.RealToByte | src/lib/processing/adjustments.ts:130-133 | a fractional channel stored into a clamped cell saturates at 0 and 255 and is otherwise within one half of the value |
| Pixels.RealToByteOfInt | src/lib/processing/adjustments.ts:130-133 | an integer stored through the fractional path lands where the integer store puts it |
| Pixels.Decode | src/workers/imageProcessor.worker.ts:409 | a buffer of 4n cells holds n pixels, cell 4i..4i+3 being the R, G, B, A of pixel i |
| Pixels.DecodeEncode | src/workers/imageProcessor.worker.ts:447-448 | writing pixels into a buffer and reading them back gives the same pixels |
| Pixels.EncodeDecode | src/workers/imageProcessor.worker.ts:409 | reading a buffer and writing its pixels back gives the same buffer |
| Pixels.IndexRoundTrip | src/workers/imageProcessor.worker.ts:291-293 | splitting a pixel index into column and row and recombining it is the identity, within bounds |
| Pixels.CoordsOfIndex | src/lib/processing/dither.ts:81 | the index `y·width + x` has column x and row y |
| Nearest.Scan | src/lib/processing/dither.ts:50-61 | the strict-`<` scan ends on the first entry of minimum distance: none closer, every earlier one farther |
| Nearest.NearestIndex | src/lib/processing/dither.ts:46-64 | the search from an infinite best distance yields the first nearest index |
| Nearest.FirstNearestUnique | src/lib/processing/dither.ts:57 | the first nearest index is unique, so the table builder and the search must agree on it |
| Nearest.FindNearestColor | src/lib/processing/dither.ts:46-64 | `undefined` exactly for an empty palette; otherwise the colour at the first nearest index |
| Nearest.SearchFindsMember | src/lib/processing/dither.ts:46-64 | searching for a palette colour returns that colour |
| Nearest.DistanceZeroOnlyAtSelf | src/lib/processing/dither.ts:52-55 | the weighted distance is non-negative and zero exactly between equal colours |
| ColorLut.LutIndexBijection | src/lib/processing/colorLUT.ts:56 | `(rq<<10)+(gq<<5)+bq` maps bucket triples one-to-one into [0, 32768) and decodes back to the triple |
| ColorLut.LutIndexOnto | src/lib/processing/colorLUT.ts:26-57 | every table position is the index of the triple decoded from it |
| ColorLut.BuildColorLUT | src/lib/processing/colorLUT.ts:21-63 | an empty palette gives an empty table; otherwise 32768 byte entries, each a valid palette index |
| ColorLut.BuildEntry | src/lib/processing/colorLUT.ts:30-57 | for 1..256 colours, the entry of each bucket is the first nearest palette index to the bucket centre |
| ColorLut.ColorIndex | src/lib/processing/colorLUT.ts:70-73 | the bucket index of any byte colour is a valid table position |
| ColorLut.LookupColor | src/lib/processing/colorLUT.ts:69-75 | `undefined` exactly on an empty table, otherwise a palette colour |
| ColorLut.LookupColorValues | src/lib/processing/colorLUT.ts:81-93 | fails exactly on an empty table, otherwise yields the channels of a palette colour |
| ColorLut.LookupValuesAgree | src/lib/processing/colorLUT.ts:69-93 | the two lookups fail together and otherwise yield the same colour |
| ColorLut.CentreInBucket | src/lib/processing/colorLUT.ts:34-36 | a bucket centre `(q<<3)+4` is a byte in bucket q |
| ColorLut.LookupMatchesSearchAtCentres | src/lib/processing/colorLUT.ts:21-75 | at bucket centres, the table lookup returns exactly what `findNearestColor` returns |
| ColorLut.LookupIsSearchOfBucketCentre | src/lib/processing/colorLUT.ts:69-75 | the lookup of any colour is the search result for the centre of its bucket |
| Bayer.Position | src/workers/imageProcessor.worker.ts:241-262 | every value below 4^L appears in the level-L construction, at a returned position |
| Bayer.PatternRange | src/workers/imageProcessor.worker.ts:241-262 | every value of the construction lies in [0, 4^L) |
| Bayer.PatternInjective | src/workers/imageProcessor.worker.ts:241-262 | no value occurs twice in the construction |
| Bayer.TablesFollowConstruction | src/workers/imageProcessor.worker.ts:241-262 | the literal 2×2, 4×4 and 8×8 numerators equal the recursive Bayer construction cell by cell |
| Bayer.CellOf | src/lib/processing/dither.ts:4-25 | every numerator 0..N²−1 has a cell holding it |
| Bayer.TableIsPermutation | src/lib/processing/dither.ts:4-25 | each table holds every numerator 0..N²−1 exactly once |
| Bayer.Threshold | src/workers/imageProcessor.worker.ts:264-270 | every centred threshold lies in [−0.5, 0.5) |
| Bayer.MatricesAgree | src/lib/processing/dither.ts:35-45 | the worker's centred matrices are the standalone fraction matrices shifted down by 0.5, all cells in [−0.5, 0.5) |
| Adjustments.ContrastFactor | src/lib/processing/adjustments.ts:90 | the factor is positive for slider values and exactly 1 at contrast 0 |
| Adjustments.ApplyAdjustments | src/lib/processing/adjustments.ts:74-137 | the same image comes back when all four settings are 0; dimensions and every alpha are always kept |
| Adjustments.ZeroStepsAreIdentity | src/lib/processing/adjustments.ts:99-111 | skipping the brightness or contrast step at 0 changes nothing, since the formulas are then the identity |
| Adjustments.ContrastFixesMidGrey | src/lib/processing/adjustments.ts:107-111 | 128 is a fixed point of every contrast setting |
| Adjustments.ContrastMonotone | src/lib/processing/adjustments.ts:107-111 | the contrast step never reverses the order of two channel values |
| Adjustments.HueStaysInRange | src/lib/processing/adjustments.ts:118-120 | a rotated hue stays in [0, 360) |
| Adjustments.SaturationStaysInRange | src/lib/processing/adjustments.ts:123-125 | adjusted saturation stays in [0, 100] |
| Adjustments.BrightnessDirection | src/lib/processing/adjustments.ts:99-104 | with brightness alone, a non-negative setting never darkens a channel and a non-positive one never brightens it |
| Adjustments.BrightnessSaturatesUpperHalf | src/lib/processing/adjustments.ts:99-104 | with only brightness set, at +50 or more every channel of 128 and above becomes 255, alpha kept |
| Pixelate.RoundMeanIsMathRound | src/lib/processing/pixelate.ts:37-40 | the integer mean formula equals `Math.round(sum / count)` on the real quotient |
| Pixelate.TileOf | src/lib/processing/pixelate.ts:15-18 | every pixel lies in a tile of 1..blockSize per side, clipped at the image edge |
| Pixelate.Pixelate | src/lib/processing/pixelate.ts:5-56 | same dimensions, and each output pixel is the rounded RGBA mean of its tile |
| Pixelate.TilesPartition | src/lib/processing/pixelate.ts:15-18 | the tile of a pixel is the block grid cell starting at a multiple of blockSize that covers it |
| Pixelate.SameTile | src/lib/processing/pixelate.ts:15-18 | positions inside one tile find that same tile |
| Pixelate.UniformTiles | src/lib/processing/pixelate.ts:43-51 | every pixel of one output tile has the same RGBA value |
| Pixelate.TileMeanBetween | src/lib/processing/pixelate.ts:20-40 | a tile mean lies between the least and greatest channel value in the tile |
| Pixelate.TileMeanInRange | src/lib/processing/pixelate.ts:37-40 | every tile mean fits in a byte |
| Pixelate.RoundMeanExact | src/lib/processing/pixelate.ts:37-40 | the mean of a constant block is that constant |
| Pixelate.OutputTileMean | src/lib/processing/pixelate.ts:20-49 | re-averaging an output tile gives the value it already carries |
| Pixelate.PixelateIdempotent | src/lib/processing/pixelate.ts:5-56 | pixelating the output again with the same block size changes nothing |
| Dither.Perturb | src/workers/imageProcessor.worker.ts:309-314 | a perturbed channel is clamped into [0, 255] |
| Dither.PaintValid | src/lib/processing/dither.ts:103-108 | a painted pixel carries exactly the palette colour and the given alpha |
| Dither.MatrixCoord | src/workers/imageProcessor.worker.ts:302 | a wrapped coordinate is a valid matrix index |
| Dither.ApplyBayerDithering | src/workers/imageProcessor.worker.ts:272-340 | same dimensions; each pixel is the table lookup of its colour perturbed by its block's matrix offset |
| Dither.QuantizeToPalette | src/workers/imageProcessor.worker.ts:342-383 | same dimensions; each pixel mapped through the table |
| Dither.QuantizeContents | src/workers/imageProcessor.worker.ts:342-383 | with a table, each colour is the palette entry stored for the pixel's bucket; without one, the pixel passes through; alpha is copied |
| Dither.QuantizeClosure | src/workers/imageProcessor.worker.ts:342-383 | with a table, every output colour is a palette entry |
| Dither.DitherClosure | src/workers/imageProcessor.worker.ts:272-340 | with a table, every dithered colour is a palette entry and alpha is the input alpha |
| Dither.DitherClosureAll | src/workers/imageProcessor.worker.ts:272-340 | the same, for every position of the buffer |
| Dither.OffsetUniformPerBlock | src/workers/imageProcessor.worker.ts:288-302 | all pixels of one block get the same offset |
| Dither.OffsetAmplitude | src/workers/imageProcessor.worker.ts:283-305 | with strength in [0, 1] the offset lies in [−32, 32] |
| Dither.ZeroOffset | src/workers/imageProcessor.worker.ts:283 | strength 0 gives offset 0 |
| Dither.DitherPixelZero | src/workers/imageProcessor.worker.ts:309-331 | a zero offset makes dithering a pixel the same as quantising it |
| Dither.ZeroStrengthIsQuantize | src/workers/imageProcessor.worker.ts:272-383 | at strength 0 the worker's dithering produces exactly its quantisation |
| Dither.PixelOffsetIsUnitBlocks | src/lib/processing/dither.ts:89-92 | the standalone per-pixel offset equals the worker's offset at block size 1 when the matrices differ by 0.5 |
| Dither.DirectDithering | src/lib/processing/dither.ts:66-112 | fails exactly for an empty palette and a non-empty image; otherwise same dimensions and the nearest colour to each perturbed pixel |
| Dither.DirectQuantize | src/lib/processing/dither.ts:114-130 | fails exactly for an empty palette and a non-empty image; otherwise each pixel's nearest colour with alpha |
| Dither.DirectDitheringContents | src/lib/processing/dither.ts:89-108 | each dithered colour is the first nearest palette entry to the clamped, perturbed colour; alpha copied |
| Dither.DirectDitheringClosure | src/lib/processing/dither.ts:66-112 | every dithered colour is a palette entry and every alpha the input alpha |
| Dither.DirectQuantizeContents | src/lib/processing/dither.ts:119-127 | each quantised colour is the first nearest palette entry; alpha copied |
| Dither.DirectZeroStrengthIsQuantize | src/lib/processing/dither.ts:66-130 | at strength 0 standalone dithering equals standalone quantisation, failure included |
| Dither.QuantizePixelAgrees | src/workers/imageProcessor.worker.ts:342-383 | at a pixel of bucket centres, table lookup and exhaustive search agree |
| Dither.QuantizeAgreesAtCentres | src/workers/imageProcessor.worker.ts:342-383 | on images of bucket centres, the worker's and the standalone quantisation agree pixel for pixel |
| Dither.DirectQuantizeIdempotent | src/lib/processing/dither.ts:114-130 | quantising an already quantised image changes nothing |
| Dither.TableMapsMemberElsewhere | src/workers/imageProcessor.worker.ts:318-331 | with palette [(0,0,0), (7,7,7)] the table maps the member (0,0,0) to (7,7,7) |
| Pipeline.AdjustAndPixelate | src/lib/processing/pipeline.ts:17-25 | adjustment and optional pixelation keep a well-sized image's dimensions |
| Pipeline.WorkerProcess | src/workers/imageProcessor.worker.ts:411-445 | the worker's three stages keep the dimensions |
| Pipeline.ProcessImage | src/lib/processing/pipeline.ts:11-49 | the three stages keep the dimensions; the palette check makes the direct search total |
| Pipeline.NeutralSettingsAreIdentity | src/lib/processing/pipeline.ts:11-49 | neutral adjustments, no pixelation and no palette return the input image in both variants |
| Pipeline.WorkerPaletteClosure | src/workers/imageProcessor.worker.ts:427-445 | with a palette, every colour the worker returns is a palette entry |
| Pipeline.ProcessPaletteClosure | src/lib/processing/pipeline.ts:27-46 | with a palette, every colour `processImage` returns is a palette entry |
| Pipeline.WorkerZeroStrength | src/workers/imageProcessor.worker.ts:432-444 | dithering at strength 0 equals dithering switched off |
| Pipeline.ProcessZeroStrength | src/lib/processing/pipeline.ts:32-45 | dithering at strength 0 equals dithering switched off |
| Pipeline.MappingKeepsAlpha | src/lib/processing/pipeline.ts:27-46 | the palette stage, whichever branch runs, leaves every alpha as the adjusted and pixelated image had it, for any palette |
| Pipeline.AlphaKeptWithoutPixelation | src/lib/processing/pipeline.ts:11-49 | without pixelation every output alpha is the input alpha, in both variants and for any palette |
| Pipeline.AlphaWithPixelation | src/lib/processing/pipeline.ts:11-49 | with pixelation, each output alpha is the rounded mean of the input alphas over that pixel's tile, in both variants and for any palette |
| Pipeline.RequestImage | src/workers/imageProcessor.worker.ts:405-409 | the pixels of a request form a well-sized image |
| Pipeline.HandleRequest | src/workers/imageProcessor.worker.ts:404-458 | the response carries the request's id and dimensions and a buffer of the same length |
| Pipeline.ResponseCarriesResult | src/workers/imageProcessor.worker.ts:447-457 | the response buffer decodes to exactly the processed request image |
| Coordinator.GetWorker | src/lib/processing/workerProcessor.ts:36-43 | the live worker is reused; otherwise a worker of a new generation is started |
| Coordinator.Step | src/lib/processing/workerProcessor.ts:45-148 | every event keeps the invariant: callbacks held exactly for the current, already issued id |
| Coordinator.CallIssuesFreshId | src/lib/processing/workerProcessor.ts:84-93 | a call takes an id above every earlier one and makes it current, holding that caller's callbacks |
| Coordinator.StaleReplyIgnored | src/lib/processing/workerProcessor.ts:45-51 | a reply with a non-current id changes nothing and settles nobody |
| Coordinator.CurrentReplyResolves | src/lib/processing/workerProcessor.ts:53-58 | the current reply resolves exactly the caller that issued it, then clears all |
| Coordinator.TimerPostsOnlyCurrent | src/lib/processing/workerProcessor.ts:97-121 | a deferred send posts only the current request, to a reused or new worker |
| Coordinator.ErrorRejectsWaitingCaller | src/lib/processing/workerProcessor.ts:61-66 | a worker error rejects whichever caller waits, with its message, and clears all |
| Coordinator.CancelRejectsWaitingCaller | src/lib/processing/workerProcessor.ts:129-137 | cancel rejects the waiting caller with "Processing cancelled" and clears all |
| Coordinator.TerminateThenFreshWorker | src/lib/processing/workerProcessor.ts:142-148 | terminate drops the worker and the caller unsettled; the next send uses a fresh worker generation |
| Coordinator.SettledAppend | src/lib/processing/workerProcessor.ts:45-137 | the callers settled by two effect lists are those of each, in order |
| Coordinator.StepSettles | src/lib/processing/workerProcessor.ts:45-148 | one step settles at most the current caller and never moves the frontier back past it |
| Coordinator.RunSettlesIncreasing | src/lib/processing/workerProcessor.ts:45-148 | over any run, settled callers are strictly increasing: no caller is settled twice |
| Coordinator.SupersededNeverSettled | src/lib/processing/workerProcessor.ts:88-93 | a caller superseded by a newer call is never settled afterwards |
| Coordinator.InitialInv | src/lib/processing/workerProcessor.ts:29-33 | the module's starting state (no worker, counter 0, nothing pending) satisfies the invariant |
| Coordinator.RunKeepsInv | src/lib/processing/workerProcessor.ts:30-148 | the invariant holds across any run of events |
| Coordinator.ReachableInv | src/lib/processing/workerProcessor.ts:29-148 | every state reached from the starting state by any run of events satisfies the invariant |
| PaletteExtract.FirstOpaque | src/lib/processing/palette.ts:18-32 | the first opaque occurrence of a colour at or after a position, or the end |
| PaletteExtract.UniqueOpaqueColors | src/lib/processing/palette.ts:15-34 | exactly the colours of opaque pixels, each once, in order of first occurrence; equal to the one-pixel-at-a-time definition `OpaqueColors` |
| PaletteExtract.DedupFrom | src/lib/processing/palette.ts:51-63 | the kept prefix stays; the result is spaced; additions come from the rest in order; every dropped colour is too close to a kept one |
| PaletteExtract.Deduplicate | src/lib/processing/palette.ts:47-66 | the result is a spaced subsequence, and every input colour is kept or closer than the threshold to a kept one |
| PaletteExtract.DedupFromSnoc | src/lib/processing/palette.ts:51-63 | visiting one more colour appends it exactly when it is not closer than the threshold to any colour kept so far |
| PaletteExtract.DeduplicateSnoc | src/lib/processing/palette.ts:47-66 | with the empty case, determines the result: each colour is kept if and only if it is far enough from every colour kept before it |
| PaletteExtract.DeduplicateComparesWithKeptOnly | src/lib/processing/palette.ts:51-63 | colours are compared only with kept ones: in a, b, c, d with b far from a, c close to b and d far from a and b, c is dropped and d is kept even if d is close to c |
| PaletteExtract.DeduplicateOrderExample | src/lib/processing/palette.ts:51-63 | (200,200,200), (0,0,0), (6,0,0), (12,0,0) at threshold 10 give (200,200,200), (0,0,0), (12,0,0) |
| PaletteExtract.SubsequenceKeepsOrder | src/lib/processing/palette.ts:51-63 | dropping colours keeps the remaining ones in first-seen order |
| PaletteExtract.SubsequenceMembers | src/lib/processing/palette.ts:47-66 | a subsequence holds only input colours |
| PaletteExtract.DeduplicateKeepsFirst | src/lib/processing/palette.ts:51-63 | the first colour is always kept |
| PaletteExtract.DeduplicateZeroKeepsAll | src/lib/processing/palette.ts:49-57 | a threshold of 0 keeps every colour |
| PaletteExtract.Sample | src/lib/processing/palette.ts:68-80 | with few enough colours, all are returned; otherwise exactly `count` colours at the evenly spaced positions |
| PaletteExtract.SampleIndicesInRange | src/lib/processing/palette.ts:72-76 | every sample position is in range |
| PaletteExtract.SampleIndexIncreasing | src/lib/processing/palette.ts:72-76 | sample positions strictly increase, so order is kept and no position is picked twice |
| PaletteExtract.SampleKeepsSpacing | src/lib/processing/palette.ts:68-80 | a sample of a spaced list is spaced and holds only its colours |
| PaletteExtract.SampleKeepsOrder | src/lib/processing/palette.ts:68-80 | a sample of a list in first-seen order is in first-seen order |
| PaletteExtract.ExtractPalette | src/lib/processing/palette.ts:8-45 | exactly the greedy deduplication of the first-seen opaque colours, evenly sampled down to `maxColors` when longer; hence at most `maxColors` (default 256) byte colours, each from an opaque pixel, pairwise at least `minColorDifference` (default 10) apart, in order of first occurrence; non-empty when some pixel is opaque and `maxColors` > 0; unless cut down to `maxColors`, every opaque colour is in the palette or closer than the threshold to one in it |
| Text.StartsWithMeansPrefix | src/lib/utils/paletteFiles.ts:35-38 | `startsWith` holds exactly when the prefix is the first characters of the text |
| Text.Split | src/lib/utils/paletteFiles.ts:28 | `split` gives at least one piece, no piece holds the separator, and joining the pieces restores the text |
| Text.SplitJoin | src/lib/utils/paletteFiles.ts:21-28 | splitting a join gives the pieces back when none holds the separator |
| Text.TrimStart | src/lib/utils/paletteFiles.ts:32 | removes exactly a whitespace prefix and leaves no leading whitespace |
| Text.TrimEnd | src/lib/utils/paletteFiles.ts:32 | removes exactly a whitespace suffix and leaves no trailing whitespace |
| Text.Trim | src/lib/utils/paletteFiles.ts:32 | neither end of the result is whitespace |
| Text.TrimPadded | src/lib/utils/paletteFiles.ts:32 | `trim` removes exactly whitespace padding around a text whose ends are not whitespace |
| Text.SpanDigits | src/lib/utils/paletteFiles.ts:45 | splits off the longest leading digit run |
| Text.ToDigits | src/lib/utils/paletteFiles.ts:18 | `toString(base)` of a natural: at least one digit, no leading zero, decimal digits in base 10 |
| Text.DigitsRoundTrip | src/lib/utils/paletteFiles.ts:48-50 | `parseInt` of the digits `toString` writes gives the number back |
| Text.IntToString | src/lib/utils/paletteFiles.ts:153 | non-negative numbers print as their digits; a leading minus exactly for negatives |
| Text.PadStart | src/lib/utils/paletteFiles.ts:18 | `padStart` reaches the width, keeps the text as a suffix, and fills the front |
| Text.ToUpper | src/lib/utils/paletteFiles.ts:153 | `toUpperCase` on ASCII maps each character and keeps the length |
| Text.ToLower | src/lib/utils/paletteFiles.ts:160 | `toLowerCase` on ASCII maps each character and keeps the length |
| PaletteFiles.ColumnCount | src/lib/utils/paletteFiles.ts:11 | `Columns:` is the colour count capped at 16 |
| PaletteFiles.RgbToHex | src/lib/utils/paletteFiles.ts:152-154 | a label starts with `#` and is at least seven characters long (a negative channel can contribute a `-`) |
| PaletteFiles.LabelChars | src/lib/utils/paletteFiles.ts:152-154 | for a colour with non-negative channels, every label character is `#` or an upper-case hex digit |
| PaletteFiles.HexLabelRoundTrip | src/lib/utils/paletteFiles.ts:152-154 | a byte colour's label is `#RRGGBB` in upper case, each pair reading back as its channel |
| PaletteFiles.ColorLines | src/lib/utils/paletteFiles.ts:15-19 | one line per colour, in palette order |
| PaletteFiles.ExportAsGPL | src/lib/utils/paletteFiles.ts:7-22 | the text starts with `GIMP Palette` |
| PaletteFiles.MatchColorLine | src/lib/utils/paletteFiles.ts:45-51 | the pattern reads non-negative channels |
| PaletteFiles.MatchComplete | src/lib/utils/paletteFiles.ts:45 | every line of the matched shape is read as its three digit runs |
| PaletteFiles.MatchSound | src/lib/utils/paletteFiles.ts:45 | every line the pattern reads has that shape, and the colour comes from its digit runs |
| PaletteFiles.ParseLine | src/lib/utils/paletteFiles.ts:31-52 | a line reads as at most one colour, with non-negative channels |
| PaletteFiles.ParseLines | src/lib/utils/paletteFiles.ts:31-53 | at most one colour per line, never negative |
| PaletteFiles.ParseGPL | src/lib/utils/paletteFiles.ts:27-56 | at most one colour per line of the text, never negative |
| PaletteFiles.ParseLinesAppend | src/lib/utils/paletteFiles.ts:31-53 | reading lines distributes over concatenation, so colours come out in line order |
| PaletteFiles.ParseColorLine | src/lib/utils/paletteFiles.ts:18 | reading back a written colour line gives the colour |
| PaletteFiles.ParseColorLines | src/lib/utils/paletteFiles.ts:15-19 | reading back the colour lines gives the palette |
| PaletteFiles.HeaderSkipped | src/lib/utils/paletteFiles.ts:34-41 | the four header lines the writer emits are all passed over |
| PaletteFiles.GplRoundTrip | src/lib/utils/paletteFiles.ts:7-56 | an exported palette splits into header and colour lines and parses back to the same colours |
| PaletteFiles.Extension | src/lib/utils/paletteFiles.ts:160 | the extension is the lower-cased text after the last dot, or the whole name, and holds no dot |
| PaletteFiles.ParsePaletteFile | src/lib/utils/paletteFiles.ts:159-178 | extension `gpl` reads GPL and `json` reads JSON; otherwise a `GIMP Palette` prefix reads GPL and a `{` or `[` prefix reads JSON; no colours unless one of these four rules chose a reader |
| PaletteFiles.ExportedFileReadsBack | src/lib/utils/paletteFiles.ts:7-178 | an exported file reads back as its palette under any name not ending in `.json` |
| AppStore.Refs | src/store/appStore.ts:98-109 | one reference per frame, with its id, name and dimensions |
| AppStore.StoreFrames | src/store/appStore.ts:98-102 | the cache gains each frame's original and any processed image; other ids and the stamps are untouched |
| AppStore.StoreFramesLast | src/store/appStore.ts:98-102 | for repeated ids, the last frame's images are cached |
| AppStore.AddFrames | src/store/appStore.ts:96-111 | references are appended in order after the existing frames, originals are cached, nothing else changes |
| AppStore.WithoutId | src/store/appStore.ts:118 | the filter keeps exactly the frames with another id |
| AppStore.WithoutIdAppend | src/store/appStore.ts:118 | the filter distributes over concatenation, so kept frames keep their order |
| AppStore.WithoutIdAbsent | src/store/appStore.ts:118 | removing an absent id changes nothing |
| AppStore.RemoveFrame | src/store/appStore.ts:113-126 | drops the id's frames and its three cache entries; the index is kept when in range, else moved to the last frame or 0 |
| AppStore.SetCurrentFrame | src/store/appStore.ts:135 | stores the index as given, nothing else changes; a negative or too large index leaves the index out of range |
| AppStore.ClearFrames | src/store/appStore.ts:128-133 | no frames, index 0, empty cache, nothing else changed |
| AppStore.FrameActionsKeepIndexInRange | src/store/appStore.ts:96-133 | adding, removing and clearing frames keep the index on a frame (or 0) |
| AppStore.SetPalette | src/store/appStore.ts:146-149 | replaces the palette, bumps the version by one, nothing else |
| AppStore.SetColorStrip | src/store/appStore.ts:138-144 | a missing strip changes nothing; otherwise the extracted palette is set |
| AppStore.SetColorStripFromImage | src/store/appStore.ts:138-144 | without a strip, no change; with one, the version is bumped and the palette is exactly the strip's first-seen opaque colours deduplicated at 10 and sampled down to 256; hence at most 256 byte colours from its opaque pixels, pairwise at least 10 apart, in first-seen order, non-empty when any pixel is opaque, and (below 256 colours) within 10 of every opaque colour |
| AppStore.MergeAdjustments | src/store/appStore.ts:152-158 | each of the four keys comes from the patch when it names the key, else keeps its value |
| AppStore.MergePixelation | src/store/appStore.ts:168-174 | `enabled` and `blockSize` come from the patch when named, else keep their value |
| AppStore.MergeDithering | src/store/appStore.ts:176-182 | `enabled`, `matrixSize` and `strength` come from the patch when named, else keep their value |
| AppStore.MergeExport | src/store/appStore.ts:185-187 | each export setting comes from the patch when named, else keeps its value |
| AppStore.AdjustmentMergeLaws | src/store/appStore.ts:152-158 | the spread merge keeps omitted keys, a full patch replaces, merging twice is once, and two merges compose key-wise |
| AppStore.GroupMergeLaws | src/store/appStore.ts:168-182 | pixelation and dithering merges keep omitted keys and are idempotent |
| AppStore.UpdateAdjustments | src/store/appStore.ts:152-158 | merges into the adjustments only and bumps the version |
| AppStore.ResetAdjustments | src/store/appStore.ts:160-166 | all adjustments back to 0, other groups untouched, version bumped |
| AppStore.UpdatePixelation | src/store/appStore.ts:168-174 | merges into pixelation only and bumps the version |
| AppStore.UpdateDithering | src/store/appStore.ts:176-182 | merges into dithering only and bumps the version |
| AppStore.UpdateExportSettings | src/store/appStore.ts:185-187 | merges into the export settings; nothing else, not the version, changes |
| AppStore.Apply | src/store/appStore.ts:96-190 | no synchronous action touches the processing flag or the processed version; only frame actions change frames or cache; `setExportProgress` and `setIsExporting` replace their one field |
| AppStore.VersionStep | src/store/appStore.ts:135-190 | parameter and palette actions bump the version by one; others keep version, parameters and palette |
| AppStore.RunVersion | src/store/appStore.ts:135-190 | the version never decreases; if unchanged over a run, so are parameters and palette |
| AppStore.StartProcessing | src/store/appStore.ts:197-220 | skipped, with no change, exactly when there is no current frame, it is up to date, or its original is missing; otherwise the job is captured and the flag raised |
| AppStore.FinishProcessing | src/store/appStore.ts:222-231 | stores and stamps the result only when the version has not moved; always lowers the flag |
| AppStore.FailProcessing | src/store/appStore.ts:232-237 | a failed or cancelled request lowers the flag; cache, processed version and all else unchanged |
| AppStore.FinishedFrameSkipped | src/store/appStore.ts:202-207 | once stored, the same frame under the same version is skipped |
| AppStore.StaleResultDiscarded | src/store/appStore.ts:222-231 | a result arriving after any parameter change leaves the cache alone |
| AppStore.InitialCacheCurrent | src/store/appStore.ts:7-12 | the empty cache is current |
| AppStore.ApplyKeepsCacheCurrent | src/store/appStore.ts:96-190 | every synchronous action keeps the cache current |
| AppStore.ApplyKeepsJobCurrent | src/store/appStore.ts:96-190 | actions not re-adding the job's frame keep the job current |
| AppStore.RunKeepsJobAndCache | src/store/appStore.ts:214-224 | a run of such actions during the await keeps cache and job current |
| AppStore.FinishKeepsCacheCurrent | src/store/appStore.ts:224-227 | storing a current job's result keeps the cache current |
| AppStore.ProcessingKeepsCacheCurrent | src/store/appStore.ts:197-238 | start, any actions, finish: every up-to-date cached image is the processing of its original under the parameters and palette in force |

## Left out

- The HSL conversions `rgbToHsl` / `hslToRgb` and their floating-point arithmetic are a parameter (`HslCodec`). Lemmas about hue and saturation speak of the HSL values, not of the converted channels.
- Floating point is modelled by exact reals:
  - the worker's block index `(v * (1 / blockSize)) | 0` is exact division (`Dither.BlockCoord`), and block size 0 is handled as the source's NaN-to-0 (see the Dither.OffsetUniformPerBlock line below);
  - `sampleColors`' step `len / count` is taken exactly (`(i·len) / count`).
- Adjustments.ApplyAdjustments, Pipeline.AdjustAndPixelate, Pipeline.WorkerProcess and Pipeline.ProcessImage require adjustment values within the slider ranges (±100, hue ±180); contrast 259 divides by zero in the source and is not modelled.
- Pixelate.Pixelate requires a block size of at least 1; callers only pixelate with block sizes above 1.
- Worker threads, `postMessage` transfer, `setTimeout` and promises are events of the coordinator state machine, not concurrency.
- The request buffer the worker receives is assumed to hold width·height pixels (`WellFormedRequest`); the coordinator always sends such buffers.
- `exportAsPNG`, `exportAsJSON`, `downloadFile` (DOM and canvas I/O), GIF/PNG/ZIP exporters, React components and hooks are outside the core.
- `parseJSON` is a parameter of `ParsePaletteFile`: JSON parsing is not modelled.
- Text.ToUpper and Text.ToLower map ASCII letters only; full Unicode case mapping is not modelled.
- `parseInt` precision: digit runs read as exact naturals; numbers beyond 2^53 would lose precision in the source.
- PaletteFiles.GplRoundTrip requires no negative channel and a name without newlines. Negative channels do not survive the writer's `padStart`/hex text, and non-integer channels are not modelled.
- Dither.OffsetUniformPerBlock: holds of the model at every block size, but of the source at every slider size (2 to 64) except 49. In IEEE double arithmetic `x * (1 / 49)` falls just below the whole number at many multiples of 49 (49, 98, 147, 196, 294, ...), so `| 0` yields `x / 49 - 1` there. With block size 49 the source therefore gives such a column or row the previous block's dither offset, while the pixelation blocks (stepped by whole numbers in `pixelate`) start at that column. Block sizes other than 49 in that range agree with exact division for every coordinate below 16385.
- `processAllFrames` (src/store/appStore.ts:240-274) is not modelled. It does not go through `processCurrentFrame`. For each frame that has a cached original and is not already stamped with the current version, it awaits `processImageAsync` itself. It then stores the result and stamps it with the version read before the await, without checking whether the version is still current. The stamp matches the parameters the result was computed with, so a later parameter change still marks it stale. But these stores bypass the version check of `processCurrentFrame`: one can overwrite a newer result that `processCurrentFrame` stored for the same frame during the await, and one can store a result for a frame removed meanwhile. AppStore.ProcessingKeepsCacheCurrent covers `processCurrentFrame` only.
- `getOriginalImageData` / `getProcessedImageData` are plain map reads.
- `setCurrentFrame` stores the index unchecked, so `IndexInRange` is not preserved by it.
- A key passed explicitly as `undefined` in a partial update overwrites the field in the source's spread; the patches model an omitted key only.
- AppStore.ProcessingKeepsCacheCurrent assumes that frames added while the worker is busy carry no version stamp and do not reuse the processed frame's id (ids are freshly generated in the uploader); how a frame is processed is an abstract `Processor`.
- Dither.TableMapsMemberElsewhere documents an approximation of the table lookup, not a defect.
