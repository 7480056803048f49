/**
 * The application store: the frame list, palette, processing parameters and export settings,
 * the image cache kept beside the reactive state, and the version bookkeeping that decides
 * whether `processCurrentFrame` reprocesses a frame and whether it keeps the result.
 *
 * Every action is a pure state transition. `processCurrentFrame` is asynchronous in the source;
 * it is modelled as two transitions, `StartProcessing` (before the await) and `FinishProcessing`
 * / `FailProcessing` (after it), with any other actions free to run in between.
 */
module AppStore {
  import opened Wrappers
  import opened Pixels
  import opened Adjustments
  import opened Bayer
  import opened Pipeline
  import PaletteExtract

  datatype FrameRef = FrameRef(id: string, name: string, width: nat, height: nat)

  /** A frame as delivered by the uploader: the decoded original and an optional processed image. */
  datatype ImageFrame = ImageFrame(id: string, name: string, original: Image, processed: Option<Image>,
                                   width: nat, height: nat)

  datatype ExportFormat = Gif | Png

  datatype ExportSettings = ExportSettings(format: ExportFormat, gifDelay: int, gifLoop: bool,
                                           quality: int, exportAtPixelSize: bool)

  /** The image maps held outside the reactive state, keyed by frame id. */
  datatype ImageCache = ImageCache(original: map<string, Image>, processed: map<string, Image>,
                                   processedWithVersion: map<string, nat>)

  datatype State = State(
    frames: seq<FrameRef>,
    currentFrameIndex: int,
    isProcessing: bool,
    palette: seq<RGB>,
    params: ProcessingParams,
    exportSettings: ExportSettings,
    isExporting: bool,
    exportProgress: real,
    processedVersion: nat,
    paramsVersion: nat,
    cache: ImageCache)

  const InitialAdjustments := AdjustmentParams(0, 0, 0, 0)

  const InitialParams := ProcessingParams(InitialAdjustments, PixelationParams(true, 8),
                                          DitheringParams(true, 4, 0.5))

  const InitialExportSettings := ExportSettings(Gif, 100, true, 10, false)

  const EmptyCache := ImageCache(map[], map[], map[])

  const Initial := State([], 0, false, [], InitialParams, InitialExportSettings, false, 0.0, 0, 0, EmptyCache)

  // ---------------------------------------------------------------------------------------------
  // Frames
  // ---------------------------------------------------------------------------------------------

  function RefOf(f: ImageFrame): FrameRef {
    FrameRef(f.id, f.name, f.width, f.height)
  }

  function Refs(fs: seq<ImageFrame>): (r: seq<FrameRef>)
    ensures |r| == |fs|
    ensures forall i :: 0 <= i < |fs| ==> r[i] == RefOf(fs[i])
  {
    seq(|fs|, i requires 0 <= i < |fs| => RefOf(fs[i]))
  }

  function Ids(fs: seq<ImageFrame>): set<string> {
    set f | f in fs :: f.id
  }

  function IdsWithProcessed(fs: seq<ImageFrame>): set<string> {
    set f | f in fs && f.processed.Some? :: f.id
  }

  /** The last frame of `fs` with this id, if any: the one whose images end up in the cache. */
  predicate LastWithId(fs: seq<ImageFrame>, i: nat) {
    i < |fs| && forall j :: i < j < |fs| ==> fs[j].id != fs[i].id
  }

  /**
   * The cache writes of `addFrames`, in frame order: every frame's original is stored, and its
   * processed image when it has one; the version stamps are not touched.
   */
  function StoreFrames(c: ImageCache, fs: seq<ImageFrame>): (r: ImageCache)
    ensures r.processedWithVersion == c.processedWithVersion
    ensures r.original.Keys == c.original.Keys + Ids(fs)
    ensures r.processed.Keys == c.processed.Keys + IdsWithProcessed(fs)
    ensures forall id :: id in c.original && id !in Ids(fs) ==> r.original[id] == c.original[id]
    ensures forall id :: id in c.processed && id !in IdsWithProcessed(fs) ==> r.processed[id] == c.processed[id]
    decreases |fs|
  {
    if fs == [] then c
    else
      var init := fs[..|fs| - 1];
      var f := fs[|fs| - 1];
      assert fs == init + [f];
      assert Ids(fs) == Ids(init) + {f.id};
      assert IdsWithProcessed(fs) == IdsWithProcessed(init) + (if f.processed.Some? then {f.id} else {});
      var c' := StoreFrames(c, init);
      c'.(original := c'.original[f.id := f.original],
          processed := if f.processed.Some? then c'.processed[f.id := f.processed.value] else c'.processed)
  }

  /** The last frame carrying an id wins: its original (and processed image, if any) is cached. */
  lemma {:induction false} StoreFramesLast(c: ImageCache, fs: seq<ImageFrame>, i: nat)
    requires LastWithId(fs, i)
    ensures StoreFrames(c, fs).original[fs[i].id] == fs[i].original
    ensures fs[i].processed.Some? ==> StoreFrames(c, fs).processed[fs[i].id] == fs[i].processed.value
    decreases |fs|
  {
    var init := fs[..|fs| - 1];
    var f := fs[|fs| - 1];
    var c' := StoreFrames(c, init);
    if i < |fs| - 1 {
      assert f.id != fs[i].id;
      assert LastWithId(init, i);
      StoreFramesLast(c, init, i);
    }
  }

  /** `addFrames`: the new frames' references are appended, in order, after the existing ones. */
  function AddFrames(s: State, fs: seq<ImageFrame>): (r: State)
    ensures |r.frames| == |s.frames| + |fs|
    ensures r.frames[..|s.frames|] == s.frames
    ensures forall i :: 0 <= i < |fs| ==> r.frames[|s.frames| + i] == RefOf(fs[i])
    ensures Ids(fs) <= r.cache.original.Keys
    ensures r.(frames := s.frames, cache := s.cache) == s
  {
    s.(frames := s.frames + Refs(fs), cache := StoreFrames(s.cache, fs))
  }

  /** The frames whose id differs from `id`, in their original order. */
  function WithoutId(frames: seq<FrameRef>, id: string): (r: seq<FrameRef>)
    ensures |r| <= |frames|
    ensures forall f :: f in r <==> f in frames && f.id != id
    decreases |frames|
  {
    if frames == [] then []
    else
      var rest := WithoutId(frames[1..], id);
      assert forall f :: f in frames <==> f == frames[0] || f in frames[1..];
      if frames[0].id == id then rest else [frames[0]] + rest
  }

  /** Filtering distributes over concatenation, so the kept frames keep their relative order. */
  lemma {:induction false} WithoutIdAppend(a: seq<FrameRef>, b: seq<FrameRef>, id: string)
    ensures WithoutId(a + b, id) == WithoutId(a, id) + WithoutId(b, id)
    decreases |a|
  {
    if a == [] {
      assert a + b == b;
    } else {
      assert (a + b)[0] == a[0];
      assert (a + b)[1..] == a[1..] + b;
      WithoutIdAppend(a[1..], b, id);
    }
  }

  /** Removing an id no frame has changes nothing. */
  lemma {:induction false} WithoutIdAbsent(frames: seq<FrameRef>, id: string)
    requires forall f :: f in frames ==> f.id != id
    ensures WithoutId(frames, id) == frames
    decreases |frames|
  {
    if frames != [] {
      assert frames[0] in frames;
      WithoutIdAbsent(frames[1..], id);
      assert [frames[0]] + frames[1..] == frames;
    }
  }

  /**
   * `removeFrame`: drops every frame with that id and its cache entries; the current index is
   * kept when it still points into the list and otherwise moves to the last frame (or 0).
   */
  function RemoveFrame(s: State, id: string): (r: State)
    ensures forall f :: f in r.frames <==> f in s.frames && f.id != id
    ensures s.currentFrameIndex < |r.frames| ==> r.currentFrameIndex == s.currentFrameIndex
    ensures s.currentFrameIndex >= |r.frames| ==> r.currentFrameIndex == if |r.frames| == 0 then 0 else |r.frames| - 1
    ensures r.cache == ImageCache(s.cache.original - {id}, s.cache.processed - {id},
                                  s.cache.processedWithVersion - {id})
    ensures r.(frames := s.frames, currentFrameIndex := s.currentFrameIndex, cache := s.cache) == s
  {
    var kept := WithoutId(s.frames, id);
    s.(frames := kept,
       currentFrameIndex := if s.currentFrameIndex >= |kept| then Max(0, |kept| - 1) else s.currentFrameIndex,
       cache := ImageCache(s.cache.original - {id}, s.cache.processed - {id}, s.cache.processedWithVersion - {id}))
  }

  function Max(a: int, b: int): int {
    if a >= b then a else b
  }

  /** `clearFrames`: no frames, index 0, every cache map empty. */
  function ClearFrames(s: State): (r: State)
    ensures r.frames == [] && r.currentFrameIndex == 0
    ensures r.cache.original == map[] && r.cache.processed == map[] && r.cache.processedWithVersion == map[]
    ensures r.(frames := s.frames, currentFrameIndex := s.currentFrameIndex, cache := s.cache) == s
  {
    s.(frames := [], currentFrameIndex := 0, cache := EmptyCache)
  }

  /** `setCurrentFrame`: stores the index as given; the source does not range-check it. */
  function SetCurrentFrame(s: State, index: int): (r: State)
    ensures r.currentFrameIndex == index
    ensures index < 0 || (s.frames != [] && index >= |s.frames|) ==> !IndexInRange(r)
    ensures r.(currentFrameIndex := s.currentFrameIndex) == s
  {
    s.(currentFrameIndex := index)
  }

  /** The current index names a frame, or is 0 when there are none. */
  predicate IndexInRange(s: State) {
    if s.frames == [] then s.currentFrameIndex == 0 else 0 <= s.currentFrameIndex < |s.frames|
  }

  /** The frame actions other than `setCurrentFrame` keep the current index in range. */
  lemma FrameActionsKeepIndexInRange(s: State, fs: seq<ImageFrame>, id: string)
    requires IndexInRange(s)
    ensures IndexInRange(AddFrames(s, fs))
    ensures IndexInRange(RemoveFrame(s, id))
    ensures IndexInRange(ClearFrames(s))
    ensures IndexInRange(Initial)
  {
  }

  // ---------------------------------------------------------------------------------------------
  // Palette and processing parameters
  // ---------------------------------------------------------------------------------------------

  /** `setPalette`: replaces the palette and bumps the parameter version. */
  function SetPalette(s: State, colors: seq<RGB>): (r: State)
    ensures r.palette == colors && r.paramsVersion == s.paramsVersion + 1
    ensures r.(palette := s.palette, paramsVersion := s.paramsVersion) == s
  {
    s.(palette := colors, paramsVersion := s.paramsVersion + 1)
  }

  /** `setColorStrip` once the strip's palette has been extracted; a missing strip changes nothing. */
  function SetColorStrip(s: State, extracted: Option<seq<RGB>>): (r: State)
    ensures extracted.None? ==> r == s
    ensures extracted.Some? ==> r == SetPalette(s, extracted.value)
  {
    match extracted
    case None => s
    case Some(colors) => s.(palette := colors, paramsVersion := s.paramsVersion + 1)
  }

  /** `setColorStrip` with the extraction: the new palette is drawn from the strip's opaque pixels. */
  method SetColorStripFromImage(s: State, strip: Option<Image>) returns (r: State)
    ensures strip.None? ==> r == s
    ensures strip.Some? ==> r.paramsVersion == s.paramsVersion + 1
    ensures strip.Some? ==> |r.palette| <= 256 && ValidPalette(r.palette)
    ensures strip.Some? ==> forall c :: c in r.palette ==> PaletteExtract.OccursOpaque(strip.value.pixels, c)
    ensures strip.Some? ==>
      var deduped := PaletteExtract.Deduplicate(PaletteExtract.OpaqueColors(strip.value.pixels), 10);
      r.palette == if |deduped| > 256 then PaletteExtract.Sample(deduped, 256) else deduped
    ensures strip.Some? ==> PaletteExtract.Spaced(r.palette, 100)
    ensures strip.Some? ==> PaletteExtract.InFirstSeenOrder(strip.value.pixels, r.palette)
    ensures strip.Some? && (exists i :: 0 <= i < |strip.value.pixels| && PaletteExtract.Opaque(strip.value.pixels[i]))
      ==> |r.palette| > 0
    ensures strip.Some? && |r.palette| < 256 ==> forall c :: PaletteExtract.OccursOpaque(strip.value.pixels, c) ==>
      c in r.palette || PaletteExtract.TooClose(c, r.palette, 100)
    ensures r.(palette := s.palette, paramsVersion := s.paramsVersion) == s
  {
    match strip {
      case None =>
        r := SetColorStrip(s, None);
      case Some(img) =>
        var colors := PaletteExtract.ExtractPalette(img, PaletteExtract.ExtractionOptions(None, None));
        r := SetColorStrip(s, Some(colors));
    }
  }

  /** A partial update: `None` for a key the caller left out. */
  datatype AdjustmentPatch = AdjustmentPatch(brightness: Option<int>, contrast: Option<int>,
                                             saturation: Option<int>, hue: Option<int>)

  datatype PixelationPatch = PixelationPatch(enabled: Option<bool>, blockSize: Option<nat>)

  datatype DitheringPatch = DitheringPatch(enabled: Option<bool>, matrixSize: Option<MatrixSize>,
                                           strength: Option<real>)

  datatype ExportPatch = ExportPatch(format: Option<ExportFormat>, gifDelay: Option<int>, gifLoop: Option<bool>,
                                     quality: Option<int>, exportAtPixelSize: Option<bool>)

  /** One key of an object spread: the patch's value when it names the key, the earlier value otherwise. */
  predicate SpreadKey<T(==)>(before: T, patch: Option<T>, after: T) {
    if patch.Some? then after == patch.value else after == before
  }

  function MergeAdjustments(a: AdjustmentParams, p: AdjustmentPatch): (r: AdjustmentParams)
    ensures SpreadKey(a.brightness, p.brightness, r.brightness) && SpreadKey(a.contrast, p.contrast, r.contrast)
    ensures SpreadKey(a.saturation, p.saturation, r.saturation) && SpreadKey(a.hue, p.hue, r.hue)
  {
    AdjustmentParams(p.brightness.GetOr(a.brightness), p.contrast.GetOr(a.contrast),
                     p.saturation.GetOr(a.saturation), p.hue.GetOr(a.hue))
  }

  function MergePixelation(a: PixelationParams, p: PixelationPatch): (r: PixelationParams)
    ensures SpreadKey(a.enabled, p.enabled, r.enabled) && SpreadKey(a.blockSize, p.blockSize, r.blockSize)
  {
    PixelationParams(p.enabled.GetOr(a.enabled), p.blockSize.GetOr(a.blockSize))
  }

  function MergeDithering(a: DitheringParams, p: DitheringPatch): (r: DitheringParams)
    ensures SpreadKey(a.enabled, p.enabled, r.enabled) && SpreadKey(a.matrixSize, p.matrixSize, r.matrixSize)
    ensures SpreadKey(a.strength, p.strength, r.strength)
  {
    DitheringParams(p.enabled.GetOr(a.enabled), p.matrixSize.GetOr(a.matrixSize), p.strength.GetOr(a.strength))
  }

  function MergeExport(a: ExportSettings, p: ExportPatch): (r: ExportSettings)
    ensures SpreadKey(a.format, p.format, r.format) && SpreadKey(a.gifDelay, p.gifDelay, r.gifDelay)
    ensures SpreadKey(a.gifLoop, p.gifLoop, r.gifLoop) && SpreadKey(a.quality, p.quality, r.quality)
    ensures SpreadKey(a.exportAtPixelSize, p.exportAtPixelSize, r.exportAtPixelSize)
  {
    ExportSettings(p.format.GetOr(a.format), p.gifDelay.GetOr(a.gifDelay), p.gifLoop.GetOr(a.gifLoop),
                   p.quality.GetOr(a.quality), p.exportAtPixelSize.GetOr(a.exportAtPixelSize))
  }

  /** The later of two patches, key by key: what two successive spreads amount to. */
  function Later<T>(first: Option<T>, second: Option<T>): Option<T> {
    if second.Some? then second else first
  }

  function ThenAdjustments(p: AdjustmentPatch, q: AdjustmentPatch): AdjustmentPatch {
    AdjustmentPatch(Later(p.brightness, q.brightness), Later(p.contrast, q.contrast),
                    Later(p.saturation, q.saturation), Later(p.hue, q.hue))
  }

  /** The patch naming every key, with the values of `a`. */
  function FullAdjustments(a: AdjustmentParams): AdjustmentPatch {
    AdjustmentPatch(Some(a.brightness), Some(a.contrast), Some(a.saturation), Some(a.hue))
  }

  /**
   * The spread merge of adjustment patches: keys left out keep their value, a patch naming every
   * key replaces the record, applying a patch twice is applying it once, and two successive
   * patches act as their key-wise combination.
   */
  lemma AdjustmentMergeLaws(a: AdjustmentParams, b: AdjustmentParams, p: AdjustmentPatch, q: AdjustmentPatch)
    ensures MergeAdjustments(a, AdjustmentPatch(None, None, None, None)) == a
    ensures MergeAdjustments(a, FullAdjustments(b)) == b
    ensures MergeAdjustments(MergeAdjustments(a, p), p) == MergeAdjustments(a, p)
    ensures MergeAdjustments(MergeAdjustments(a, p), q) == MergeAdjustments(a, ThenAdjustments(p, q))
    ensures p.brightness.None? ==> MergeAdjustments(a, p).brightness == a.brightness
    ensures p.contrast.None? ==> MergeAdjustments(a, p).contrast == a.contrast
    ensures p.saturation.None? ==> MergeAdjustments(a, p).saturation == a.saturation
    ensures p.hue.None? ==> MergeAdjustments(a, p).hue == a.hue
  {
  }

  /** Pixelation and dithering patches: keys left out keep their value, and merging is idempotent. */
  lemma GroupMergeLaws(a: PixelationParams, p: PixelationPatch, d: DitheringParams, q: DitheringPatch)
    ensures p.enabled.None? ==> MergePixelation(a, p).enabled == a.enabled
    ensures p.blockSize.None? ==> MergePixelation(a, p).blockSize == a.blockSize
    ensures MergePixelation(MergePixelation(a, p), p) == MergePixelation(a, p)
    ensures q.enabled.None? ==> MergeDithering(d, q).enabled == d.enabled
    ensures q.matrixSize.None? ==> MergeDithering(d, q).matrixSize == d.matrixSize
    ensures q.strength.None? ==> MergeDithering(d, q).strength == d.strength
    ensures MergeDithering(MergeDithering(d, q), q) == MergeDithering(d, q)
  {
  }

  /** `updateAdjustments`: merges into the adjustments only, bumping the parameter version. */
  function UpdateAdjustments(s: State, p: AdjustmentPatch): (r: State)
    ensures r.params.pixelation == s.params.pixelation && r.params.dithering == s.params.dithering
    ensures r.params.adjustments == MergeAdjustments(s.params.adjustments, p)
    ensures r.paramsVersion == s.paramsVersion + 1
    ensures r.(params := s.params, paramsVersion := s.paramsVersion) == s
  {
    s.(params := s.params.(adjustments := MergeAdjustments(s.params.adjustments, p)),
       paramsVersion := s.paramsVersion + 1)
  }

  /** `resetAdjustments`: all four adjustments back to 0, the other groups untouched. */
  function ResetAdjustments(s: State): (r: State)
    ensures r.params.adjustments.brightness == 0 && r.params.adjustments.contrast == 0
    ensures r.params.adjustments.saturation == 0 && r.params.adjustments.hue == 0
    ensures r.params.pixelation == s.params.pixelation && r.params.dithering == s.params.dithering
    ensures r.paramsVersion == s.paramsVersion + 1
    ensures r.(params := s.params, paramsVersion := s.paramsVersion) == s
  {
    s.(params := s.params.(adjustments := InitialAdjustments), paramsVersion := s.paramsVersion + 1)
  }

  /** `updatePixelation`: merges into the pixelation group only, bumping the parameter version. */
  function UpdatePixelation(s: State, p: PixelationPatch): (r: State)
    ensures r.params.adjustments == s.params.adjustments && r.params.dithering == s.params.dithering
    ensures r.params.pixelation == MergePixelation(s.params.pixelation, p)
    ensures r.paramsVersion == s.paramsVersion + 1
    ensures r.(params := s.params, paramsVersion := s.paramsVersion) == s
  {
    s.(params := s.params.(pixelation := MergePixelation(s.params.pixelation, p)),
       paramsVersion := s.paramsVersion + 1)
  }

  /** `updateDithering`: merges into the dithering group only, bumping the parameter version. */
  function UpdateDithering(s: State, p: DitheringPatch): (r: State)
    ensures r.params.adjustments == s.params.adjustments && r.params.pixelation == s.params.pixelation
    ensures r.params.dithering == MergeDithering(s.params.dithering, p)
    ensures r.paramsVersion == s.paramsVersion + 1
    ensures r.(params := s.params, paramsVersion := s.paramsVersion) == s
  {
    s.(params := s.params.(dithering := MergeDithering(s.params.dithering, p)),
       paramsVersion := s.paramsVersion + 1)
  }

  /** `updateExportSettings`: merges into the export settings; the parameter version is untouched. */
  function UpdateExportSettings(s: State, p: ExportPatch): (r: State)
    ensures r.exportSettings == MergeExport(s.exportSettings, p)
    ensures r.(exportSettings := s.exportSettings) == s
  {
    s.(exportSettings := MergeExport(s.exportSettings, p))
  }

  // ---------------------------------------------------------------------------------------------
  // Actions and the parameter version
  // ---------------------------------------------------------------------------------------------

  /** The synchronous store actions; `SetColorStrip` carries the palette already extracted, if any. */
  datatype Action =
    | AddFramesAction(newFrames: seq<ImageFrame>)
    | RemoveFrameAction(id: string)
    | ClearFramesAction
    | SetCurrentFrameAction(index: int)
    | SetColorStripAction(extracted: Option<seq<RGB>>)
    | SetPaletteAction(colors: seq<RGB>)
    | UpdateAdjustmentsAction(adjustments: AdjustmentPatch)
    | ResetAdjustmentsAction
    | UpdatePixelationAction(pixelation: PixelationPatch)
    | UpdateDitheringAction(dithering: DitheringPatch)
    | UpdateExportSettingsAction(settings: ExportPatch)
    | SetExportProgressAction(progress: real)
    | SetIsExportingAction(exporting: bool)

  /**
   * One synchronous action. None of them touches the processing flag or the processed version;
   * the two export setters replace their one field.
   */
  function Apply(s: State, a: Action): (r: State)
    ensures r.isProcessing == s.isProcessing && r.processedVersion == s.processedVersion
    ensures a.SetExportProgressAction? ==> r == s.(exportProgress := a.progress)
    ensures a.SetIsExportingAction? ==> r == s.(isExporting := a.exporting)
    ensures !(a.AddFramesAction? || a.RemoveFrameAction? || a.ClearFramesAction?) ==> r.frames == s.frames && r.cache == s.cache
  {
    match a
    case AddFramesAction(fs) => AddFrames(s, fs)
    case RemoveFrameAction(id) => RemoveFrame(s, id)
    case ClearFramesAction => ClearFrames(s)
    case SetCurrentFrameAction(i) => SetCurrentFrame(s, i)
    case SetColorStripAction(e) => SetColorStrip(s, e)
    case SetPaletteAction(cs) => SetPalette(s, cs)
    case UpdateAdjustmentsAction(p) => UpdateAdjustments(s, p)
    case ResetAdjustmentsAction => ResetAdjustments(s)
    case UpdatePixelationAction(p) => UpdatePixelation(s, p)
    case UpdateDitheringAction(p) => UpdateDithering(s, p)
    case UpdateExportSettingsAction(p) => UpdateExportSettings(s, p)
    case SetExportProgressAction(x) => s.(exportProgress := x)
    case SetIsExportingAction(b) => s.(isExporting := b)
  }

  /** The actions that change the palette or the processing parameters. */
  predicate ChangesParams(a: Action) {
    || a.SetPaletteAction?
    || (a.SetColorStripAction? && a.extracted.Some?)
    || a.UpdateAdjustmentsAction?
    || a.ResetAdjustmentsAction?
    || a.UpdatePixelationAction?
    || a.UpdateDitheringAction?
  }

  /**
   * Each parameter-changing action bumps the version by exactly one; every other action leaves the
   * version, the parameters and the palette as they were.
   */
  lemma VersionStep(s: State, a: Action)
    ensures ChangesParams(a) ==> Apply(s, a).paramsVersion == s.paramsVersion + 1
    ensures !ChangesParams(a) ==> Apply(s, a).paramsVersion == s.paramsVersion
    ensures !ChangesParams(a) ==> Apply(s, a).params == s.params && Apply(s, a).palette == s.palette
  {
  }

  function Run(s: State, actions: seq<Action>): State
    decreases |actions|
  {
    if actions == [] then s else Run(Apply(s, actions[0]), actions[1..])
  }

  /**
   * The version never goes down, and it is unchanged across a run of actions only if the
   * parameters and the palette are too: equal versions mean equal inputs to processing.
   */
  lemma {:induction false} RunVersion(s: State, actions: seq<Action>)
    ensures Run(s, actions).paramsVersion >= s.paramsVersion
    ensures Run(s, actions).paramsVersion == s.paramsVersion ==>
              Run(s, actions).params == s.params && Run(s, actions).palette == s.palette
    decreases |actions|
  {
    if actions != [] {
      VersionStep(s, actions[0]);
      RunVersion(Apply(s, actions[0]), actions[1..]);
    }
  }

  // ---------------------------------------------------------------------------------------------
  // processCurrentFrame
  // ---------------------------------------------------------------------------------------------

  /** What the worker is asked to do: the inputs captured from the state before the await. */
  datatype Job = Job(frameId: string, original: Image, params: ProcessingParams, palette: seq<RGB>, version: nat)

  datatype StartOutcome = Skipped | Submitted(job: Job)

  /** The frame already has a processed image made under the current parameter version. */
  predicate UpToDate(c: ImageCache, id: string, version: nat) {
    id in c.processedWithVersion && c.processedWithVersion[id] == version && id in c.processed
  }

  /**
   * The part of `processCurrentFrame` before the await: nothing happens without a current frame,
   * for an up-to-date frame, or without a cached original; otherwise the job is captured from the
   * state and the processing flag is raised.
   */
  function StartProcessing(s: State): (r: (State, StartOutcome))
    ensures r.1.Skipped? ==> r.0 == s
    ensures r.1.Skipped? <==>
              !(0 <= s.currentFrameIndex < |s.frames|)
              || UpToDate(s.cache, s.frames[s.currentFrameIndex].id, s.paramsVersion)
              || s.frames[s.currentFrameIndex].id !in s.cache.original
    ensures r.1.Submitted? ==>
              && r.0 == s.(isProcessing := true)
              && r.1.job.frameId == s.frames[s.currentFrameIndex].id
              && r.1.job.original == s.cache.original[r.1.job.frameId]
              && r.1.job.params == s.params && r.1.job.palette == s.palette
              && r.1.job.version == s.paramsVersion
  {
    if !(0 <= s.currentFrameIndex < |s.frames|) then (s, Skipped)
    else
      var id := s.frames[s.currentFrameIndex].id;
      if UpToDate(s.cache, id, s.paramsVersion) then (s, Skipped)
      else if id !in s.cache.original then (s, Skipped)
      else (s.(isProcessing := true), Submitted(Job(id, s.cache.original[id], s.params, s.palette, s.paramsVersion)))
  }

  /**
   * The part after the await: the result is cached, stamped with the captured version, only when
   * the parameter version has not moved; a stale result is dropped.
   */
  function FinishProcessing(s: State, job: Job, result: Image): (r: State)
    ensures !r.isProcessing
    ensures s.paramsVersion == job.version ==>
              && r.cache.processed == s.cache.processed[job.frameId := result]
              && r.cache.processedWithVersion == s.cache.processedWithVersion[job.frameId := job.version]
              && r.processedVersion == s.processedVersion + 1
    ensures s.paramsVersion != job.version ==> r == s.(isProcessing := false)
    ensures r.cache.original == s.cache.original
    ensures r.(isProcessing := s.isProcessing, processedVersion := s.processedVersion, cache := s.cache) == s
  {
    if s.paramsVersion == job.version then
      s.(cache := s.cache.(processed := s.cache.processed[job.frameId := result],
                           processedWithVersion := s.cache.processedWithVersion[job.frameId := job.version]),
         isProcessing := false,
         processedVersion := s.processedVersion + 1)
    else
      s.(isProcessing := false)
  }

  /** A failed or cancelled request only lowers the processing flag. */
  function FailProcessing(s: State): (r: State)
    ensures !r.isProcessing
    ensures r.cache == s.cache && r.processedVersion == s.processedVersion
    ensures r.(isProcessing := s.isProcessing) == s
  {
    s.(isProcessing := false)
  }

  /** Once a result is stored, asking again for the same frame under the same parameters is skipped. */
  lemma FinishedFrameSkipped(s: State, job: Job, result: Image)
    requires s.paramsVersion == job.version
    requires 0 <= s.currentFrameIndex < |s.frames| && s.frames[s.currentFrameIndex].id == job.frameId
    ensures StartProcessing(FinishProcessing(s, job, result)).1.Skipped?
  {
    assert UpToDate(FinishProcessing(s, job, result).cache, job.frameId, s.paramsVersion);
  }

  /** A result that arrives after any parameter change is discarded, whatever ran in between. */
  lemma StaleResultDiscarded(s: State, actions: seq<Action>, result: Image)
    requires StartProcessing(s).1.Submitted?
    ensures var job := StartProcessing(s).1.job;
            var later := Run(StartProcessing(s).0, actions);
            later.paramsVersion != job.version ==> FinishProcessing(later, job, result).cache == later.cache
  {
  }

  // ---------------------------------------------------------------------------------------------
  // The cache only serves results of the current parameters
  // ---------------------------------------------------------------------------------------------

  /** How a frame is processed; the worker pipeline in the running program. */
  type Processor = (Image, ProcessingParams, seq<RGB>) -> Image

  /**
   * Every stamp is at most the current version, and an image stamped with the current version is
   * what processing the cached original with the current parameters and palette gives.
   */
  predicate CacheCurrent(s: State, process: Processor) {
    && (forall id :: id in s.cache.processedWithVersion ==> s.cache.processedWithVersion[id] <= s.paramsVersion)
    && (forall id :: UpToDate(s.cache, id, s.paramsVersion) && id in s.cache.original ==>
          s.cache.processed[id] == process(s.cache.original[id], s.params, s.palette))
  }

  /** Frames added by the action carry no version stamp yet (frame ids are generated fresh). */
  predicate AddsUnstamped(s: State, a: Action) {
    a.AddFramesAction? ==> forall f :: f in a.newFrames ==> f.id !in s.cache.processedWithVersion
  }

  lemma InitialCacheCurrent(process: Processor)
    ensures CacheCurrent(Initial, process)
  {
  }

  /** Every synchronous action keeps the cache current. */
  lemma ApplyKeepsCacheCurrent(s: State, a: Action, process: Processor)
    requires CacheCurrent(s, process) && AddsUnstamped(s, a)
    ensures CacheCurrent(Apply(s, a), process)
  {
    var r := Apply(s, a);
    if a.AddFramesAction? {
      forall id | UpToDate(r.cache, id, r.paramsVersion) && id in r.cache.original
        ensures r.cache.processed[id] == process(r.cache.original[id], r.params, r.palette)
      {
        assert id in s.cache.processedWithVersion;
        assert id !in Ids(a.newFrames);
        assert id !in IdsWithProcessed(a.newFrames);
      }
    } else if ChangesParams(a) {
      VersionStep(s, a);
      assert forall id :: !UpToDate(r.cache, id, r.paramsVersion);
    }
  }

  /** A job still matches the state: the version has not moved, or has moved on for good. */
  predicate JobCurrent(s: State, job: Job) {
    && s.paramsVersion >= job.version
    && (s.paramsVersion == job.version ==>
          && s.params == job.params && s.palette == job.palette
          && (job.frameId in s.cache.original ==> s.cache.original[job.frameId] == job.original))
  }

  /** Actions that do not add a frame with the job's id keep the job current. */
  lemma ApplyKeepsJobCurrent(s: State, a: Action, job: Job)
    requires JobCurrent(s, job)
    requires a.AddFramesAction? ==> job.frameId !in Ids(a.newFrames)
    ensures JobCurrent(Apply(s, a), job)
  {
    VersionStep(s, a);
  }

  /** The actions in a run may run in the states they meet, each adding only unstamped frames. */
  predicate RunAddsUnstamped(s: State, actions: seq<Action>)
    decreases |actions|
  {
    actions == [] || (AddsUnstamped(s, actions[0]) && RunAddsUnstamped(Apply(s, actions[0]), actions[1..]))
  }

  predicate ReAdds(actions: seq<Action>, id: string) {
    exists i :: 0 <= i < |actions| && actions[i].AddFramesAction? && id in Ids(actions[i].newFrames)
  }

  lemma {:induction false} RunKeepsJobAndCache(s: State, actions: seq<Action>, job: Job, process: Processor)
    requires CacheCurrent(s, process) && JobCurrent(s, job)
    requires RunAddsUnstamped(s, actions) && !ReAdds(actions, job.frameId)
    ensures CacheCurrent(Run(s, actions), process) && JobCurrent(Run(s, actions), job)
    decreases |actions|
  {
    if actions != [] {
      assert !(actions[0].AddFramesAction? && job.frameId in Ids(actions[0].newFrames));
      ApplyKeepsCacheCurrent(s, actions[0], process);
      ApplyKeepsJobCurrent(s, actions[0], job);
      var rest := actions[1..];
      assert !ReAdds(rest, job.frameId) by {
        forall i | 0 <= i < |rest| ensures !(rest[i].AddFramesAction? && job.frameId in Ids(rest[i].newFrames)) {
          assert rest[i] == actions[i + 1];
        }
      }
      RunKeepsJobAndCache(Apply(s, actions[0]), rest, job, process);
    }
  }

  /** Storing the result of a job that is still current keeps the cache current. */
  lemma FinishKeepsCacheCurrent(s: State, job: Job, process: Processor)
    requires CacheCurrent(s, process) && JobCurrent(s, job)
    ensures CacheCurrent(FinishProcessing(s, job, process(job.original, job.params, job.palette)), process)
  {
  }

  /**
   * The point of the version check: start processing the current frame, let any actions run while
   * the worker is busy (none re-adding that frame's id, new frames unstamped), then finish with the
   * worker's result; every image the cache then serves as up to date is the processing of its
   * original under the parameters and palette in force.
   */
  lemma ProcessingKeepsCacheCurrent(s: State, actions: seq<Action>, process: Processor)
    requires CacheCurrent(s, process)
    requires StartProcessing(s).1.Submitted?
    requires RunAddsUnstamped(StartProcessing(s).0, actions)
    requires !ReAdds(actions, StartProcessing(s).1.job.frameId)
    ensures var job := StartProcessing(s).1.job;
            CacheCurrent(FinishProcessing(Run(StartProcessing(s).0, actions), job,
                                          process(job.original, job.params, job.palette)), process)
  {
    var (s1, out) := StartProcessing(s);
    var job := out.job;
    assert CacheCurrent(s1, process) && JobCurrent(s1, job);
    RunKeepsJobAndCache(s1, actions, job, process);
    FinishKeepsCacheCurrent(Run(s1, actions), job, process);
  }
}
