/**
 * Palette extraction from a colour-strip image: the distinct colours of its
 * opaque pixels in first-seen order, thinned so that no two are too close, then
 * down-sampled evenly if there are more than allowed.
 */
module PaletteExtract {
  import opened Pixels
  import opened Wrappers

  /** A pixel counts when its alpha is at least 128. */
  predicate Opaque(p: Pixel) {
    p.a >= 128
  }

  /** `c` is the colour of some opaque pixel. */
  ghost predicate OccursOpaque(px: seq<Pixel>, c: RGB) {
    exists i :: 0 <= i < |px| && Opaque(px[i]) && ColorOf(px[i]) == c
  }

  predicate NoDuplicates(cs: seq<RGB>) {
    forall j, k :: 0 <= j < k < |cs| ==> cs[j] != cs[k]
  }

  /**
   * The first position at or after `t` holding an opaque pixel of colour `c`, or
   * |px| when there is none.
   */
  function FirstOpaque(px: seq<Pixel>, c: RGB, t: nat): (r: nat)
    requires t <= |px|
    ensures t <= r <= |px|
    ensures r < |px| ==> Opaque(px[r]) && ColorOf(px[r]) == c
    ensures forall u :: t <= u < r ==> !(Opaque(px[u]) && ColorOf(px[u]) == c)
    decreases |px| - t
  {
    if t == |px| then |px|
    else if Opaque(px[t]) && ColorOf(px[t]) == c then t
    else FirstOpaque(px, c, t + 1)
  }

  /**
   * The distinct colours of the opaque pixels in order of first occurrence,
   * defined one pixel at a time from the end.
   */
  function OpaqueColors(px: seq<Pixel>): seq<RGB>
    decreases |px|
  {
    if |px| == 0 then []
    else
      var r := OpaqueColors(px[..|px| - 1]);
      var p := px[|px| - 1];
      if Opaque(p) && ColorOf(p) !in r then r + [ColorOf(p)] else r
  }

  /**
   * The first loop of `extractPaletteFromStrip`: a map keyed by the colour keeps
   * the first opaque occurrence of each colour, and its values come out in
   * insertion order.
   */
  method UniqueOpaqueColors(px: seq<Pixel>) returns (colors: seq<RGB>)
    ensures NoDuplicates(colors)
    ensures forall c :: c in colors <==> OccursOpaque(px, c)
    ensures forall j, k :: 0 <= j < k < |colors| ==> FirstOpaque(px, colors[j], 0) < FirstOpaque(px, colors[k], 0)
    ensures colors == OpaqueColors(px)
  {
    colors := [];
    var i := 0;
    while i < |px|
      invariant Collected(px, colors, i)
      invariant colors == OpaqueColors(px[..i])
    {
      var p := px[i];
      assert px[..i + 1][..i] == px[..i];
      if Opaque(p) && ColorOf(p) !in colors {
        CollectNew(px, colors, i);
        colors := colors + [ColorOf(p)];
      } else {
        CollectSkip(px, colors, i);
      }
      i := i + 1;
    }
    assert px[..i] == px;
  }

  /**
   * `colors` holds, without repeats and in order of first occurrence, exactly the
   * colours of the opaque pixels before position `i`.
   */
  ghost predicate Collected(px: seq<Pixel>, colors: seq<RGB>, i: nat) {
    && i <= |px|
    && NoDuplicates(colors)
    && (forall c :: c in colors <==> exists t :: 0 <= t < i && Opaque(px[t]) && ColorOf(px[t]) == c)
    && (forall k :: 0 <= k < |colors| ==> FirstOpaque(px, colors[k], 0) < i)
    && (forall j, k :: 0 <= j < k < |colors| ==> FirstOpaque(px, colors[j], 0) < FirstOpaque(px, colors[k], 0))
  }

  lemma CollectSkip(px: seq<Pixel>, colors: seq<RGB>, i: nat)
    requires Collected(px, colors, i) && i < |px|
    requires !(Opaque(px[i]) && ColorOf(px[i]) !in colors)
    ensures Collected(px, colors, i + 1)
  {
  }

  lemma CollectNew(px: seq<Pixel>, colors: seq<RGB>, i: nat)
    requires Collected(px, colors, i) && i < |px|
    requires Opaque(px[i]) && ColorOf(px[i]) !in colors
    ensures Collected(px, colors + [ColorOf(px[i])], i + 1)
  {
    var c := ColorOf(px[i]);
    assert FirstOpaque(px, c, 0) == i by {
      var f := FirstOpaque(px, c, 0);
      assert f < i ==> c in colors;
    }
  }

  // ----- near-duplicate removal -----

  /** Plain squared RGB distance, as the de-duplication measures it. */
  function DistSq(a: RGB, b: RGB): int {
    (a.r - b.r) * (a.r - b.r) + (a.g - b.g) * (a.g - b.g) + (a.b - b.b) * (a.b - b.b)
  }

  /** `c` is closer than the threshold to a colour already kept. */
  predicate TooClose(c: RGB, kept: seq<RGB>, minDistSq: int) {
    exists e :: e in kept && DistSq(c, e) < minDistSq
  }

  /** Every kept colour is at least the threshold away from each colour kept before it. */
  predicate Spaced(cs: seq<RGB>, minDistSq: int) {
    forall j, k :: 0 <= j < k < |cs| ==> DistSq(cs[k], cs[j]) >= minDistSq
  }

  lemma DistSqNonNegative(a: RGB, b: RGB)
    ensures DistSq(a, b) >= 0
  {
  }

  /** `a` can be obtained from `b` by deleting elements. */
  predicate SubsequenceOf(a: seq<RGB>, b: seq<RGB>)
    decreases |b|
  {
    |a| == 0 || (|b| > 0 && ((a[0] == b[0] && SubsequenceOf(a[1..], b[1..])) || SubsequenceOf(a, b[1..])))
  }

  /**
   * `deduplicateColors` from the point where `kept` holds the result so far and
   * `rest` the colours still to visit.
   */
  function DedupFrom(kept: seq<RGB>, rest: seq<RGB>, minDistSq: int): (r: seq<RGB>)
    requires Spaced(kept, minDistSq)
    ensures |kept| <= |r| && r[..|kept|] == kept
    ensures Spaced(r, minDistSq)
    ensures SubsequenceOf(r[|kept|..], rest)
    ensures forall c :: c in rest ==> c in r || TooClose(c, r, minDistSq)
    decreases |rest|
  {
    if |rest| == 0 then kept
    else
      var c := rest[0];
      if TooClose(c, kept, minDistSq) then
        var r := DedupFrom(kept, rest[1..], minDistSq);
        DedupSkipStep(kept, rest, r, minDistSq);
        r
      else
        SpacedAppend(kept, c, minDistSq);
        var r := DedupFrom(kept + [c], rest[1..], minDistSq);
        DedupKeepStep(kept, rest, r, minDistSq);
        r
  }

  lemma SpacedAppend(kept: seq<RGB>, c: RGB, minDistSq: int)
    requires Spaced(kept, minDistSq) && !TooClose(c, kept, minDistSq)
    ensures Spaced(kept + [c], minDistSq)
  {
    var cs := kept + [c];
    forall j, k | 0 <= j < k < |cs| ensures DistSq(cs[k], cs[j]) >= minDistSq {
      if k == |kept| {
        assert cs[j] in kept;
      }
    }
  }

  /** The bookkeeping of a colour passed over for being too close to a kept one. */
  lemma DedupSkipStep(kept: seq<RGB>, rest: seq<RGB>, r: seq<RGB>, minDistSq: int)
    requires |rest| > 0 && TooClose(rest[0], kept, minDistSq)
    requires |kept| <= |r| && r[..|kept|] == kept
    requires SubsequenceOf(r[|kept|..], rest[1..])
    requires forall c :: c in rest[1..] ==> c in r || TooClose(c, r, minDistSq)
    ensures SubsequenceOf(r[|kept|..], rest)
    ensures forall c :: c in rest ==> c in r || TooClose(c, r, minDistSq)
  {
    assert forall e :: e in kept ==> e in r;
    assert forall c :: c in rest ==> c == rest[0] || c in rest[1..];
  }

  /** The bookkeeping of a colour kept. */
  lemma DedupKeepStep(kept: seq<RGB>, rest: seq<RGB>, r: seq<RGB>, minDistSq: int)
    requires |rest| > 0
    requires |kept| + 1 <= |r| && r[..|kept| + 1] == kept + [rest[0]]
    requires SubsequenceOf(r[|kept| + 1..], rest[1..])
    requires forall c :: c in rest[1..] ==> c in r || TooClose(c, r, minDistSq)
    ensures r[..|kept|] == kept
    ensures SubsequenceOf(r[|kept|..], rest)
    ensures forall c :: c in rest ==> c in r || TooClose(c, r, minDistSq)
  {
    assert r[|kept|] == (kept + [rest[0]])[|kept|];
    assert r[..|kept|] == (kept + [rest[0]])[..|kept|];
    assert r[|kept|..][1..] == r[|kept| + 1..];
    assert forall c :: c in rest ==> c == rest[0] || c in rest[1..];
  }

  /** `deduplicateColors`: a colour is kept unless it is closer than `minDifference` to a kept one. */
  function Deduplicate(colors: seq<RGB>, minDifference: int): (r: seq<RGB>)
    ensures Spaced(r, minDifference * minDifference)
    ensures SubsequenceOf(r, colors)
    ensures forall c :: c in colors ==> c in r || TooClose(c, r, minDifference * minDifference)
  {
    var r := DedupFrom([], colors, minDifference * minDifference);
    assert r[0..] == r;
    r
  }

  /** Everything in a subsequence comes from the sequence. */
  lemma {:induction false} SubsequenceMembers(a: seq<RGB>, b: seq<RGB>)
    requires SubsequenceOf(a, b)
    ensures forall c :: c in a ==> c in b
    decreases |b|
  {
    if |a| > 0 {
      if a[0] == b[0] && SubsequenceOf(a[1..], b[1..]) {
        SubsequenceMembers(a[1..], b[1..]);
        assert forall c :: c in a ==> c == a[0] || c in a[1..];
      } else {
        SubsequenceMembers(a, b[1..]);
      }
    }
  }

  /** The first colour is always kept. */
  lemma DeduplicateKeepsFirst(colors: seq<RGB>, minDifference: int)
    requires |colors| > 0
    ensures |Deduplicate(colors, minDifference)| > 0 && Deduplicate(colors, minDifference)[0] == colors[0]
  {
  }

  /** A threshold of zero keeps every colour. */
  lemma DeduplicateZeroKeepsAll(colors: seq<RGB>)
    ensures forall c :: c in colors ==> c in Deduplicate(colors, 0)
  {
    var r := Deduplicate(colors, 0);
    forall c, e | c in colors && e in r
      ensures DistSq(c, e) >= 0
    {
      DistSqNonNegative(c, e);
    }
  }

  /**
   * The loop of `deduplicateColors`, one colour at a time: the next colour is
   * appended exactly when it is at least `minDistSq` away from every colour kept
   * so far.
   */
  lemma {:induction false} DedupFromSnoc(kept: seq<RGB>, rest: seq<RGB>, c: RGB, minDistSq: int)
    requires Spaced(kept, minDistSq)
    ensures DedupFrom(kept, rest + [c], minDistSq) ==
      (var r := DedupFrom(kept, rest, minDistSq); if TooClose(c, r, minDistSq) then r else r + [c])
    decreases |rest|
  {
    if |rest| == 0 {
      assert rest + [c] == [c];
      assert [c][1..] == [];
    } else {
      assert (rest + [c])[0] == rest[0];
      assert (rest + [c])[1..] == rest[1..] + [c];
      if TooClose(rest[0], kept, minDistSq) {
        DedupFromSnoc(kept, rest[1..], c, minDistSq);
      } else {
        SpacedAppend(kept, rest[0], minDistSq);
        DedupFromSnoc(kept + [rest[0]], rest[1..], c, minDistSq);
      }
    }
  }

  /**
   * Together with `Deduplicate([], d) == []` (a subsequence of nothing is empty)
   * this pins the result down: a colour is kept if and only if it is far enough
   * from every colour kept before it.
   */
  lemma DeduplicateSnoc(colors: seq<RGB>, c: RGB, minDifference: int)
    ensures Deduplicate(colors + [c], minDifference) ==
      (var r := Deduplicate(colors, minDifference);
       if TooClose(c, r, minDifference * minDifference) then r else r + [c])
  {
    DedupFromSnoc([], colors, c, minDifference * minDifference);
  }

  /**
   * The greedy pass compares only with colours it kept: a colour close to a
   * dropped one survives, so the result depends on the order of the input. With
   * threshold 10, (200,200,200), (0,0,0), (6,0,0), (12,0,0) is one such input.
   */
  lemma DeduplicateComparesWithKeptOnly(a: RGB, b: RGB, c: RGB, d: RGB, minDifference: int)
    requires DistSq(b, a) >= minDifference * minDifference
    requires DistSq(c, b) < minDifference * minDifference
    requires DistSq(d, a) >= minDifference * minDifference && DistSq(d, b) >= minDifference * minDifference
    ensures Deduplicate([a, b, c, d], minDifference) == [a, b, d]
  {
    KeepStep([], a, [a], minDifference);
    KeepStep([a], b, [a, b], minDifference);
    DropStep([a, b], c, b, [a, b, c], minDifference);
    KeepStep([a, b, c], d, [a, b, c, d], minDifference);
  }

  /** The instance in the comment above: (12,0,0) is kept although it is within 10 of (6,0,0). */
  lemma DeduplicateOrderExample()
    ensures Deduplicate([RGB(200, 200, 200), RGB(0, 0, 0), RGB(6, 0, 0), RGB(12, 0, 0)], 10)
         == [RGB(200, 200, 200), RGB(0, 0, 0), RGB(12, 0, 0)]
  {
    DeduplicateComparesWithKeptOnly(RGB(200, 200, 200), RGB(0, 0, 0), RGB(6, 0, 0), RGB(12, 0, 0), 10);
  }

  /** One step of `DeduplicateComparesWithKeptOnly` in which the colour is kept. */
  lemma KeepStep(before: seq<RGB>, c: RGB, after: seq<RGB>, minDifference: int)
    requires after == before + [c]
    requires forall e :: e in Deduplicate(before, minDifference) ==> DistSq(c, e) >= minDifference * minDifference
    ensures Deduplicate(after, minDifference) == Deduplicate(before, minDifference) + [c]
  {
    DeduplicateSnoc(before, c, minDifference);
  }

  /** One step of `DeduplicateComparesWithKeptOnly` in which the colour is dropped because of `e`. */
  lemma DropStep(before: seq<RGB>, c: RGB, e: RGB, after: seq<RGB>, minDifference: int)
    requires after == before + [c]
    requires e in Deduplicate(before, minDifference) && DistSq(c, e) < minDifference * minDifference
    ensures Deduplicate(after, minDifference) == Deduplicate(before, minDifference)
  {
    DeduplicateSnoc(before, c, minDifference);
  }

  /** The colours of `cs` appear in the order of their first opaque occurrence in `px`. */
  ghost predicate InFirstSeenOrder(px: seq<Pixel>, cs: seq<RGB>) {
    forall j, k :: 0 <= j < k < |cs| ==> FirstOpaque(px, cs[j], 0) < FirstOpaque(px, cs[k], 0)
  }

  /** Deleting elements keeps the order of the remaining ones. */
  lemma {:induction false} SubsequenceKeepsOrder(a: seq<RGB>, b: seq<RGB>, px: seq<Pixel>)
    requires SubsequenceOf(a, b) && InFirstSeenOrder(px, b)
    ensures InFirstSeenOrder(px, a)
    decreases |b|
  {
    if |a| > 0 {
      assert InFirstSeenOrder(px, b[1..]) by {
        forall j, k | 0 <= j < k < |b[1..]|
          ensures FirstOpaque(px, b[1..][j], 0) < FirstOpaque(px, b[1..][k], 0)
        {
          assert b[1..][j] == b[j + 1] && b[1..][k] == b[k + 1];
        }
      }
      if a[0] == b[0] && SubsequenceOf(a[1..], b[1..]) {
        SubsequenceKeepsOrder(a[1..], b[1..], px);
        SubsequenceMembers(a[1..], b[1..]);
        forall j, k | 0 <= j < k < |a|
          ensures FirstOpaque(px, a[j], 0) < FirstOpaque(px, a[k], 0)
        {
          if j == 0 {
            assert a[k] == a[1..][k - 1];
            assert a[k] in b[1..];
            var m :| 0 <= m < |b[1..]| && b[1..][m] == a[k];
            assert b[m + 1] == a[k];
          } else {
            assert a[j] == a[1..][j - 1] && a[k] == a[1..][k - 1];
          }
        }
      } else {
        SubsequenceKeepsOrder(a, b[1..], px);
      }
    }
  }

  // ----- even down-sampling -----

  /** The index `Math.floor(i * (len / count))` reads, with the step taken exactly. */
  function SampleIndex(i: nat, len: nat, count: nat): nat
    requires count > 0
  {
    (i * len) / count
  }

  /** `sampleColors`: `count` colours taken at evenly spaced positions, or all of them if there are few enough. */
  function Sample(colors: seq<RGB>, count: nat): (r: seq<RGB>)
    ensures |colors| <= count ==> r == colors
    ensures |colors| > count ==> |r| == count
    ensures |colors| > count ==> forall i :: 0 <= i < count ==>
      SampleIndex(i, |colors|, count) < |colors| && r[i] == colors[SampleIndex(i, |colors|, count)]
  {
    if |colors| <= count then colors
    else if count == 0 then []
    else
      SampleIndicesInRange(|colors|, count);
      seq(count, i requires 0 <= i < count => colors[SampleIndex(i, |colors|, count)])
  }

  lemma SampleIndicesInRange(len: nat, count: nat)
    requires 0 < count < len
    ensures forall i :: 0 <= i < count ==> SampleIndex(i, len, count) < len
  {
    forall i | 0 <= i < count
      ensures SampleIndex(i, len, count) < len
    {
      SampleIndexInRange(i, len, count);
    }
  }

  lemma SampleIndexInRange(i: nat, len: nat, count: nat)
    requires 0 < count && i < count && 0 < len
    ensures SampleIndex(i, len, count) < len
  {
    var a := i * len;
    var q := a / count;
    MulMono(i + 1, count, len);
    MulMono(len, q, count);
    assert q * count <= a < count * len;
  }

  /**
   * With more colours than wanted, sample positions strictly increase, so the
   * sample keeps order and picks no position twice.
   */
  lemma SampleIndexIncreasing(i: nat, j: nat, len: nat, count: nat)
    requires 0 < count < len && i < j
    ensures SampleIndex(i, len, count) < SampleIndex(j, len, count)
  {
    MulMono(i + 1, j, len);
    assert (i + 1) * len == i * len + len;
    QuotientStep(i * len, j * len, count);
  }

  /** Numbers at least `d` apart have different quotients by `d`. */
  lemma QuotientStep(a: nat, b: nat, d: nat)
    requires d > 0 && a + d <= b
    ensures a / d < b / d
  {
    var q := a / d;
    assert q * d <= a;
    assert (q + 1) * d == q * d + d;
    DivAtLeast(b, d, q + 1);
  }

  /** b ≥ k·d implies b / d ≥ k. */
  lemma DivAtLeast(b: nat, d: nat, k: nat)
    requires d > 0 && k * d <= b
    ensures k <= b / d
  {
    MulMono(b / d + 1, k, d);
  }

  /** A sample of a spaced list is spaced, and consists of its colours. */
  lemma SampleKeepsSpacing(colors: seq<RGB>, count: nat, minDistSq: int)
    requires Spaced(colors, minDistSq)
    ensures Spaced(Sample(colors, count), minDistSq)
    ensures forall c :: c in Sample(colors, count) ==> c in colors
  {
    var r := Sample(colors, count);
    if |colors| > count {
      forall j, k | 0 <= j < k < |r|
        ensures DistSq(r[j], r[k]) >= minDistSq
      {
        SampleIndexIncreasing(j, k, |colors|, count);
      }
    }
  }

  /** Sampling picks positions in increasing order, so it keeps the order too. */
  lemma SampleKeepsOrder(colors: seq<RGB>, count: nat, px: seq<Pixel>)
    requires InFirstSeenOrder(px, colors)
    ensures InFirstSeenOrder(px, Sample(colors, count))
  {
    var r := Sample(colors, count);
    if |colors| > count {
      forall j, k | 0 <= j < k < |r|
        ensures FirstOpaque(px, r[j], 0) < FirstOpaque(px, r[k], 0)
      {
        SampleIndexIncreasing(j, k, |colors|, count);
      }
    }
  }

  // ----- the whole extraction -----

  datatype ExtractionOptions = ExtractionOptions(maxColors: Option<nat>, minColorDifference: Option<int>)

  const DefaultMaxColors: nat := 256
  const DefaultMinColorDifference := 10

  /**
   * `extractPaletteFromStrip`: distinct opaque colours, near-duplicates dropped,
   * down-sampled to at most `maxColors` (256 by default).
   */
  method ExtractPalette(img: Image, options: ExtractionOptions) returns (palette: seq<RGB>)
    ensures var maxColors, d := options.maxColors.GetOr(DefaultMaxColors), options.minColorDifference.GetOr(DefaultMinColorDifference);
      var deduped := Deduplicate(OpaqueColors(img.pixels), d);
      palette == if |deduped| > maxColors then Sample(deduped, maxColors) else deduped
    ensures |palette| <= options.maxColors.GetOr(DefaultMaxColors)
    ensures forall c :: c in palette ==> OccursOpaque(img.pixels, c)
    ensures ValidPalette(palette)
    ensures var d := options.minColorDifference.GetOr(DefaultMinColorDifference); Spaced(palette, d * d)
    ensures InFirstSeenOrder(img.pixels, palette)
    ensures (exists i :: 0 <= i < |img.pixels| && Opaque(img.pixels[i])) && options.maxColors.GetOr(DefaultMaxColors) > 0
      ==> |palette| > 0
    ensures var d := options.minColorDifference.GetOr(DefaultMinColorDifference);
      |palette| < options.maxColors.GetOr(DefaultMaxColors) ==>
        forall c :: OccursOpaque(img.pixels, c) ==> c in palette || TooClose(c, palette, d * d)
  {
    var maxColors := options.maxColors.GetOr(DefaultMaxColors);
    var minDifference := options.minColorDifference.GetOr(DefaultMinColorDifference);
    var colors := UniqueOpaqueColors(img.pixels);
    var deduped := Deduplicate(colors, minDifference);
    SubsequenceMembers(deduped, colors);
    palette := if |deduped| > maxColors then Sample(deduped, maxColors) else deduped;
    SampleKeepsSpacing(deduped, maxColors, minDifference * minDifference);
    SubsequenceKeepsOrder(deduped, colors, img.pixels);
    SampleKeepsOrder(deduped, maxColors, img.pixels);
    if i :| 0 <= i < |img.pixels| && Opaque(img.pixels[i]) {
      assert ColorOf(img.pixels[i]) in colors;
      DeduplicateKeepsFirst(colors, minDifference);
    }
    if |palette| < maxColors {
      forall c | OccursOpaque(img.pixels, c)
        ensures c in palette || TooClose(c, palette, minDifference * minDifference)
      {
        assert c in colors;
      }
    }
    forall i | 0 <= i < |palette|
      ensures ValidColor(palette[i])
    {
      assert palette[i] in palette;
      var t :| 0 <= t < |img.pixels| && Opaque(img.pixels[t]) && ColorOf(img.pixels[t]) == palette[i];
    }
  }
}
