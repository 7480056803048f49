/**
 * Nearest-palette search under the weighted distance 2·ΔR² + 4·ΔG² + 3·ΔB²,
 * shared by the colour lookup table builder and the direct-search dither.
 */
module Nearest {
  import opened Pixels
  import opened Wrappers

  /** A colour being matched. The dithering path matches clamped, non-integer colours. */
  datatype Query = Query(r: real, g: real, b: real)

  function QueryOf(c: RGB): Query {
    Query(c.r as real, c.g as real, c.b as real)
  }

  function Sq(x: real): real {
    x * x
  }

  /** Weighted squared distance; green counts most, blue next, red least. */
  function Distance(q: Query, c: RGB): real {
    2.0 * Sq(q.r - c.r as real) + 4.0 * Sq(q.g - c.g as real) + 3.0 * Sq(q.b - c.b as real)
  }

  /**
   * `k` is the first index among the first `n` palette entries whose distance to `q`
   * is minimal: no entry is closer, and every earlier entry is strictly farther.
   */
  ghost predicate FirstNearestAmong(palette: seq<RGB>, q: Query, k: int, n: int) {
    && 0 <= k < n <= |palette|
    && (forall j :: 0 <= j < n ==> Distance(q, palette[k]) <= Distance(q, palette[j]))
    && (forall j :: 0 <= j < k ==> Distance(q, palette[k]) < Distance(q, palette[j]))
  }

  /** `k` is the index an exhaustive, strict-`<` scan of the whole palette settles on. */
  ghost predicate IsFirstNearest(palette: seq<RGB>, q: Query, k: int) {
    FirstNearestAmong(palette, q, k, |palette|)
  }

  /**
   * The scan loop from position `i` on, with `best` the winner so far. A later entry
   * replaces `best` only when strictly closer, so ties keep the earlier entry.
   */
  function Scan(palette: seq<RGB>, q: Query, i: int, best: int): (k: int)
    requires FirstNearestAmong(palette, q, best, i)
    ensures IsFirstNearest(palette, q, k)
    decreases |palette| - i
  {
    if i == |palette| then best
    else if Distance(q, palette[i]) < Distance(q, palette[best]) then Scan(palette, q, i + 1, i)
    else Scan(palette, q, i + 1, best)
  }

  /**
   * Index of the nearest palette entry. The source starts from an infinite best
   * distance, so the first entry always wins the first comparison; the scan
   * therefore starts at position 1 with entry 0 as the winner so far.
   */
  function NearestIndex(palette: seq<RGB>, q: Query): (k: int)
    requires |palette| > 0
    ensures IsFirstNearest(palette, q, k)
  {
    Scan(palette, q, 1, 0)
  }

  /** The first-nearest index is unique, so any exhaustive strict-`<` search must find it. */
  lemma FirstNearestUnique(palette: seq<RGB>, q: Query, k1: int, k2: int)
    requires IsFirstNearest(palette, q, k1) && IsFirstNearest(palette, q, k2)
    ensures k1 == k2
  {
    var d1, d2 := Distance(q, palette[k1]), Distance(q, palette[k2]);
    assert k1 < k2 ==> d2 < d1;
    assert k2 < k1 ==> d1 < d2;
  }

  /**
   * `findNearestColor`: the first palette entry of minimum distance; `None` stands for
   * the `undefined` that `palette[0]` yields on an empty palette.
   */
  function FindNearestColor(q: Query, palette: seq<RGB>): (c: Option<RGB>)
    ensures c.None? <==> |palette| == 0
    ensures c.Some? ==> exists k :: IsFirstNearest(palette, q, k) && c.value == palette[k]
  {
    if |palette| == 0 then None else Some(palette[NearestIndex(palette, q)])
  }

  /** A palette colour is its own nearest match: searching for it returns it unchanged. */
  lemma SearchFindsMember(palette: seq<RGB>, c: RGB)
    requires c in palette
    ensures FindNearestColor(QueryOf(c), palette) == Some(c)
  {
    var k :| 0 <= k < |palette| && palette[k] == c;
    var q := QueryOf(c);
    var n := NearestIndex(palette, q);
    assert Distance(q, palette[k]) == 0.0;
    DistanceZeroOnlyAtSelf(palette[n], c);
  }

  lemma DistanceZeroOnlyAtSelf(c: RGB, d: RGB)
    ensures Distance(QueryOf(d), c) >= 0.0
    ensures Distance(QueryOf(d), c) == 0.0 <==> c == d
  {
    assert QueryOf(d).r - c.r as real == (d.r - c.r) as real;
    assert QueryOf(d).g - c.g as real == (d.g - c.g) as real;
    assert QueryOf(d).b - c.b as real == (d.b - c.b) as real;
    SqOfInt(d.r - c.r);
    SqOfInt(d.g - c.g);
    SqOfInt(d.b - c.b);
  }

  /** Squares of whole numbers are computed exactly, so they vanish only at zero. */
  lemma SqOfInt(k: int)
    ensures Sq(k as real) == (k * k) as real
    ensures Sq(k as real) >= 0.0
    ensures Sq(k as real) == 0.0 <==> k == 0
  {
    if k != 0 { assert k * k > 0; }
  }
}
