/**
 * The 32×32×32 colour lookup table: each channel is cut into 32 buckets of 8
 * values, and every bucket triple stores the index of the palette entry nearest
 * to the bucket's centre colour.
 */
module ColorLut {
  import opened Pixels
  import opened Nearest
  import opened Wrappers

  /** Buckets per channel. */
  const LutSize: int := 32
  /** Bits dropped from a channel to find its bucket (256 / 32 = 2³). */
  const Shift: int := 3
  /** Number of table entries, 32³. */
  const TableSize: int := 32768

  /** A table of palette indices together with the palette it was built from. */
  datatype ColorLUT = ColorLUT(table: seq<int>, palette: seq<RGB>)

  /**
   * The shapes `buildColorLUT` produces: an empty table, or a full table whose
   * entries are valid palette indices that fit in a byte.
   */
  predicate WellFormed(lut: ColorLUT) {
    || |lut.table| == 0
    || (&& |lut.table| == TableSize
        && forall i :: 0 <= i < |lut.table| ==> 0 <= lut.table[i] < |lut.palette| && lut.table[i] < 256)
  }

  /** `(rq << 10) + (gq << 5) + bq` for bucket numbers below 32. */
  function LutIndex(rq: int, gq: int, bq: int): int {
    rq * 1024 + gq * 32 + bq
  }

  /** The bucket of a channel value, `v >> 3`. */
  function Bucket(v: byte): int {
    v / 8
  }

  /** The representative value of a bucket, `(q << 3) + 4`. */
  function Centre(q: int): int {
    q * 8 + 4
  }

  /** The bucket triple a flat table index stands for. */
  function RedOf(idx: int): int { idx / 1024 }
  function GreenOf(idx: int): int { idx / 32 % 32 }
  function BlueOf(idx: int): int { idx % 32 }

  predicate InBuckets(rq: int, gq: int, bq: int) {
    0 <= rq < LutSize && 0 <= gq < LutSize && 0 <= bq < LutSize
  }

  /** The flat index layout maps [0,32)³ one-to-one onto [0, 32768). */
  lemma LutIndexBijection(rq: int, gq: int, bq: int)
    requires InBuckets(rq, gq, bq)
    ensures 0 <= LutIndex(rq, gq, bq) < TableSize
    ensures RedOf(LutIndex(rq, gq, bq)) == rq
    ensures GreenOf(LutIndex(rq, gq, bq)) == gq
    ensures BlueOf(LutIndex(rq, gq, bq)) == bq
  {
    var idx := LutIndex(rq, gq, bq);
    DivModUnique(gq * 32 + bq, 32, gq, bq);
    DivModUnique(idx, 1024, rq, gq * 32 + bq);
    DivModUnique(idx, 32, rq * 32 + gq, bq);
    DivModUnique(rq * 32 + gq, 32, rq, gq);
  }

  /** Every table position is the index of exactly the bucket triple decoded from it. */
  lemma LutIndexOnto(idx: int)
    requires 0 <= idx < TableSize
    ensures InBuckets(RedOf(idx), GreenOf(idx), BlueOf(idx))
    ensures LutIndex(RedOf(idx), GreenOf(idx), BlueOf(idx)) == idx
  {
    DivModUnique(idx, 32, idx / 32, idx % 32);
    DivModUnique(idx / 32, 32, idx / 1024, idx / 32 % 32);
  }

  /** The centre colour of the bucket triple at a table position. */
  function CentreQuery(rq: int, gq: int, bq: int): Query {
    Query(Centre(rq) as real, Centre(gq) as real, Centre(bq) as real)
  }

  /**
   * `buildColorLUT`. The stored index passes through a `Uint8Array` cell, so it
   * wraps modulo 256; for palettes of at most 256 entries it is the nearest index.
   */
  function BuildColorLUT(palette: seq<RGB>): (lut: ColorLUT)
    ensures |palette| == 0 ==> lut.table == [] && lut.palette == []
    ensures |palette| > 0 ==> |lut.table| == TableSize && lut.palette == palette
    ensures WellFormed(lut)
  {
    if |palette| == 0 then ColorLUT([], [])
    else
      var table := seq(TableSize, idx requires 0 <= idx < TableSize =>
        NearestIndex(palette, CentreQuery(RedOf(idx), GreenOf(idx), BlueOf(idx))) % 256);
      ColorLUT(table, palette)
  }

  /**
   * For a palette of 1..256 entries, the entry at `(rq<<10)+(gq<<5)+bq` is the
   * lowest palette index of minimum weighted distance from the bucket centre.
   */
  lemma BuildEntry(palette: seq<RGB>, rq: int, gq: int, bq: int)
    requires 0 < |palette| <= 256
    requires InBuckets(rq, gq, bq)
    ensures IsFirstNearest(palette, CentreQuery(rq, gq, bq), BuildColorLUT(palette).table[LutIndex(rq, gq, bq)])
  {
    LutIndexBijection(rq, gq, bq);
  }

  /** The flat index of a colour's buckets. */
  function ColorIndex(r: byte, g: byte, b: byte): (idx: int)
    ensures 0 <= idx < TableSize
  {
    LutIndexBijection(Bucket(r), Bucket(g), Bucket(b));
    LutIndex(Bucket(r), Bucket(g), Bucket(b))
  }

  /**
   * `lookupColor`: the palette entry stored for the colour's bucket. An empty
   * table reads as `undefined`, modelled as `None`.
   */
  function LookupColor(lut: ColorLUT, r: byte, g: byte, b: byte): (c: Option<RGB>)
    requires WellFormed(lut)
    ensures c.None? <==> |lut.table| == 0
    ensures c.Some? ==> c.value in lut.palette
  {
    if |lut.table| == 0 then None
    else Some(lut.palette[lut.table[ColorIndex(r, g, b)]])
  }

  /**
   * `lookupColorValues`: the three channels of the looked-up colour. On an empty
   * table the source dereferences `undefined` and throws; that is `None` here.
   */
  function LookupColorValues(lut: ColorLUT, r: byte, g: byte, b: byte): (v: Option<(int, int, int)>)
    requires WellFormed(lut)
    ensures v.None? <==> |lut.table| == 0
    ensures v.Some? ==> exists c :: c in lut.palette && v.value == (c.r, c.g, c.b)
  {
    if |lut.table| == 0 then None
    else
      var c := lut.palette[lut.table[ColorIndex(r, g, b)]];
      Some((c.r, c.g, c.b))
  }

  /** `lookupColorValues` yields exactly the channels of `lookupColor` for the same arguments. */
  lemma LookupValuesAgree(lut: ColorLUT, r: byte, g: byte, b: byte)
    requires WellFormed(lut)
    ensures LookupColor(lut, r, g, b).None? <==> LookupColorValues(lut, r, g, b).None?
    ensures LookupColor(lut, r, g, b).Some? ==>
      var c := LookupColor(lut, r, g, b).value;
      LookupColorValues(lut, r, g, b) == Some((c.r, c.g, c.b))
  {
  }

  /** A bucket centre lies in its own bucket. */
  lemma CentreInBucket(q: int)
    requires 0 <= q < LutSize
    ensures IsByte(Centre(q)) && Bucket(Centre(q)) == q
  {
  }

  /**
   * The table agrees with the exhaustive search: at every bucket centre, a lookup
   * returns exactly what `findNearestColor` returns.
   */
  lemma LookupMatchesSearchAtCentres(palette: seq<RGB>, rq: int, gq: int, bq: int)
    requires 0 < |palette| <= 256
    requires InBuckets(rq, gq, bq)
    ensures LookupColor(BuildColorLUT(palette), Centre(rq), Centre(gq), Centre(bq))
         == FindNearestColor(CentreQuery(rq, gq, bq), palette)
  {
    CentreInBucket(rq);
    CentreInBucket(gq);
    CentreInBucket(bq);
    var q := CentreQuery(rq, gq, bq);
    BuildEntry(palette, rq, gq, bq);
    FirstNearestUnique(palette, q, BuildColorLUT(palette).table[LutIndex(rq, gq, bq)], NearestIndex(palette, q));
  }

  /** The lookup of any colour is the search result for the centre of that colour's bucket. */
  lemma LookupIsSearchOfBucketCentre(palette: seq<RGB>, r: byte, g: byte, b: byte)
    requires 0 < |palette| <= 256
    ensures LookupColor(BuildColorLUT(palette), r, g, b)
         == FindNearestColor(CentreQuery(Bucket(r), Bucket(g), Bucket(b)), palette)
  {
    var rq, gq, bq := Bucket(r), Bucket(g), Bucket(b);
    var q := CentreQuery(rq, gq, bq);
    BuildEntry(palette, rq, gq, bq);
    FirstNearestUnique(palette, q, BuildColorLUT(palette).table[LutIndex(rq, gq, bq)], NearestIndex(palette, q));
  }
}
