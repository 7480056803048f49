/**
 * The three ordered-dithering threshold matrices (2×2, 4×4, 8×8). Each is kept as
 * its row-major numerators k; the cell value is k / N², or k / N² − 0.5 once
 * centred on zero.
 */
module Bayer {
  import opened Pixels

  /** The matrix sizes the dithering settings allow. */
  type MatrixSize = n: int | n == 2 || n == 4 || n == 8 witness 2

  const Bayer2: seq<seq<int>> := [[0, 2],
                                  [3, 1]]

  const Bayer4: seq<seq<int>> := [[ 0,  8,  2, 10],
                                  [12,  4, 14,  6],
                                  [ 3, 11,  1,  9],
                                  [15,  7, 13,  5]]

  const Bayer8: seq<seq<int>> := [Bayer8Row0, Bayer8Row1, Bayer8Row2, Bayer8Row3,
                                  Bayer8Row4, Bayer8Row5, Bayer8Row6, Bayer8Row7]

  const Bayer8Row0: seq<int> := [ 0, 32,  8, 40,  2, 34, 10, 42]
  const Bayer8Row1: seq<int> := [48, 16, 56, 24, 50, 18, 58, 26]
  const Bayer8Row2: seq<int> := [12, 44,  4, 36, 14, 46,  6, 38]
  const Bayer8Row3: seq<int> := [60, 28, 52, 20, 62, 30, 54, 22]
  const Bayer8Row4: seq<int> := [ 3, 35, 11, 43,  1, 33,  9, 41]
  const Bayer8Row5: seq<int> := [51, 19, 59, 27, 49, 17, 57, 25]
  const Bayer8Row6: seq<int> := [15, 47,  7, 39, 13, 45,  5, 37]
  const Bayer8Row7: seq<int> := [63, 31, 55, 23, 61, 29, 53, 21]

  /** `getBayerMatrix`: the numerator rows for a size. */
  function Numerators(n: MatrixSize): seq<seq<int>> {
    if n == 2 then Bayer2 else if n == 4 then Bayer4 else Bayer8
  }

  /** The level L with n == 2^L. */
  function Level(n: MatrixSize): nat {
    if n == 2 then 1 else if n == 4 then 2 else 3
  }

  function Pow2(level: nat): (p: nat)
    ensures p >= 1
  {
    if level == 0 then 1 else 2 * Pow2(level - 1)
  }

  /** Number of cells of the level's matrix, 4^level. */
  function Cells(level: nat): (c: nat)
    ensures c >= 1
  {
    if level == 0 then 1 else 4 * Cells(level - 1)
  }

  lemma {:induction false} CellsIsSquare(level: nat)
    ensures Cells(level) == Pow2(level) * Pow2(level)
  {
    if level > 0 {
      CellsIsSquare(level - 1);
      var h := Pow2(level - 1);
      assert (2 * h) * (2 * h) == 4 * (h * h);
    }
  }

  /** Offset of each quadrant in the recursive construction: [[0, 2], [3, 1]]. */
  function Quadrant(qy: int, qx: int): int
    requires 0 <= qy < 2 && 0 <= qx < 2
  {
    if qy == 0 then (if qx == 0 then 0 else 2) else (if qx == 0 then 3 else 1)
  }

  /** Which half of a side of length 2h a coordinate falls in, and where inside that half. */
  function Half(v: int, h: int): (qi: (int, int))
    requires 0 <= v < 2 * h
    ensures 0 <= qi.0 < 2 && 0 <= qi.1 < h
    ensures v == qi.0 * h + qi.1
  {
    if v < h then (0, v) else (1, v - h)
  }

  /**
   * The standard recursive Bayer construction: the 2N matrix is four copies of
   * 4·M_N, shifted by 0, 2, 3 and 1 in the top-left, top-right, bottom-left and
   * bottom-right quadrants.
   */
  function Pattern(level: nat, y: int, x: int): int
    requires 0 <= y < Pow2(level) && 0 <= x < Pow2(level)
    decreases level
  {
    if level == 0 then 0
    else
      var h := Pow2(level - 1);
      var qy, qx := Half(y, h), Half(x, h);
      4 * Pattern(level - 1, qy.1, qx.1) + Quadrant(qy.0, qx.0)
  }

  /** A position holding a given value; the inverse of the construction. */
  function Position(level: nat, k: int): (yx: (int, int))
    requires 0 <= k < Cells(level)
    ensures 0 <= yx.0 < Pow2(level) && 0 <= yx.1 < Pow2(level)
    ensures Pattern(level, yx.0, yx.1) == k
    decreases level
  {
    if level == 0 then (0, 0)
    else
      var h := Pow2(level - 1);
      QuarterSplit(k, Cells(level - 1));
      var d := k % 4;
      var inner := Position(level - 1, k / 4);
      var y := if d == 0 || d == 2 then inner.0 else h + inner.0;
      var x := if d == 0 || d == 3 then inner.1 else h + inner.1;
      assert Half(y, h) == (if d == 0 || d == 2 then 0 else 1, inner.0);
      assert Half(x, h) == (if d == 0 || d == 3 then 0 else 1, inner.1);
      (y, x)
  }

  lemma QuarterSplit(k: int, c: nat)
    requires 0 <= k < 4 * c
    ensures 0 <= k / 4 < c && 0 <= k % 4 < 4 && k == 4 * (k / 4) + k % 4
  {
  }

  /** Every value of the construction lies in [0, 4^level). */
  lemma {:induction false} PatternRange(level: nat, y: int, x: int)
    requires 0 <= y < Pow2(level) && 0 <= x < Pow2(level)
    ensures 0 <= Pattern(level, y, x) < Cells(level)
    decreases level
  {
    if level > 0 {
      var h := Pow2(level - 1);
      PatternRange(level - 1, Half(y, h).1, Half(x, h).1);
    }
  }

  /** No value occurs twice in the construction. */
  lemma {:induction false} PatternInjective(level: nat, y1: int, x1: int, y2: int, x2: int)
    requires 0 <= y1 < Pow2(level) && 0 <= x1 < Pow2(level)
    requires 0 <= y2 < Pow2(level) && 0 <= x2 < Pow2(level)
    requires Pattern(level, y1, x1) == Pattern(level, y2, x2)
    ensures y1 == y2 && x1 == x2
    decreases level
  {
    if level > 0 {
      var h := Pow2(level - 1);
      var qy1, qx1, qy2, qx2 := Half(y1, h), Half(x1, h), Half(y2, h), Half(x2, h);
      var p1, p2 := Pattern(level - 1, qy1.1, qx1.1), Pattern(level - 1, qy2.1, qx2.1);
      var d1, d2 := Quadrant(qy1.0, qx1.0), Quadrant(qy2.0, qx2.0);
      assert 4 * p1 + d1 == 4 * p2 + d2;
      DigitsUnique(p1, d1, p2, d2);
      assert qy1.0 == qy2.0 && qx1.0 == qx2.0;
      PatternInjective(level - 1, qy1.1, qx1.1, qy2.1, qx2.1);
    }
  }

  lemma DigitsUnique(a: int, b: int, c: int, d: int)
    requires 0 <= b < 4 && 0 <= d < 4 && 4 * a + b == 4 * c + d
    ensures a == c && b == d
  {
  }

  /** Whether row `y` of a literal table agrees with the construction from column `x` on. */
  predicate RowAgrees(row: seq<int>, level: nat, y: nat, x: nat)
    requires |row| == Pow2(level) && y < Pow2(level)
    decreases Pow2(level) - x
  {
    x >= Pow2(level) || (row[x] == Pattern(level, y, x) && RowAgrees(row, level, y, x + 1))
  }

  /** Whether the rows of a literal table agree with the construction from row `y` on. */
  predicate Agrees(t: seq<seq<int>>, level: nat, y: nat)
    decreases Pow2(level) - y
  {
    && |t| == Pow2(level)
    && (forall r :: 0 <= r < |t| ==> |t[r]| == Pow2(level))
    && (y >= Pow2(level) || (RowAgrees(t[y], level, y, 0) && Agrees(t, level, y + 1)))
  }

  lemma {:induction false} RowAgreesAt(row: seq<int>, level: nat, y: nat, x: nat, j: nat)
    requires |row| == Pow2(level) && y < Pow2(level)
    requires RowAgrees(row, level, y, x) && x <= j < Pow2(level)
    ensures row[j] == Pattern(level, y, j)
    decreases j - x
  {
    if x < j {
      RowAgreesAt(row, level, y, x + 1, j);
    }
  }

  lemma {:induction false} AgreesAt(t: seq<seq<int>>, level: nat, y: nat, i: nat, j: nat)
    requires Agrees(t, level, y) && y <= i < Pow2(level) && j < Pow2(level)
    ensures t[i][j] == Pattern(level, i, j)
    decreases i - y
  {
    if y < i {
      AgreesAt(t, level, y + 1, i, j);
    } else {
      RowAgreesAt(t[i], level, i, 0, j);
    }
  }

  lemma TableShape(n: MatrixSize)
    ensures |Numerators(n)| == n
    ensures forall y :: 0 <= y < n ==> |Numerators(n)[y]| == n
  {
  }

  /** The numerator at a row and column of the N×N matrix. */
  function Cell(n: MatrixSize, row: int, col: int): int
    requires 0 <= row < n && 0 <= col < n
  {
    TableShape(n);
    Numerators(n)[row][col]
  }

  lemma Bayer2Agrees() ensures Agrees(Bayer2, 1, 0) {
    assert Pow2(1) == 2;
  }

  lemma Bayer4Agrees() ensures Agrees(Bayer4, 2, 0) {
    assert Pow2(2) == 4;
  }

  lemma Bayer8Row0AgreesFrom6() ensures Pow2(3) == 8 && RowAgrees(Bayer8Row0, 3, 0, 6) {
    assert Pow2(3) == 8;
  }

  lemma Bayer8Row0AgreesFrom4() ensures Pow2(3) == 8 && RowAgrees(Bayer8Row0, 3, 0, 4) {
    Bayer8Row0AgreesFrom6();
  }

  lemma Bayer8Row0AgreesFrom2() ensures Pow2(3) == 8 && RowAgrees(Bayer8Row0, 3, 0, 2) {
    Bayer8Row0AgreesFrom4();
  }

  lemma Bayer8Row0Agrees() ensures Pow2(3) == 8 && RowAgrees(Bayer8[0], 3, 0, 0) {
    Bayer8Row0AgreesFrom2();
    assert Bayer8[0] == Bayer8Row0;
  }

  lemma Bayer8Row1AgreesFrom6() ensures Pow2(3) == 8 && RowAgrees(Bayer8Row1, 3, 1, 6) {
    assert Pow2(3) == 8;
  }

  lemma Bayer8Row1AgreesFrom4() ensures Pow2(3) == 8 && RowAgrees(Bayer8Row1, 3, 1, 4) {
    Bayer8Row1AgreesFrom6();
  }

  lemma Bayer8Row1AgreesFrom2() ensures Pow2(3) == 8 && RowAgrees(Bayer8Row1, 3, 1, 2) {
    Bayer8Row1AgreesFrom4();
  }

  lemma Bayer8Row1Agrees() ensures Pow2(3) == 8 && RowAgrees(Bayer8[1], 3, 1, 0) {
    Bayer8Row1AgreesFrom2();
    assert Bayer8[1] == Bayer8Row1;
  }

  lemma Bayer8Row2AgreesFrom6() ensures Pow2(3) == 8 && RowAgrees(Bayer8Row2, 3, 2, 6) {
    assert Pow2(3) == 8;
  }

  lemma Bayer8Row2AgreesFrom4() ensures Pow2(3) == 8 && RowAgrees(Bayer8Row2, 3, 2, 4) {
    Bayer8Row2AgreesFrom6();
  }

  lemma Bayer8Row2AgreesFrom2() ensures Pow2(3) == 8 && RowAgrees(Bayer8Row2, 3, 2, 2) {
    Bayer8Row2AgreesFrom4();
  }

  lemma Bayer8Row2Agrees() ensures Pow2(3) == 8 && RowAgrees(Bayer8[2], 3, 2, 0) {
    Bayer8Row2AgreesFrom2();
    assert Bayer8[2] == Bayer8Row2;
  }

  lemma Bayer8Row3AgreesFrom6() ensures Pow2(3) == 8 && RowAgrees(Bayer8Row3, 3, 3, 6) {
    assert Pow2(3) == 8;
  }

  lemma Bayer8Row3AgreesFrom4() ensures Pow2(3) == 8 && RowAgrees(Bayer8Row3, 3, 3, 4) {
    Bayer8Row3AgreesFrom6();
  }

  lemma Bayer8Row3AgreesFrom2() ensures Pow2(3) == 8 && RowAgrees(Bayer8Row3, 3, 3, 2) {
    Bayer8Row3AgreesFrom4();
  }

  lemma Bayer8Row3Agrees() ensures Pow2(3) == 8 && RowAgrees(Bayer8[3], 3, 3, 0) {
    Bayer8Row3AgreesFrom2();
    assert Bayer8[3] == Bayer8Row3;
  }

  lemma Bayer8Row4AgreesFrom6() ensures Pow2(3) == 8 && RowAgrees(Bayer8Row4, 3, 4, 6) {
    assert Pow2(3) == 8;
  }

  lemma Bayer8Row4AgreesFrom4() ensures Pow2(3) == 8 && RowAgrees(Bayer8Row4, 3, 4, 4) {
    Bayer8Row4AgreesFrom6();
  }

  lemma Bayer8Row4AgreesFrom2() ensures Pow2(3) == 8 && RowAgrees(Bayer8Row4, 3, 4, 2) {
    Bayer8Row4AgreesFrom4();
  }

  lemma Bayer8Row4Agrees() ensures Pow2(3) == 8 && RowAgrees(Bayer8[4], 3, 4, 0) {
    Bayer8Row4AgreesFrom2();
    assert Bayer8[4] == Bayer8Row4;
  }

  lemma Bayer8Row5AgreesFrom6() ensures Pow2(3) == 8 && RowAgrees(Bayer8Row5, 3, 5, 6) {
    assert Pow2(3) == 8;
  }

  lemma Bayer8Row5AgreesFrom4() ensures Pow2(3) == 8 && RowAgrees(Bayer8Row5, 3, 5, 4) {
    Bayer8Row5AgreesFrom6();
  }

  lemma Bayer8Row5AgreesFrom2() ensures Pow2(3) == 8 && RowAgrees(Bayer8Row5, 3, 5, 2) {
    Bayer8Row5AgreesFrom4();
  }

  lemma Bayer8Row5Agrees() ensures Pow2(3) == 8 && RowAgrees(Bayer8[5], 3, 5, 0) {
    Bayer8Row5AgreesFrom2();
    assert Bayer8[5] == Bayer8Row5;
  }

  lemma Bayer8Row6AgreesFrom6() ensures Pow2(3) == 8 && RowAgrees(Bayer8Row6, 3, 6, 6) {
    assert Pow2(3) == 8;
  }

  lemma Bayer8Row6AgreesFrom4() ensures Pow2(3) == 8 && RowAgrees(Bayer8Row6, 3, 6, 4) {
    Bayer8Row6AgreesFrom6();
  }

  lemma Bayer8Row6AgreesFrom2() ensures Pow2(3) == 8 && RowAgrees(Bayer8Row6, 3, 6, 2) {
    Bayer8Row6AgreesFrom4();
  }

  lemma Bayer8Row6Agrees() ensures Pow2(3) == 8 && RowAgrees(Bayer8[6], 3, 6, 0) {
    Bayer8Row6AgreesFrom2();
    assert Bayer8[6] == Bayer8Row6;
  }

  lemma Bayer8Row7AgreesFrom6() ensures Pow2(3) == 8 && RowAgrees(Bayer8Row7, 3, 7, 6) {
    assert Pow2(3) == 8;
  }

  lemma Bayer8Row7AgreesFrom4() ensures Pow2(3) == 8 && RowAgrees(Bayer8Row7, 3, 7, 4) {
    Bayer8Row7AgreesFrom6();
  }

  lemma Bayer8Row7AgreesFrom2() ensures Pow2(3) == 8 && RowAgrees(Bayer8Row7, 3, 7, 2) {
    Bayer8Row7AgreesFrom4();
  }

  lemma Bayer8Row7Agrees() ensures Pow2(3) == 8 && RowAgrees(Bayer8[7], 3, 7, 0) {
    Bayer8Row7AgreesFrom2();
    assert Bayer8[7] == Bayer8Row7;
  }

  lemma Bayer8RowAgrees(y: nat)
    requires y < 8
    ensures Pow2(3) == 8 && RowAgrees(Bayer8[y], 3, y, 0)
  {
    if y == 0 { Bayer8Row0Agrees(); }
    else if y == 1 { Bayer8Row1Agrees(); }
    else if y == 2 { Bayer8Row2Agrees(); }
    else if y == 3 { Bayer8Row3Agrees(); }
    else if y == 4 { Bayer8Row4Agrees(); }
    else if y == 5 { Bayer8Row5Agrees(); }
    else if y == 6 { Bayer8Row6Agrees(); }
    else { Bayer8Row7Agrees(); }
  }

  /** The literal tables are exactly the recursive Bayer construction. */
  lemma TablesFollowConstruction(n: MatrixSize, y: int, x: int)
    requires 0 <= y < n && 0 <= x < n
    ensures Pow2(Level(n)) == n
    ensures Cell(n, y, x) == Pattern(Level(n), y, x)
  {
    assert Pow2(1) == 2 && Pow2(2) == 4 && Pow2(3) == 8;
    if n == 2 {
      Bayer2Agrees();
      AgreesAt(Bayer2, 1, 0, y, x);
    } else if n == 4 {
      Bayer4Agrees();
      AgreesAt(Bayer4, 2, 0, y, x);
    } else {
      Bayer8RowAgrees(y);
      RowAgreesAt(Bayer8[y], 3, y, 0, x);
    }
  }

  /** The cell holding numerator k. */
  function CellOf(n: MatrixSize, k: int): (yx: (int, int))
    requires 0 <= k < n * n
    ensures 0 <= yx.0 < n && 0 <= yx.1 < n
    ensures Cell(n, yx.0, yx.1) == k
  {
    TablesFollowConstruction(n, 0, 0);
    CellsIsSquare(Level(n));
    var yx := Position(Level(n), k);
    TablesFollowConstruction(n, yx.0, yx.1);
    yx
  }

  /**
   * Each N×N table holds every numerator k in 0..N²−1 exactly once: all entries lie
   * in range and no two cells share a value (and `CellOf` finds a cell for every value).
   */
  lemma TableIsPermutation(n: MatrixSize)
    ensures forall y, x :: 0 <= y < n && 0 <= x < n ==> 0 <= Cell(n, y, x) < n * n
    ensures forall y1, x1, y2, x2 ::
      (0 <= y1 < n && 0 <= x1 < n && 0 <= y2 < n && 0 <= x2 < n && Cell(n, y1, x1) == Cell(n, y2, x2))
        ==> y1 == y2 && x1 == x2
  {
    TablesFollowConstruction(n, 0, 0);
    var level := Level(n);
    CellsIsSquare(level);
    forall y, x | 0 <= y < n && 0 <= x < n
      ensures 0 <= Cell(n, y, x) < n * n
    {
      TablesFollowConstruction(n, y, x);
      PatternRange(level, y, x);
    }
    forall y1, x1, y2, x2 | 0 <= y1 < n && 0 <= x1 < n && 0 <= y2 < n && 0 <= x2 < n && Cell(n, y1, x1) == Cell(n, y2, x2)
      ensures y1 == y2 && x1 == x2
    {
      TablesFollowConstruction(n, y1, x1);
      TablesFollowConstruction(n, y2, x2);
      PatternInjective(level, y1, x1, y2, x2);
    }
  }

  /** The cell value the dithering offset scales: k / N² − 0.5. */
  function Threshold(n: MatrixSize, row: int, col: int): (t: real)
    requires 0 <= row < n && 0 <= col < n
    ensures -0.5 <= t < 0.5
  {
    TableIsPermutation(n);
    Cell(n, row, col) as real / (n * n) as real - 0.5
  }

  /** A square matrix as the dithering loops index it: `values[row][col]`. */
  datatype Matrix = Matrix(size: MatrixSize, values: seq<seq<real>>)

  predicate Square(m: Matrix) {
    |m.values| == m.size && forall r :: 0 <= r < m.size ==> |m.values[r]| == m.size
  }

  /** Every cell lies in [−0.5, 0.5). */
  predicate Centred(m: Matrix)
    requires Square(m)
  {
    forall r, c :: 0 <= r < m.size && 0 <= c < m.size ==> -0.5 <= m.values[r][c] < 0.5
  }

  /** The worker's `getBayerMatrix`: cells stored already centred, k / N² − 0.5. */
  function CentredMatrix(n: MatrixSize): (m: Matrix)
    ensures m.size == n && Square(m)
  {
    Matrix(n, seq(n, r requires 0 <= r < n => seq(n, c requires 0 <= c < n => Threshold(n, r, c))))
  }

  /** The standalone module's `getBayerMatrix`: cells k / N², centred only when used. */
  function FractionMatrix(n: MatrixSize): (m: Matrix)
    ensures m.size == n && Square(m)
  {
    Matrix(n, seq(n, r requires 0 <= r < n => seq(n, c requires 0 <= c < n => Cell(n, r, c) as real / (n * n) as real)))
  }

  /** `c` holds the cells of `f` shifted down by 0.5. */
  predicate ShiftedByHalf(f: Matrix, c: Matrix)
    requires Square(f) && Square(c)
  {
    f.size == c.size &&
    forall r, col :: 0 <= r < f.size && 0 <= col < f.size ==> c.values[r][col] == f.values[r][col] - 0.5
  }

  /**
   * The worker's centred tables hold each numerator's threshold, all within
   * [−0.5, 0.5), and they are the standalone tables shifted down by 0.5.
   */
  lemma MatricesAgree(n: MatrixSize)
    ensures Centred(CentredMatrix(n))
    ensures forall r, c :: 0 <= r < n && 0 <= c < n ==> CentredMatrix(n).values[r][c] == Threshold(n, r, c)
    ensures ShiftedByHalf(FractionMatrix(n), CentredMatrix(n))
  {
  }
}
