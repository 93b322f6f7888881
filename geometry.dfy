/**
 * Integer pixel geometry shared by the grid and the tiles: the layout
 * constants, bounding rectangles and JavaScript's `Math.round` applied to a
 * quotient of pixels.
 */
module Geometry {

  /** A strictly positive pixel length (a cell width or a row height). */
  type PosInt = n: int | 0 < n witness 1

  /**
   * The layout constants the components import: the cell width in day view,
   * in week view and in hour view, and the height of one row.
   */
  datatype Layout = Layout(dayWidth: PosInt, weekWidth: PosInt, zoom2ColumnWidth: PosInt, boxHeight: PosInt)

  /** The parts of a bounding client rectangle the gestures read. */
  datatype Rect = Rect(left: int, top: int, right: int)

  function Min(a: int, b: int): int { if a <= b then a else b }

  function Max(a: int, b: int): int { if a >= b then a else b }

  function Abs(a: int): int { if a >= 0 then a else -a }

  /**
   * `Math.round(a / c)`: the integer nearest to a/c, halves rounded towards
   * +infinity. The contract pins the result down uniquely (see RoundUnique).
   */
  function JsRound(a: int, c: PosInt): (r: int)
    ensures 2 * r * c - c <= 2 * a < 2 * r * c + c
  {
    var q := (2 * a + c) / (2 * c);
    var m := (2 * a + c) % (2 * c);
    assert 2 * a + c == q * (2 * c) + m && 0 <= m < 2 * c;
    q
  }

  /** Any integer within half a cell of a/c (upper half excluded) is JsRound(a, c). */
  lemma RoundUnique(a: int, c: PosInt, r: int)
    requires 2 * r * c - c <= 2 * a < 2 * r * c + c
    ensures JsRound(a, c) == r
  {
    var q := JsRound(a, c);
    // 2*c*(q - r) lies strictly between -2*c and 2*c, so q == r
    assert 2 * c * (q - r) < 2 * c;
    assert 2 * c * (q - r) > -2 * c;
    if q > r {
      MulMonotone(2 * c, 1, q - r);
    } else if q < r {
      MulMonotone(2 * c, 1, r - q);
    }
  }

  /** Dividing an exact multiple of c by c rounds to the multiplier. */
  lemma RoundOfMultiple(k: int, c: PosInt)
    ensures JsRound(k * c, c) == k
  {
    RoundUnique(k * c, c, k);
  }

  lemma MulMonotone(c: PosInt, a: int, b: int)
    requires a <= b
    ensures c * a <= c * b
  {
  }
}
