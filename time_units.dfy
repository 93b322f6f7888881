/**
 * The calendar units the zoom levels map to, with dates counted in whole hours
 * since an arbitrary epoch. Adding n units is then linear in n.
 */
module TimeUnits {

  import opened Geometry

  datatype TimeUnit = Hours | Days | Weeks

  /** What a zoom level means on the time axis: pixels per cell and the unit of one cell. */
  datatype CellSpec = CellSpec(cellWidth: PosInt, unit: TimeUnit)

  /** A date/time as a whole number of hours. */
  type Date = int

  /** Length of one unit, in hours. */
  function UnitHours(u: TimeUnit): (h: int)
    ensures h > 0
    ensures u == Hours ==> h == 1
  {
    match u
    case Hours => 1
    case Days => 24
    case Weeks => 168
  }

  /** `dayjs(d).add(n, unit)`. */
  function AddUnits(d: Date, n: int, u: TimeUnit): (r: Date)
    ensures n == 0 <==> r == d
    ensures n > 0 <==> r > d
  {
    PosMulSign(UnitHours(u), n);
    d + n * UnitHours(u)
  }

  /** Adding m units and then n units is adding m + n units. */
  lemma AddUnitsAdditive(d: Date, m: int, n: int, u: TimeUnit)
    ensures AddUnits(AddUnits(d, m, u), n, u) == AddUnits(d, m + n, u)
  {
    var h := UnitHours(u);
    assert m * h + n * h == (m + n) * h;
  }

  /** Adding units preserves and reflects the order of the unit counts. */
  lemma AddUnitsMonotone(d: Date, m: int, n: int, u: TimeUnit)
    ensures m <= n <==> AddUnits(d, m, u) <= AddUnits(d, n, u)
  {
    var h := UnitHours(u);
    PosMulSign(h, n - m);
    assert (n - m) * h == n * h - m * h;
  }

  /** The distance between two sums is the difference of the unit counts. */
  lemma AddUnitsDistance(d: Date, m: int, n: int, u: TimeUnit)
    ensures AddUnits(d, n, u) - AddUnits(d, m, u) == (n - m) * UnitHours(u)
  {
    var h := UnitHours(u);
    assert (n - m) * h == n * h - m * h;
  }

  lemma PosMulSign(h: int, n: int)
    requires h > 0
    ensures n == 0 <==> n * h == 0
    ensures n > 0 <==> n * h > 0
  {
    if n > 0 {
      PosMul(h, n);
    } else if n < 0 {
      PosMul(h, -n);
      assert n * h == -((-n) * h);
    }
  }

  lemma PosMul(h: int, n: int)
    requires h > 0 && n > 0
    ensures n * h > 0
  {
  }
}
