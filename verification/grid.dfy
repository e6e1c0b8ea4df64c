/**
 * The game grid: a sequence of rows of elements. Rows may have different
 * lengths, because each row is one line of the map file.
 */
module Grid {
  import opened Elements

  datatype Pos = Pos(x: int, y: int)

  type Mapa = seq<seq<Elem>>

  /** `(x, y)` names a cell: row `y` exists and is long enough for column `x`. */
  predicate InBounds(m: Mapa, x: int, y: int) {
    0 <= y < |m| && 0 <= x < |m[y]|
  }

  /** Same number of rows, and each row has the same length. */
  ghost predicate SameShape(a: Mapa, b: Mapa) {
    |a| == |b| && forall y :: 0 <= y < |a| ==> |a[y]| == |b[y]|
  }

  /** `b` has the shape of `a` and agrees with it on every cell outside `cells`. */
  ghost predicate AgreeExcept(a: Mapa, b: Mapa, cells: set<Pos>) {
    && SameShape(a, b)
    && forall y, x :: 0 <= y < |a| && 0 <= x < |a[y]| && Pos(x, y) !in cells ==> b[y][x] == a[y][x]
  }

  /** The grid after the assignment `m[y][x] = e`. */
  function Set(m: Mapa, x: int, y: int, e: Elem): (r: Mapa)
    requires InBounds(m, x, y)
    ensures AgreeExcept(m, r, {Pos(x, y)})
    ensures r[y][x] == e
  {
    m[y := m[y][x := e]]
  }
}
