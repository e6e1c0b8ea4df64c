/**
 * Map loading, without the file I/O: the per-character classification that
 * both `jogoCarregarMapa` functions (client/jogo.go and server.go) apply to
 * the lines of the map file, and the positions they record while scanning.
 *
 * The scan visits the lines top to bottom and each line left to right,
 * overwriting the recorded position at every match, so the position kept
 * is the LAST occurrence in row-major order.
 */
module MapLoad {
  import opened Wrappers
  import opened Elements
  import opened Grid

  /**
   * The cell a map-file character becomes. Walls, enemies, vegetation and
   * the duck are recognised; the player glyph and every other character
   * (coins and portals included) leave the cell empty.
   */
  function Classify(ch: char): (e: Elem)
    ensures e in {Parede, Inimigo, Vegetacao, Pato, Vazio}
    ensures e != Vazio ==> Symbol(e) == ch
  {
    if ch == Symbol(Parede) then Parede
    else if ch == Symbol(Inimigo) then Inimigo
    else if ch == Symbol(Vegetacao) then Vegetacao
    else if ch == Symbol(Pato) then Pato
    else Vazio
  }

  /** Which glyphs survive loading and which become empty cells. */
  lemma ClassifyGlyphs(e: Elem)
    ensures e in {Parede, Inimigo, Vegetacao, Pato} ==> Classify(Symbol(e)) == e
    ensures e !in {Parede, Inimigo, Vegetacao, Pato} ==> Classify(Symbol(e)) == Vazio
  {
  }

  /** The result of scanning a map: the cells, and the last player and duck glyph positions. */
  datatype Scan = Scan(cells: Mapa, hero: Option<Pos>, duck: Option<Pos>)

  ghost predicate At(lines: seq<seq<char>>, ch: char, p: Pos) {
    0 <= p.y < |lines| && 0 <= p.x < |lines[p.y]| && lines[p.y][p.x] == ch
  }

  /** Row-major order on positions: `a` is scanned strictly before `b`. */
  ghost predicate ScannedBefore(a: Pos, b: Pos) {
    a.y < b.y || (a.y == b.y && a.x < b.x)
  }

  /** `r` is the last occurrence of `ch` scanned before `bound`, or `None` if there is none. */
  ghost predicate LastBefore(lines: seq<seq<char>>, ch: char, r: Option<Pos>, bound: Pos) {
    match r
    case Some(p) =>
      && At(lines, ch, p) && ScannedBefore(p, bound)
      && forall q :: At(lines, ch, q) && ScannedBefore(q, bound) ==> q == p || ScannedBefore(q, p)
    case None =>
      forall q :: At(lines, ch, q) ==> !ScannedBefore(q, bound)
  }

  /** `r` is the last occurrence of `ch` in the whole map, or `None` if `ch` does not occur. */
  ghost predicate LastOccurrence(lines: seq<seq<char>>, ch: char, r: Option<Pos>) {
    match r
    case Some(p) => At(lines, ch, p) && forall q :: At(lines, ch, q) ==> q == p || ScannedBefore(q, p)
    case None => forall q :: !At(lines, ch, q)
  }

  /** Moving the bound from just past the end of row `y` to the start of row `y + 1` adds no position. */
  lemma NextRow(lines: seq<seq<char>>, ch: char, r: Option<Pos>, y: int)
    requires 0 <= y < |lines|
    requires LastBefore(lines, ch, r, Pos(|lines[y]|, y))
    ensures LastBefore(lines, ch, r, Pos(0, y + 1))
  {
  }

  /** Past the last row, "last before the bound" is "last in the map". */
  lemma EndOfMap(lines: seq<seq<char>>, ch: char, r: Option<Pos>)
    requires LastBefore(lines, ch, r, Pos(0, |lines|))
    ensures LastOccurrence(lines, ch, r)
  {
  }

  /** One step of the scan within a row: the recorded position is replaced on a match. */
  lemma ScanCell(lines: seq<seq<char>>, ch: char, r: Option<Pos>, x: int, y: int)
    requires 0 <= y < |lines| && 0 <= x < |lines[y]|
    requires LastBefore(lines, ch, r, Pos(x, y))
    ensures LastBefore(lines, ch, if lines[y][x] == ch then Some(Pos(x, y)) else r, Pos(x + 1, y))
  {
  }

  /**
   * One line of the scan: its cells, and the recorded player and duck
   * positions carried from the start of row `y` to its end.
   */
  method ScanRow(lines: seq<seq<char>>, y: int, hero: Option<Pos>, duck: Option<Pos>)
    returns (row: seq<Elem>, hero': Option<Pos>, duck': Option<Pos>)
    requires 0 <= y < |lines|
    requires LastBefore(lines, Symbol(Personagem), hero, Pos(0, y))
    requires LastBefore(lines, Symbol(Pato), duck, Pos(0, y))
    ensures |row| == |lines[y]|
    ensures forall i :: 0 <= i < |row| ==> row[i] == Classify(lines[y][i])
    ensures LastBefore(lines, Symbol(Personagem), hero', Pos(0, y + 1))
    ensures LastBefore(lines, Symbol(Pato), duck', Pos(0, y + 1))
  {
    row, hero', duck' := [], hero, duck;
    var line := lines[y];
    var x := 0;
    while x < |line|
      invariant 0 <= x <= |line|
      invariant |row| == x
      invariant forall i :: 0 <= i < x ==> row[i] == Classify(line[i])
      invariant LastBefore(lines, Symbol(Personagem), hero', Pos(x, y))
      invariant LastBefore(lines, Symbol(Pato), duck', Pos(x, y))
    {
      var ch := line[x];
      ScanCell(lines, Symbol(Personagem), hero', x, y);
      ScanCell(lines, Symbol(Pato), duck', x, y);
      if ch == Symbol(Personagem) {
        hero' := Some(Pos(x, y));
      } else if ch == Symbol(Pato) {
        duck' := Some(Pos(x, y));
      }
      row := row + [Classify(ch)];
      x := x + 1;
    }
    NextRow(lines, Symbol(Personagem), hero', y);
    NextRow(lines, Symbol(Pato), duck', y);
  }

  /** Classifies every character and records the last player and duck glyphs. */
  method ScanMap(lines: seq<seq<char>>) returns (s: Scan)
    ensures |s.cells| == |lines|
    ensures forall y :: 0 <= y < |lines| ==> |s.cells[y]| == |lines[y]|
    ensures forall y, x :: 0 <= y < |lines| && 0 <= x < |lines[y]| ==> s.cells[y][x] == Classify(lines[y][x])
    ensures LastOccurrence(lines, Symbol(Personagem), s.hero)
    ensures LastOccurrence(lines, Symbol(Pato), s.duck)
  {
    var cells: Mapa := [];
    var hero: Option<Pos> := None;
    var duck: Option<Pos> := None;
    var y := 0;
    while y < |lines|
      invariant 0 <= y <= |lines|
      invariant |cells| == y
      invariant forall j :: 0 <= j < y ==> |cells[j]| == |lines[j]|
      invariant forall j, i :: 0 <= j < y && 0 <= i < |lines[j]| ==> cells[j][i] == Classify(lines[j][i])
      invariant LastBefore(lines, Symbol(Personagem), hero, Pos(0, y))
      invariant LastBefore(lines, Symbol(Pato), duck, Pos(0, y))
    {
      var row;
      row, hero, duck := ScanRow(lines, y, hero, duck);
      cells := cells + [row];
      y := y + 1;
    }
    EndOfMap(lines, Symbol(Personagem), hero);
    EndOfMap(lines, Symbol(Pato), duck);
    s := Scan(cells, hero, duck);
  }
}
