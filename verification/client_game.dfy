/**
 * The client's local game (client/jogo.go and client/types.go): the grid,
 * the local player's own position and the cell it stands on, and the
 * mirrored player table. The commands `mapManager` receives are modelled
 * as a fold; the input loop's own moves and the initial table are applied
 * directly by their callers.
 */
module ClientGame {
  import opened Wrappers
  import opened Elements
  import opened StatusBar
  import opened Grid
  import opened Wire
  import MapLoad

  /**
   * The client `Jogo`. The local position and `ultimoVisitado` are kept
   * apart from `players`, which mirrors the server's table.
   */
  datatype Game = Game(
    mapa: Mapa,
    posX: int,
    posY: int,
    ultimoVisitado: Elem,
    statusMsg: Status,
    patoPosX: int,
    patoPosY: int,
    patoInteragiu: bool,
    patoUltimoVisitado: Elem,
    portalAtivo: bool,
    players: map<int, PlayerState>)

  /** A new game: empty grid, empty table, and the player and duck standing on empty cells. */
  function New(): (g: Game)
    ensures g.mapa == [] && g.players == map[]
    ensures g.ultimoVisitado == Vazio && g.patoUltimoVisitado == Vazio
  {
    Game([], 0, 0, Vazio, Blank, 0, 0, false, Vazio, false, map[])
  }

  /**
   * `jogoCarregarMapa` on the lines of the map file: one row per line
   * appended to the grid, the player glyph recorded as the local position
   * (its cell stays empty), the duck glyph recorded as the duck position.
   * Row numbers count from 0 within `lines`, as in the source.
   */
  method LoadMap(g: Game, lines: seq<seq<char>>) returns (r: Game)
    ensures |r.mapa| == |g.mapa| + |lines| && r.mapa[..|g.mapa|] == g.mapa
    ensures forall y :: 0 <= y < |lines| ==> |r.mapa[|g.mapa| + y]| == |lines[y]|
    ensures forall y, x :: 0 <= y < |lines| && 0 <= x < |lines[y]| ==>
      r.mapa[|g.mapa| + y][x] == MapLoad.Classify(lines[y][x])
    ensures MapLoad.LastOccurrence(lines, Symbol(Personagem), Some(Pos(r.posX, r.posY)))
      || (MapLoad.LastOccurrence(lines, Symbol(Personagem), None) && r.posX == g.posX && r.posY == g.posY)
    ensures (MapLoad.LastOccurrence(lines, Symbol(Pato), Some(Pos(r.patoPosX, r.patoPosY))) && r.patoUltimoVisitado == Vazio)
      || (MapLoad.LastOccurrence(lines, Symbol(Pato), None) && r == g.(mapa := r.mapa, posX := r.posX, posY := r.posY))
    ensures r.players == g.players && r.ultimoVisitado == g.ultimoVisitado
    ensures (r.statusMsg, r.patoInteragiu, r.portalAtivo) == (g.statusMsg, g.patoInteragiu, g.portalAtivo)
  {
    var scan := MapLoad.ScanMap(lines);
    r := g.(mapa := g.mapa + scan.cells);
    if scan.hero.Some? {
      r := r.(posX := scan.hero.value.x, posY := scan.hero.value.y);
    }
    if scan.duck.Some? {
      r := r.(patoPosX := scan.duck.value.x, patoPosY := scan.duck.value.y, patoUltimoVisitado := Vazio);
    }
  }

  /** Loaded into a new game, the player's starting cell exists and is empty. */
  method LoadNewMap(lines: seq<seq<char>>) returns (r: Game)
    requires exists q :: MapLoad.At(lines, Symbol(Personagem), q)
    ensures InBounds(r.mapa, r.posX, r.posY) && r.mapa[r.posY][r.posX] == Vazio
    ensures r.ultimoVisitado == Vazio && r.players == map[]
  {
    r := LoadMap(New(), lines);
    assert MapLoad.At(lines, Symbol(Personagem), Pos(r.posX, r.posY));
    MapLoad.ClassifyGlyphs(Personagem);
  }

  /** Some entry of the table stands at `(x, y)`. */
  ghost predicate Occupied(players: map<int, PlayerState>, x: int, y: int) {
    exists id :: id in players && players[id] == PlayerState(x, y)
  }

  /** Set extensionality, which lets the table scan pick a key from a non-empty set. */
  lemma NoMemberIsEmpty(s: set<int>)
    ensures (forall z :: z !in s) ==> s == {}
  {
    if forall z :: z !in s {
      assert s == {};
    }
  }

  /**
   * `jogoPodeMoverPara`: the cell must exist (rows may be ragged), must not
   * be tangible, and no entry of the player table may stand on it.
   */
  method CanMoveTo(g: Game, x: int, y: int) returns (ok: bool)
    ensures !InBounds(g.mapa, x, y) ==> !ok
    ensures InBounds(g.mapa, x, y) && Tangible(g.mapa[y][x]) ==> !ok
    ensures Occupied(g.players, x, y) ==> !ok
    ensures InBounds(g.mapa, x, y) && !Tangible(g.mapa[y][x]) && !Occupied(g.players, x, y) ==> ok
  {
    if y < 0 || y >= |g.mapa| || x < 0 || x >= |g.mapa[y]| {
      return false;
    }
    if Tangible(g.mapa[y][x]) {
      return false;
    }
    var unseen := g.players.Keys;
    while unseen != {}
      invariant unseen <= g.players.Keys
      invariant forall k :: k in g.players && k !in unseen ==> g.players[k] != PlayerState(x, y)
      decreases |unseen|
    {
      NoMemberIsEmpty(unseen);
      var id :| id in unseen;
      if g.players[id].posX == x && g.players[id].posY == y {
        return false;
      }
      unseen := unseen - {id};
    }
    return true;
  }

  /** The cells a move touches exist, and so does the teleport destination when the target is a portal. */
  predicate MoveDefined(g: Game, x: int, y: int, dx: int, dy: int, dest: Pos) {
    && InBounds(g.mapa, x, y)
    && InBounds(g.mapa, x + dx, y + dy)
    && (g.mapa[y + dy][x + dx] == PortalAtivo ==> InBounds(g.mapa, dest.x, dest.y))
  }

  /**
   * `jogoMoverElemento`: moves the element at `(x, y)` by `(dx, dy)`
   * through the "last visited" cell, dispatching on the glyph of the
   * target. A coin is consumed; an active portal is consumed and the
   * element lands on `dest` (the teleport destination, an input here).
   * Returns whether a teleport happened. Only the teleport updates the
   * local position; for the other moves the caller does.
   */
  function MoveElement(g: Game, x: int, y: int, dx: int, dy: int, dest: Pos): (r: (Game, bool))
    requires MoveDefined(g, x, y, dx, dy, dest)
    ensures SameShape(g.mapa, r.0.mapa)
    ensures r.0.players == g.players && r.0.portalAtivo == g.portalAtivo
    ensures r.1 <==> g.mapa[y + dy][x + dx] == PortalAtivo
    ensures r.0.patoInteragiu == (g.patoInteragiu || r.1)
    ensures (r.0.patoPosX, r.0.patoPosY, r.0.patoUltimoVisitado) == (g.patoPosX, g.patoPosY, g.patoUltimoVisitado)
    ensures !r.1 ==> r.0.statusMsg == g.statusMsg
    // the coin move
    ensures g.mapa[y + dy][x + dx] == Moeda ==>
      && r.0.mapa[y + dy][x + dx] == g.mapa[y][x]
      && r.0.ultimoVisitado == Vazio
      && (r.0.posX, r.0.posY) == (g.posX, g.posY)
      && AgreeExcept(g.mapa, r.0.mapa, {Pos(x, y), Pos(x + dx, y + dy)})
      && ((dx, dy) != (0, 0) ==> r.0.mapa[y][x] == g.ultimoVisitado)
    // the portal move
    ensures g.mapa[y + dy][x + dx] == PortalAtivo ==>
      && r.0.mapa[dest.y][dest.x] == g.mapa[y][x]
      && (dest != Pos(x + dx, y + dy) ==> r.0.mapa[y + dy][x + dx] == Vazio)
      && (dest != Pos(x, y) && (dx, dy) != (0, 0) ==> r.0.mapa[y][x] == g.ultimoVisitado)
      && r.0.ultimoVisitado == (if dest == Pos(x + dx, y + dy) then Vazio
                                else if dest == Pos(x, y) then g.ultimoVisitado
                                else g.mapa[dest.y][dest.x])
      && (r.0.posX, r.0.posY) == (dest.x, dest.y)
      && r.0.statusMsg == TeleportedTo(dest.x, dest.y)
      && AgreeExcept(g.mapa, r.0.mapa, {Pos(x, y), Pos(x + dx, y + dy), dest})
    // any other target
    ensures g.mapa[y + dy][x + dx] !in {Moeda, PortalAtivo} ==>
      && r.0.mapa[y + dy][x + dx] == g.mapa[y][x]
      && r.0.ultimoVisitado == (if (dx, dy) == (0, 0) then g.ultimoVisitado else g.mapa[y + dy][x + dx])
      && (r.0.posX, r.0.posY) == (g.posX, g.posY)
      && AgreeExcept(g.mapa, r.0.mapa, {Pos(x, y), Pos(x + dx, y + dy)})
      && ((dx, dy) != (0, 0) ==> r.0.mapa[y][x] == g.ultimoVisitado)
  {
    var nx := x + dx;
    var ny := y + dy;
    var elemento := g.mapa[y][x];
    var alvo := g.mapa[ny][nx];
    SymbolInjective(alvo, Moeda);
    SymbolInjective(alvo, PortalAtivo);
    if Symbol(alvo) == Symbol(Moeda) then
      var m1 := Set(g.mapa, x, y, g.ultimoVisitado);
      var m2 := Set(m1, nx, ny, elemento);
      (g.(mapa := m2, ultimoVisitado := Vazio), false)
    else if Symbol(alvo) == Symbol(PortalAtivo) then
      var m1 := Set(g.mapa, x, y, g.ultimoVisitado);
      var m2 := Set(m1, nx, ny, Vazio);
      var visitado := m2[dest.y][dest.x];
      var m3 := Set(m2, dest.x, dest.y, elemento);
      (g.(mapa := m3, ultimoVisitado := visitado, posX := dest.x, posY := dest.y,
          patoInteragiu := true, statusMsg := TeleportedTo(dest.x, dest.y)), true)
    else
      var m1 := Set(g.mapa, x, y, g.ultimoVisitado);
      var visitado := m1[ny][nx];
      (g.(mapa := Set(m1, nx, ny, elemento), ultimoVisitado := visitado), false)
  }

  /**
   * The units of work `mapManager` executes: the reconciler's table
   * replacement, and an element move.
   */
  datatype MapCmd =
    | ReplacePlayers(players: map<int, PlayerState>)
    | Move(x: int, y: int, dx: int, dy: int, dest: Pos)

  /**
   * One command. A move on cells that do not exist is an index-out-of-range
   * panic in the source; it is `None` here.
   */
  function Apply(g: Game, cmd: MapCmd): (r: Option<Game>)
    ensures cmd.ReplacePlayers? ==> r == Some(g.(players := cmd.players))
    ensures r.None? <==> cmd.Move? && !MoveDefined(g, cmd.x, cmd.y, cmd.dx, cmd.dy, cmd.dest)
    ensures r.Some? ==> SameShape(g.mapa, r.value.mapa)
  {
    match cmd
    case ReplacePlayers(p) => Some(g.(players := p))
    case Move(x, y, dx, dy, dest) =>
      if MoveDefined(g, x, y, dx, dy, dest) then Some(MoveElement(g, x, y, dx, dy, dest).0) else None
  }

  /** `mapManager`: the commands executed one at a time, in the order received. */
  function RunMapManager(g: Game, cmds: seq<MapCmd>): (r: Option<Game>)
    ensures cmds == [] ==> r == Some(g)
    ensures (forall i :: 0 <= i < |cmds| ==> cmds[i].ReplacePlayers?) ==>
      r.Some? && r.value == g.(players := r.value.players)
    decreases |cmds|
  {
    if cmds == [] then Some(g)
    else
      match Apply(g, cmds[0])
      case None => None
      case Some(g1) => RunMapManager(g1, cmds[1..])
  }

  /** FIFO composition: executing `a + b` is executing `a` and then `b`. */
  lemma {:induction false} RunMapManagerConcat(g: Game, a: seq<MapCmd>, b: seq<MapCmd>)
    ensures RunMapManager(g, a + b) ==
      (match RunMapManager(g, a)
       case None => None
       case Some(h) => RunMapManager(h, b))
    decreases |a|
  {
    if a == [] {
      assert a + b == b;
    } else {
      assert (a + b)[1..] == a[1..] + b;
      match Apply(g, a[0])
      case None =>
      case Some(g1) => RunMapManagerConcat(g1, a[1..], b);
    }
  }

  /** No sequence of commands changes the number of rows or any row's length. */
  lemma {:induction false} RunMapManagerKeepsShape(g: Game, cmds: seq<MapCmd>)
    ensures RunMapManager(g, cmds).Some? ==> SameShape(g.mapa, RunMapManager(g, cmds).value.mapa)
    decreases |cmds|
  {
    if cmds != [] {
      match Apply(g, cmds[0])
      case None =>
      case Some(g1) => RunMapManagerKeepsShape(g1, cmds[1..]);
    }
  }

  /** After a run that ends with a table replacement, the table is that replacement. */
  lemma LastReplacementWins(g: Game, cmds: seq<MapCmd>, p: map<int, PlayerState>)
    requires RunMapManager(g, cmds).Some?
    ensures RunMapManager(g, cmds + [ReplacePlayers(p)]) == Some(RunMapManager(g, cmds).value.(players := p))
  {
    RunMapManagerConcat(g, cmds, [ReplacePlayers(p)]);
  }
}
