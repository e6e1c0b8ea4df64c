/**
 * The older, grid-authoritative server design (server.go). Here the server
 * owns the whole game, clients send key presses, and every handler is a
 * closure executed by the single `mapManager` goroutine, so each handler
 * is one atomic transition.
 *
 * server.go does not compile as written. Among other things, it uses the
 * package `shared` without importing it and refers to a `shared.Jogo` that
 * shared/types.go does not declare; it names the player coordinates
 * `X`/`Y` in `Connect` and `SendInput` but `PosX`/`PosY` in
 * `jogoMoverPlayer`; and it reads `Simbolo`/`Tangivel` where types.go
 * declares `simbolo`/`tangivel`. The model follows the evident intent: one player
 * record of two coordinates and the element the player stands on (the
 * `PlayerState` of types.go), and one game record (the `Jogo` of types.go
 * plus the default spawn kept in package variables).
 */
module LegacyServer {
  import opened Wrappers
  import opened Elements
  import opened StatusBar
  import opened Grid
  import MapLoad

  /** A player: position and the element under it. */
  datatype Player = Player(x: int, y: int, ultimoVisitado: Elem)

  /** The server's game, with the default spawn read from the map. */
  datatype LegacyGame = LegacyGame(
    mapa: Mapa,
    players: map<int, Player>,
    statusMsg: Status,
    patoPosX: int,
    patoPosY: int,
    patoInteragiu: bool,
    patoUltimoVisitado: Elem,
    portalAtivo: bool,
    spawnX: int,
    spawnY: int)

  datatype ConnectReply = ConnectReply(playerID: int, initialState: LegacyGame)

  datatype SendInputArgs = SendInputArgs(playerID: int, input: string)

  /**
   * No handler can panic: every player's cell exists, and once anyone is
   * connected so does the spawn cell (a portal move lands there).
   */
  ghost predicate Wellformed(g: LegacyGame) {
    forall id :: id in g.players ==>
      InBounds(g.mapa, g.players[id].x, g.players[id].y) && InBounds(g.mapa, g.spawnX, g.spawnY)
  }

  /** `jogoNovo`: no grid and no players. */
  function New(): (g: LegacyGame)
    ensures g.mapa == [] && g.players == map[] && g.patoUltimoVisitado == Vazio
  {
    LegacyGame([], map[], Blank, 0, 0, false, Vazio, false, 0, 0)
  }

  /**
   * `jogoCarregarMapa` on the lines of the map file. The player glyph sets
   * the default spawn and leaves the cell empty: nobody stands there until
   * a client connects.
   */
  method LoadMap(g: LegacyGame, lines: seq<seq<char>>) returns (r: LegacyGame)
    ensures |r.mapa| == |g.mapa| + |lines| && r.mapa[..|g.mapa|] == g.mapa
    ensures forall y :: 0 <= y < |lines| ==> |r.mapa[|g.mapa| + y]| == |lines[y]|
    ensures forall y, x :: 0 <= y < |lines| && 0 <= x < |lines[y]| ==>
      r.mapa[|g.mapa| + y][x] == MapLoad.Classify(lines[y][x])
    ensures MapLoad.LastOccurrence(lines, Symbol(Personagem), Some(Pos(r.spawnX, r.spawnY)))
      || (MapLoad.LastOccurrence(lines, Symbol(Personagem), None) && r.spawnX == g.spawnX && r.spawnY == g.spawnY)
    ensures (MapLoad.LastOccurrence(lines, Symbol(Pato), Some(Pos(r.patoPosX, r.patoPosY))) && r.patoUltimoVisitado == Vazio)
      || (MapLoad.LastOccurrence(lines, Symbol(Pato), None)
          && (r.patoPosX, r.patoPosY, r.patoUltimoVisitado) == (g.patoPosX, g.patoPosY, g.patoUltimoVisitado))
    ensures r == g.(mapa := r.mapa, spawnX := r.spawnX, spawnY := r.spawnY,
                    patoPosX := r.patoPosX, patoPosY := r.patoPosY, patoUltimoVisitado := r.patoUltimoVisitado)
  {
    var scan := MapLoad.ScanMap(lines);
    r := g.(mapa := g.mapa + scan.cells);
    if scan.hero.Some? {
      r := r.(spawnX := scan.hero.value.x, spawnY := scan.hero.value.y);
    }
    if scan.duck.Some? {
      r := r.(patoPosX := scan.duck.value.x, patoPosY := scan.duck.value.y, patoUltimoVisitado := Vazio);
    }
  }

  /** Loaded into a new game, the spawn cell exists and is empty. */
  method LoadNewMap(lines: seq<seq<char>>) returns (r: LegacyGame)
    requires exists q :: MapLoad.At(lines, Symbol(Personagem), q)
    ensures Wellformed(r) && InBounds(r.mapa, r.spawnX, r.spawnY) && r.mapa[r.spawnY][r.spawnX] == Vazio
  {
    r := LoadMap(New(), lines);
    assert MapLoad.At(lines, Symbol(Personagem), Pos(r.spawnX, r.spawnY));
    MapLoad.ClassifyGlyphs(Personagem);
  }

  /** This server's `jogoPodeMoverPara`: bounds and tangibility only. */
  function CanMoveTo(g: LegacyGame, x: int, y: int): (ok: bool)
    ensures ok <==> (InBounds(g.mapa, x, y) && g.mapa[y][x] !in {Personagem, PersonagemRemoto, Inimigo, Parede, Pato})
  {
    InBounds(g.mapa, x, y) && (TangibleElements(g.mapa[y][x]); !Tangible(g.mapa[y][x]))
  }

  /**
   * Unlike the client's check, this one ignores the player table: whether
   * a cell can be entered depends on the grid alone.
   */
  lemma CanMoveToIgnoresPlayers(g: LegacyGame, others: map<int, Player>, x: int, y: int)
    ensures CanMoveTo(g.(players := others), x, y) == CanMoveTo(g, x, y)
    ensures InBounds(g.mapa, x, y) && g.mapa[y][x] in {Vazio, Vegetacao, Moeda, PortalAtivo} ==> CanMoveTo(g, x, y)
  {
  }

  /** Whether a move of player `id` by `(dx, dy)` touches only cells that exist. */
  ghost predicate MoveDefined(g: LegacyGame, id: int, dx: int, dy: int) {
    && id in g.players
    && InBounds(g.mapa, g.players[id].x, g.players[id].y)
    && InBounds(g.mapa, g.players[id].x + dx, g.players[id].y + dy)
    && InBounds(g.mapa, g.spawnX, g.spawnY)
  }

  /** The game with grid `m`, of the same shape, and player `id` now recorded as `q`, a cell of `m`. */
  function Relocate(g: LegacyGame, id: int, m: Mapa, q: Player): (r: LegacyGame)
    requires id in g.players && SameShape(g.mapa, m) && InBounds(m, q.x, q.y)
    ensures r == g.(mapa := m, players := g.players[id := q])
    ensures r.players.Keys == g.players.Keys
    ensures Wellformed(g) ==> Wellformed(r)
  {
    g.(mapa := m, players := g.players[id := q])
  }

  /**
   * `jogoMoverPlayer`: moves one player by `(dx, dy)`, dispatching on the
   * glyph of the target. A coin is consumed; an active portal is consumed
   * and the player lands on the default spawn. Returns the new game,
   * whether a teleport happened, and the status message for the reply.
   * Only the moving player's record is rewritten.
   */
  function MovePlayer(g: LegacyGame, id: int, dx: int, dy: int): (r: (LegacyGame, bool, Status))
    requires MoveDefined(g, id, dx, dy)
    ensures SameShape(g.mapa, r.0.mapa)
    ensures r.0.players.Keys == g.players.Keys && id in r.0.players
    ensures forall k :: k in g.players && k != id ==> r.0.players[k] == g.players[k]
    ensures r.0 == g.(mapa := r.0.mapa, players := r.0.players)
    ensures r.1 <==> g.mapa[g.players[id].y + dy][g.players[id].x + dx] == PortalAtivo
    ensures Wellformed(g) ==> Wellformed(r.0)
  {
    var p := g.players[id];
    var nx := p.x + dx;
    var ny := p.y + dy;
    var alvo := g.mapa[ny][nx];
    SymbolInjective(alvo, Moeda);
    SymbolInjective(alvo, PortalAtivo);
    if Symbol(alvo) == Symbol(Moeda) then
      var m := Set(Set(g.mapa, p.x, p.y, p.ultimoVisitado), nx, ny, Personagem);
      (Relocate(g, id, m, Player(nx, ny, Vazio)), false, CoinCollected)
    else if Symbol(alvo) == Symbol(PortalAtivo) then
      var m1 := Set(Set(g.mapa, p.x, p.y, p.ultimoVisitado), nx, ny, Vazio);
      var visitado := m1[g.spawnY][g.spawnX];
      var m2 := Set(m1, g.spawnX, g.spawnY, Personagem);
      (Relocate(g, id, m2, Player(g.spawnX, g.spawnY, visitado)), true, TeleportedTo(g.spawnX, g.spawnY))
    else
      var m := Set(Set(g.mapa, p.x, p.y, p.ultimoVisitado), nx, ny, Personagem);
      (Relocate(g, id, m, Player(nx, ny, alvo)), false, Blank)
  }

  /**
   * A move onto anything but a portal: the old cell gets back what the
   * player stood on, the target becomes `Personagem`, and the player now
   * stands on the target's former content (nothing, if it was a coin).
   */
  lemma MovePlayerStep(g: LegacyGame, id: int, dx: int, dy: int)
    requires MoveDefined(g, id, dx, dy) && (dx, dy) != (0, 0)
    requires g.mapa[g.players[id].y + dy][g.players[id].x + dx] != PortalAtivo
    ensures
      var p := g.players[id];
      var n := Pos(p.x + dx, p.y + dy);
      var alvo := g.mapa[n.y][n.x];
      var (g', teleported, status) := MovePlayer(g, id, dx, dy);
      && !teleported
      && g'.players[id] == Player(n.x, n.y, if alvo == Moeda then Vazio else alvo)
      && AgreeExcept(g.mapa, g'.mapa, {Pos(p.x, p.y), n})
      && g'.mapa[p.y][p.x] == p.ultimoVisitado
      && g'.mapa[n.y][n.x] == Personagem
      && status == (if alvo == Moeda then CoinCollected else Blank)
  {
    SymbolInjective(g.mapa[g.players[id].y + dy][g.players[id].x + dx], Moeda);
  }

  /**
   * A move onto an active portal: the portal is consumed, the player
   * lands on the default spawn, and the reply names the spawn.
   */
  lemma MovePlayerPortal(g: LegacyGame, id: int, dx: int, dy: int)
    requires MoveDefined(g, id, dx, dy)
    requires g.mapa[g.players[id].y + dy][g.players[id].x + dx] == PortalAtivo
    ensures
      var p := g.players[id];
      var n := Pos(p.x + dx, p.y + dy);
      var spawn := Pos(g.spawnX, g.spawnY);
      var (g', teleported, status) := MovePlayer(g, id, dx, dy);
      && teleported
      && (g'.players[id].x, g'.players[id].y) == (g.spawnX, g.spawnY)
      && AgreeExcept(g.mapa, g'.mapa, {Pos(p.x, p.y), n, spawn})
      && g'.mapa[g.spawnY][g.spawnX] == Personagem
      && (n != spawn ==> g'.mapa[n.y][n.x] == Vazio)
      && (Pos(p.x, p.y) != spawn && (dx, dy) != (0, 0) ==> g'.mapa[p.y][p.x] == p.ultimoVisitado)
      && g'.players[id].ultimoVisitado == (if spawn == n then Vazio
                                           else if spawn == Pos(p.x, p.y) then p.ultimoVisitado
                                           else g.mapa[g.spawnY][g.spawnX])
      && status == TeleportedTo(g.spawnX, g.spawnY)
  {
  }

  /** The player record a connecting client receives: the spawn, standing on an empty cell. */
  function Newcomer(g: LegacyGame): Player {
    Player(g.spawnX, g.spawnY, Vazio)
  }

  /**
   * `Connect` as written: the identifier is one more than the number of
   * live players, the player is placed at the spawn and the spawn cell
   * becomes `Personagem`; the reply carries a copy of the whole game.
   */
  function Connect(g: LegacyGame): (r: (LegacyGame, ConnectReply))
    requires InBounds(g.mapa, g.spawnX, g.spawnY)
    ensures r.1.playerID == |g.players| + 1
    ensures r.0.players == g.players[r.1.playerID := Newcomer(g)]
    ensures AgreeExcept(g.mapa, r.0.mapa, {Pos(g.spawnX, g.spawnY)})
    ensures r.0.mapa[g.spawnY][g.spawnX] == Personagem
    ensures r.0 == g.(mapa := r.0.mapa, players := r.0.players)
    ensures r.1.initialState == r.0
    ensures Wellformed(g) ==> Wellformed(r.0)
  {
    var newID := |g.players| + 1;
    var g' := g.(players := g.players[newID := Newcomer(g)],
                 mapa := Set(g.mapa, g.spawnX, g.spawnY, Personagem));
    (g', ConnectReply(newID, g'))
  }

  /**
   * The identifier of `Connect` can belong to a live player: two clients
   * connect (ids 1 and 2), the first quits, and the next client is given
   * id 2 again, overwriting the record of the player still connected.
   */
  lemma ConnectReusesLiveId()
    ensures
      var g0 := LegacyGame([[Vazio, Vazio]], map[], Blank, 0, 0, false, Vazio, false, 0, 0);
      var (g1, c1) := Connect(g0);
      var (g2, c2) := Connect(g1);
      var (g3, _) := SendInput(g2, SendInputArgs(c1.playerID, "quit"));
      var (g4, c4) := Connect(g3);
      && c1.playerID == 1 && c2.playerID == 2
      && c4.playerID == c2.playerID && c2.playerID in g3.players
  {
    var g0 := LegacyGame([[Vazio, Vazio]], map[], Blank, 0, 0, false, Vazio, false, 0, 0);
    var (g1, c1) := Connect(g0);
    var (g2, c2) := Connect(g1);
    var (g3, _) := SendInput(g2, SendInputArgs(c1.playerID, "quit"));
    assert g3.players == map[2 := Newcomer(g0)];
  }

  /** The least identifier from `id` upward that no live player holds. */
  function FreshFrom(used: set<int>, id: int): (r: int)
    ensures r >= id && r !in used
    decreases |set k | k in used && k >= id|
  {
    if id !in used then id
    else
      var above := set k | k in used && k >= id;
      var above' := set k | k in used && k >= id + 1;
      assert above == above' + {id};
      FreshFrom(used, id + 1)
  }

  /**
   * `Connect` with the evident intent: the same placement, but the
   * identifier is the first one from `len(Players)+1` upward that is not
   * in use, so it never names a live player.
   */
  function ConnectFresh(g: LegacyGame): (r: (LegacyGame, ConnectReply))
    requires InBounds(g.mapa, g.spawnX, g.spawnY)
    ensures r.1.playerID !in g.players && r.1.playerID >= 1
    ensures r.0.players == g.players[r.1.playerID := Newcomer(g)]
    ensures forall id :: id in g.players ==> id in r.0.players && r.0.players[id] == g.players[id]
    ensures AgreeExcept(g.mapa, r.0.mapa, {Pos(g.spawnX, g.spawnY)})
    ensures r.0.mapa[g.spawnY][g.spawnX] == Personagem
    ensures r.0 == g.(mapa := r.0.mapa, players := r.0.players)
    ensures r.1.initialState == r.0
    ensures Wellformed(g) ==> Wellformed(r.0)
  {
    var newID := FreshFrom(g.players.Keys, |g.players| + 1);
    var g' := g.(players := g.players[newID := Newcomer(g)],
                 mapa := Set(g.mapa, g.spawnX, g.spawnY, Personagem));
    (g', ConnectReply(newID, g'))
  }

  /**
   * The key-to-step table of `SendInput`: w is one row up, s one row down,
   * a one column left, d one column right; any other input is no step.
   */
  function Direction(input: string): (d: (int, int))
    ensures d != (0, 0) <==> input in {"w", "a", "s", "d"}
    ensures d != (0, 0) ==> (d.0 == 0) != (d.1 == 0) && -1 <= d.0 <= 1 && -1 <= d.1 <= 1
    ensures input == "w" ==> d == (0, -1)
    ensures input == "a" ==> d == (-1, 0)
    ensures input == "s" ==> d == (0, 1)
    ensures input == "d" ==> d == (1, 0)
  {
    if input == "w" then (0, -1)
    else if input == "a" then (-1, 0)
    else if input == "s" then (0, 1)
    else if input == "d" then (1, 0)
    else (0, 0)
  }

  /** The "quit" branch of `SendInput`: the player's cell gets back what it stood on. */
  function Quit(g: LegacyGame, id: int): (r: LegacyGame)
    requires Wellformed(g) && id in g.players
    ensures Wellformed(r)
    ensures r.players == g.players - {id}
    ensures r == g.(mapa := r.mapa, players := r.players)
    ensures AgreeExcept(g.mapa, r.mapa, {Pos(g.players[id].x, g.players[id].y)})
    ensures r.mapa[g.players[id].y][g.players[id].x] == g.players[id].ultimoVisitado
  {
    var p := g.players[id];
    g.(mapa := Set(g.mapa, p.x, p.y, p.ultimoVisitado), players := g.players - {id})
  }

  /** The key-press branch of `SendInput`, given the step the key maps to. */
  function Press(g: LegacyGame, id: int, d: (int, int)): (r: (LegacyGame, Status))
    requires Wellformed(g) && id in g.players
    ensures Wellformed(r.0)
    ensures
      var p := g.players[id];
      if d != (0, 0) && CanMoveTo(g, p.x + d.0, p.y + d.1) then
        r == (MovePlayer(g, id, d.0, d.1).0, MovePlayer(g, id, d.0, d.1).2)
      else
        r == (g, Blank)
  {
    var p := g.players[id];
    if d == (0, 0) then (g, Blank)
    else if CanMoveTo(g, p.x + d.0, p.y + d.1) then
      var m := MovePlayer(g, id, d.0, d.1);
      (m.0, m.2)
    else (g, Blank)
  }

  /**
   * `SendInput`: an unknown player changes nothing; "quit" puts back the
   * element under the player and removes it; a direction key moves the
   * player when this server's `jogoPodeMoverPara` allows; anything else
   * changes nothing. Returns the status message of the reply.
   */
  function SendInput(g: LegacyGame, a: SendInputArgs): (r: (LegacyGame, Status))
    requires Wellformed(g)
    ensures Wellformed(r.0)
    ensures a.playerID !in g.players ==> r == (g, Blank)
    ensures a.playerID in g.players && a.input == "quit" ==>
      var p := g.players[a.playerID];
      && r.1 == Blank
      && r.0 == g.(mapa := r.0.mapa, players := g.players - {a.playerID})
      && AgreeExcept(g.mapa, r.0.mapa, {Pos(p.x, p.y)})
      && r.0.mapa[p.y][p.x] == p.ultimoVisitado
    ensures a.playerID in g.players && a.input != "quit" ==>
      var p := g.players[a.playerID];
      var d := Direction(a.input);
      if d != (0, 0) && CanMoveTo(g, p.x + d.0, p.y + d.1) then
        r == (MovePlayer(g, a.playerID, d.0, d.1).0, MovePlayer(g, a.playerID, d.0, d.1).2)
      else
        r == (g, Blank)
  {
    if a.playerID !in g.players then (g, Blank)
    else if a.input == "quit" then (Quit(g, a.playerID), Blank)
    else Press(g, a.playerID, Direction(a.input))
  }

  /** Input for a game nobody has joined is accepted and ignored, whatever the map. */
  lemma SendInputToEmptyGame(g: LegacyGame, a: SendInputArgs)
    requires g.players == map[]
    ensures Wellformed(g) && SendInput(g, a) == (g, Blank)
  {
  }

  /** A move never lands on a tangible cell or leaves the grid. */
  lemma MoveLandsOnFreeCell(g: LegacyGame, a: SendInputArgs)
    requires Wellformed(g) && a.playerID in g.players && a.input in {"w", "a", "s", "d"}
    requires SendInput(g, a).0 != g
    ensures
      var p := g.players[a.playerID];
      var (dx, dy) := Direction(a.input);
      InBounds(g.mapa, p.x + dx, p.y + dy) && !Tangible(g.mapa[p.y + dy][p.x + dx])
  {
  }

  /** `GetState`: a copy of the whole game; nothing changes. */
  function GetState(g: LegacyGame): (r: (LegacyGame, LegacyGame))
    ensures r.0 == g && r.1 == g
  {
    (g, g)
  }
}
