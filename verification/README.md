# Position synchronisation and grid movement of a multiplayer terminal game

This project models the core of a small Go multiplayer game in Dafny. Clients move a character on a text grid. They report their positions to a server, and the server keeps the authoritative player table. The model covers:

- **the authoritative server** (`server/main.go`). It holds the player table, a last-accepted sequence number per player and an identifier counter. It answers `Connect`, `UpdateState`, `GetState` and `Disconnect`. Each handler holds the server mutex for its whole body, so each is one atomic state transition (`Server.Step`). A history of calls is a fold (`Server.Run`). The sequence guard (`Server.Admits`) silently drops commands for unknown players and commands whose number is not above the last one accepted. This gives at-most-once application over retried calls.
- **the client's side of the protocol** (`client/main.go`): the command counter, the three-attempt retry wrapper, the update and disconnect commands, the change detection of the input loop, and the reconciler that replaces the local table with the server's.
- **the client's grid** (`client/jogo.go`, `client/types.go`): map classification, the move check, the element move with its coin and portal cases, and `mapManager` as a FIFO fold over the commands it executes.
- **the older grid-authoritative server** (`server.go`, `types.go`). Here clients send key presses and the server moves players on its own grid.
- **the element tables and wire records** (`types.go`, `client/types.go`, `shared/types.go`).

Modules: `Wrappers` (Option), `Elements`, `StatusBar`, `Wire`, `Grid`, `MapLoad`, `Server`, `ClientGame`, `ClientSync`, `LegacyServer`.

Facts about the code that shape the model:

- `server/main.go` has no actor goroutine. Each handler locks the one server mutex `mu` on entry and releases it on return (server/main.go:27-28, 52-53, 80-81, 96-97). Handlers therefore run one at a time, and each is modelled as one atomic transition.
- The client's reconciler makes a single `GetState` call under `rpcMu`, with no retry (client/main.go:176-190). `ClientSync.Reconcile` therefore takes one call outcome.
- The client's `mapManager` simply returns when `gameOverChannel` fires (client/jogo.go:125-134). Nothing is rejected afterwards, and shutdown is not modelled.
- `server.go` does not compile. Among the reasons:
  - it uses the package `shared` but never imports it (server.go:3-11), and `shared.Jogo` does not exist in shared/types.go;
  - the player coordinates are called `X`/`Y` at server.go:41-53, 76 and 99, but `PosX`/`PosY` at server.go:226-259;
  - it reads `Simbolo` and `Tangivel` (server.go:188-198, 216), while types.go declares `simbolo` and `tangivel`;
  - `jogoMoverPlayer` takes a `*Jogo` (server.go:223) but is passed a `*shared.Jogo` (server.go:100).

  The model uses one player record `(x, y, ultimoVisitado)`. The default spawn, which the source keeps in package variables, becomes two fields of the game record.

## Model

| member | source | states |
|---|---|---|
| Elements.SymbolInjective | types.go:11-19 | two elements have the same glyph only if they are the same element, so a switch on `simbolo` selects one element |
| Elements.TangibleElements | types.go:11-19 | exactly Personagem, PersonagemRemoto, Inimigo, Parede and Pato block passage; the inactive portal (the empty cell) does not |
| Elements.RemoteCharacterDistinct | client/types.go:16-17 | the remote-player element blocks like the local one and has a different glyph |
| MapLoad.Classify | client/jogo.go:44-63 | a map character becomes a wall, enemy, vegetation, duck or empty cell, and a non-empty cell always carries the character's own glyph |
| MapLoad.ClassifyGlyphs | server.go:185-203 | wall, enemy, vegetation and duck glyphs load as themselves; every other glyph, including the player, coin and portal, loads as an empty cell |
| MapLoad.ScanRow | client/jogo.go:43-65 | one line's cells are the classification of its characters, and the recorded player and duck positions move from the last occurrence before the line to the last occurrence through its end |
| MapLoad.ScanMap | client/jogo.go:40-67 | one row per line and one cell per character, each cell the classification of its character; the player and duck positions kept are the last occurrences in row-major order, or none if the glyph is absent |
| Server.Init | server/main.go:118-122 | the starting server has no players, next identifier 1, and satisfies the invariant (same keys in both maps, live ids in `[1, nextID)`, records non-negative) |
| Server.Connect | server/main.go:26-48 | returns the old counter value and raises the counter; the new player is at (1, 1) with record 0; the reply is the whole table including the newcomer; the invariant is kept and the id was not live |
| Server.UpdateState | server/main.go:51-76 | an unknown player or a number not above the record leaves the state unchanged; otherwise the position is overwritten without any check and the record becomes the number, all other entries unchanged; the invariant is kept |
| Server.GetState | server/main.go:79-92 | the reply equals the table and the state is unchanged |
| Server.Disconnect | server/main.go:95-115 | dropped under the same guard as updates; when admitted, the player leaves both the table and the record map, nothing else changes, and the invariant is kept |
| Server.UpdateIdempotent | server/main.go:61-67 | delivering the same update twice equals delivering it once |
| Server.DisconnectIdempotent | server/main.go:102-113 | a repeated disconnect equals a single one |
| Server.OutOfOrderDropped | server/main.go:64-67 | after an update with number n, an update for the same player with a number at most n is dropped, whatever the first one's fate |
| Server.UpdatesOfDistinctPlayersCommute | server/main.go:70-74 | updates of different players commute |
| Server.LateRetryAfterDisconnect | server/main.go:55-59 | an update arriving after its player's admitted disconnect is dropped |
| Server.Admits | server/main.go:55-67 | a command is applied only if its number is above the player's record; under the invariant an admitted command names a live player |
| Server.Run | server/main.go:26-115 | one response per call; the identifier counter never goes down, and stays put over a history without Connect calls |
| Server.Step | server/main.go:26-115 | each handler keeps the invariant and never lowers the counter; exactly the Connect call gets a connect reply |
| Server.RunPreservesValid | server/main.go:35-36 | every history of calls keeps both maps on the same keys, and the rest of the invariant |
| Server.RunConcat | server/main.go:27-28 | running two histories one after the other is running their concatenation, with the responses concatenated |
| Server.RemovedIdNeverReturns | server/main.go:30-31 | an identifier already issued that is no longer live never becomes live again |
| Server.SeqNumsNeverDecrease | server/main.go:64-70 | over any history, a live player's sequence record never decreases |
| Server.ConnectMany | server/main.go:30-31 | n connections receive the ids nextID, nextID+1, ..., nextID+n-1 and raise the counter by n |
| Server.UniqueIds | server/main.go:30-36 | n connections receive n distinct ids, none of them already live |
| Server.Scenario | server/main.go:30-113 | connect gives id 1 and table {1:(1,1)}; update (1,5,7,#1) gives {1:(5,7)}; replaying it changes nothing; disconnect #2 empties the table |
| ClientGame.New | client/jogo.go:21-28 | a new game has an empty grid and table, and the player and duck stand on empty cells |
| ClientGame.LoadMap | client/jogo.go:31-67 | appends one classified row per line; the local position becomes the last player glyph (unchanged if none); the duck position becomes the last duck glyph, whose cell remembers an empty cell (unchanged if none); the table, the status message, the duck's interaction flag and the portal flag are untouched |
| ClientGame.LoadNewMap | client/jogo.go:53-55 | loaded into a new game, the player's recorded start cell exists and is empty |
| ClientGame.CanMoveTo | client/jogo.go:70-85 | false outside the grid (ragged rows included), false on a tangible cell, false when any table entry stands there, true otherwise |
| ClientGame.MoveElement | client/jogo.go:89-122 | the grid shape is kept; a coin is consumed (last visited becomes empty); a portal is consumed, the element lands on the destination and the result is true; otherwise the source gets the old last-visited element, last visited becomes the target's content and the target gets the element; only the touched cells change; the duck is marked as having interacted exactly when a teleport happened, the duck's position is untouched, and the status message changes only on a teleport |
| ClientGame.RunMapManager | client/jogo.go:125-134 | no commands leave the game as it is; a run of table replacements never panics and changes nothing but the table |
| ClientGame.Apply | client/jogo.go:128-129 | a table replacement sets the table; a move panics exactly when it touches a missing cell; the grid shape is kept |
| ClientGame.RunMapManagerConcat | client/jogo.go:125-134 | executing two command lists one after the other is executing their concatenation (FIFO, no interleaving) |
| ClientGame.RunMapManagerKeepsShape | client/jogo.go:96-119 | no command sequence changes the row count or any row length |
| ClientGame.LastReplacementWins | client/main.go:182-184 | after a table replacement the local table is the replacement, everything else as before it |
| ClientSync.NextSequenceNumber | client/main.go:25-30 | the number issued is above every earlier one and becomes the last issued |
| ClientSync.FirstSequenceNumberIsOne | client/main.go:21-30 | a fresh counter issues 1 first |
| ClientSync.CallWithRetry | client/main.go:32-59 | 1 to 3 attempts, all with the same arguments; all attempts but the last failed; success exactly when the last attempt succeeded; failure only after 3 attempts, then a normal return |
| ClientSync.AlwaysFailingEndpoint | client/main.go:37-58 | against an endpoint that always fails, exactly 3 attempts are made |
| ClientSync.Start | client/main.go:76-96 | the connected client takes its id and table from the Connect reply and starts its counter at 0; the loaded game's grid, position and every other field are kept |
| ClientSync.UpdateServerMyState | client/main.go:136-147 | the update carries the client's id, its current local position and a fresh number |
| ClientSync.NotifyDisconnect | client/main.go:149-160 | the disconnect carries the client's id and a fresh number |
| ClientSync.InputStep | client/main.go:116-127 | an update is issued exactly when the action changed the local position, and it carries the new position and a fresh number; otherwise the counter is untouched |
| ClientSync.InputLoop | client/main.go:113-133 | a session's updates carry the client's id and strictly increasing numbers, all above the counter at the start; the client ends with the game the last action produced, and the last update issued carries that final position; with no update at all, the final position is the starting one; at most one update per action |
| ClientSync.UpdatesCountMoves | client/main.go:113-127 | a session issues exactly one update per action that changed the position (counted by an independent definition), so an action that did not move the player sends nothing |
| ClientSync.UpdatesCarryReachedPositions | client/main.go:117-142 | every update of a session carries a position some action of the session reached |
| ClientSync.NoUpdateNoMove | client/main.go:125-127 | a session that issued no update never left its starting position, not even in between |
| ClientSync.LastDeliveredIsLastIssued | client/main.go:136-147 | when the last update issued arrives at least once, it is the last update delivered |
| ClientSync.DisconnectOutnumbersUpdates | client/main.go:151-154 | the closing disconnect's number is above that of every update of the session |
| ClientSync.Reconcile | client/main.go:181-190 | a successful fetch replaces the local table wholesale; a failed one leaves the game unchanged |
| ClientSync.ReconcileMirrorsServer | client/main.go:173-184 | after a successful fetch the local table equals the server's table and the grid is untouched |
| ClientSync.ConnectStartsInSync | server/main.go:30-43 | a client started from a Connect reply has a sequence record on the server that is not above its counter |
| ClientSync.DeliverNOnce | client/main.go:38-42 | any positive number of copies of one update has the effect of one copy |
| ClientSync.DeliveryConverges | server/main.go:64-74 | for one player's increasing updates, each arriving any number of times, the server ends with the position and number of the last update that arrived, and nothing else changes |
| ClientSync.FirstUpdateAfterConnect | client/main.go:68-100 | after Connect, the client's first update reports the map's start position; however many copies arrive the two stay in sync, and once one arrives the server holds that position under sequence number 1 |
| ClientSync.ClientSession | client/main.go:113-160 | a client in sync plays a session with lossy, retried delivery: the server holds the last delivered position, which is a position the client reached, and its final position whenever the last update issued arrived; it stays in sync and admits the closing disconnect, which removes the player |
| LegacyServer.New | server.go:163-168 | no grid and no players; the duck stands on an empty cell |
| LegacyServer.LoadMap | server.go:171-209 | appends one classified row per line; the default spawn becomes the last player glyph and its cell stays empty; the duck position becomes the last duck glyph, standing on an empty cell (both unchanged if absent); no other field changes |
| LegacyServer.LoadNewMap | server.go:194-197 | loaded into a new game, the spawn cell exists and is empty, so no handler can panic |
| LegacyServer.CanMoveTo | server.go:212-220 | a cell can be entered exactly when it exists and holds none of Personagem, PersonagemRemoto, Inimigo, Parede or Pato |
| LegacyServer.CanMoveToIgnoresPlayers | server.go:212-220 | this server's move check does not depend on the player table; any existing cell that is not tangible is accepted |
| LegacyServer.MovePlayer | server.go:223-265 | only the moving player's record changes, the grid shape is kept, the result reports a teleport exactly for a portal target, and every player's cell stays on the grid |
| LegacyServer.MovePlayerStep | server.go:231-261 | non-portal move: the old cell gets back what the player stood on, the target becomes Personagem, and the player now stands on the target's former content (empty after a coin); only those two cells change |
| LegacyServer.MovePlayerPortal | server.go:242-253 | portal move: the old cell gets back what the player stood on, the portal is consumed, the player lands on the default spawn marked Personagem and now stands on what the spawn held after those two writes, and the reply names the spawn |
| LegacyServer.Connect | server.go:29-58 | the id is one more than the number of live players; the player is placed at the spawn, which becomes Personagem; no other field (spawn, duck, flags, status) changes; the reply is a copy of the new game |
| LegacyServer.ConnectReusesLiveId | server.go:39 | connect, connect, first player quits, connect: the third client receives id 2, which is still live |
| LegacyServer.ConnectFresh | server.go:36-54 | the same placement and the same frame, but the id is not held by any live player, and every existing player is kept |
| LegacyServer.Direction | server.go:82-96 | w is one row up (0, -1), a one column left (-1, 0), s one row down (0, 1), d one column right (1, 0); every other input gives no step |
| LegacyServer.Quit | server.go:74-80 | the player's cell gets back what the player stood on, the player leaves the table, nothing else changes, and every remaining player is still on the grid |
| LegacyServer.Press | server.go:82-101 | no step, or a target that cannot be entered, changes nothing; otherwise the move happens; every player stays on the grid |
| LegacyServer.SendInput | server.go:61-107 | an unknown player changes nothing; quit restores the player's cell, removes the player, replies with no status and changes nothing else; a direction key moves the player only if the target exists and is not tangible; all else changes nothing; no player ever leaves the grid |
| LegacyServer.SendInputToEmptyGame | server.go:69-72 | before anyone connects, every input is accepted and changes nothing, whatever the map |
| LegacyServer.MoveLandsOnFreeCell | server.go:98-101 | a key press that changes the game moved the player onto an existing, non-tangible cell |
| LegacyServer.GetState | server.go:110-121 | the reply is the whole game and the game is unchanged |

## Left out

- Transport (`net/rpc`, `net.Listen`, `rpc.Accept`, `rpc.Dial`, `client.Call`): I/O. Each remote call's outcome is an input (`ClientSync.CallOutcome`, the `Option` reply of `Reconcile`, the delivery counts of `ClientSync.DeliverAll`).
- `sync.Mutex`, goroutines, channels, `sync.WaitGroup`: concurrency. Each locked handler or `mapChannel` closure is one atomic transition, and each actor is a fold over its commands. The non-blocking `portalChannel` sends in the coin moves are not modelled.
- `go updateServerMyState()` runs asynchronously and reads the position when it runs. The model issues the update synchronously, at the moment the position changes. Updates are delivered in the order they were issued. With the goroutines, the position read and the number draw of one update are not atomic with those of another, so a later-numbered update can carry an older position, and a later-numbered update can reach the server first and get an earlier one dropped (`Server.OutOfOrderDropped` states that drop, not that the surviving position is the latest).
- `time.Sleep`, the 500 ms backoff and the 100 ms ticker: timing only.
- `log.Printf` and `log.Println`: no behaviour. `log.Fatal` on a failed dial or connect: process exit, not modelled.
- `os.Open` and `bufio.Scanner` in both `jogoCarregarMapa`: file I/O. The loaders take the lines of the file; a scanner error is not modelled.
- `interfaceIniciar`, `interfaceDesenharJogo`, `interfaceLerEventoTeclado` and the render channel: terminal I/O.
- `personagemExecutarAcao` is not part of this model. The game it produces is an input of `ClientSync.InputStep`.
- `teleportarJogador` is not part of this model. The teleport destination is an argument of `ClientGame.MoveElement`.
- `coinManager`, `portalManager` and `patoManager` are not part of this model.
- Colours (`Cor`): rendering only.
- The status message is kept as which message it is (`StatusBar.Status`), not as formatted text.
- Empty argument and reply records (`ConnectArgs`, `UpdateStateReply`, `GetStateArgs`, `DisconnectReply`) carry nothing and are left implicit.
- The reconnect branch at client/main.go:48-54 does nothing.
- Go's `int` is 64-bit. The identifier counter and the sequence counter are unbounded here, so wrap-around after 2^63 calls is not modelled.
- `mapManager` in server.go is the same FIFO loop as the client's. Its handlers are modelled one at a time (`LegacyServer.Connect`, `SendInput`, `GetState`), with no separate fold.
- DisconnectOutnumbersUpdates: holds only for the synchronous model. The deferred `notifyDisconnect` (client/main.go:83) can draw its number (client/main.go:153) before a still-pending `go updateServerMyState()` (client/main.go:100, 126) draws its own (client/main.go:141). If that update then reaches the server first, it is admitted, the disconnect is dropped as stale (server/main.go:106-108), and the player stays on the server.
- ClientSession: holds only for the synchronous model, for the same reason; with the goroutines, neither the final position nor the admitted disconnect is guaranteed.
- Legacy `Connect` (server.go:52) and `GetState` both reply with `*j`, a shallow copy that shares the grid and table with the live game until the reply is encoded. The model returns a value copy, because the sharing only matters under concurrency.
- Index-out-of-range panics: pure moves require their cells to exist (`ClientGame.MoveDefined`, `LegacyServer.MoveDefined`). The `mapManager` fold stops with `None` on a move that would panic. Legacy `Connect` requires the spawn cell to exist, and `SendInput` requires every player's cell to exist and, once anyone is connected, the spawn cell too, since a portal move lands there (`LegacyServer.Wellformed`).

## Findings

| source | as written | input that shows it | evidently intended | confidence | as-written member | corrected member |
|---|---|---|---|---|---|---|
| server.go:39 | the new id is the number of live players plus one | connect (id 1), connect (id 2), player 1 sends "quit", connect: the newcomer gets id 2, overwriting the live player 2 | a new player gets an id no live player holds, as the counter in server/main.go:30-31 does | high, not executed | LegacyServer.ConnectReusesLiveId | LegacyServer.ConnectFresh |
