/**
 * The client side of the position protocol (client/main.go): the command
 * sequence counter, the bounded-retry remote caller, the commands the
 * client issues, the change detection of the input loop and the periodic
 * reconciliation; and how these meet the server's sequence guard.
 *
 * The transport is not modelled: each attempt's outcome is an input.
 */
module ClientSync {
  import opened Wrappers
  import opened Wire
  import opened ClientGame
  import Server

  /** The client's command counter (`sequenceNumber`); it starts at 0. */
  datatype SeqCounter = SeqCounter(last: int)

  const FreshCounter: SeqCounter := SeqCounter(0)

  /** `getNovoSequenceNumber`: a number above every one issued before, which becomes the last issued. */
  function NextSequenceNumber(c: SeqCounter): (r: (SeqCounter, int))
    ensures r.1 > c.last
    ensures r.0.last == r.1
  {
    var n := c.last + 1;
    (SeqCounter(n), n)
  }

  /** The first number a fresh counter issues is 1. */
  lemma FirstSequenceNumberIsOne()
    ensures NextSequenceNumber(FreshCounter).1 == 1
  {
  }

  /** The outcome of one remote invocation, as delivered by the transport. */
  datatype CallOutcome = Ok | Err

  const MaxRetries: nat := 3

  /**
   * `callWithRetry`: invokes the call with the SAME arguments until one
   * attempt succeeds or three attempts have failed, then returns normally
   * either way. `outcomes[i]` is what the transport does with attempt `i`.
   * Returns the arguments of every attempt made, and whether one succeeded.
   */
  method CallWithRetry<A>(args: A, outcomes: seq<CallOutcome>) returns (sent: seq<A>, success: bool)
    requires |outcomes| >= MaxRetries
    ensures 1 <= |sent| <= MaxRetries
    ensures forall i :: 0 <= i < |sent| ==> sent[i] == args
    ensures forall i :: 0 <= i < |sent| - 1 ==> outcomes[i] == Err
    ensures success <==> outcomes[|sent| - 1] == Ok
    ensures !success ==> |sent| == MaxRetries
  {
    sent := [];
    var i := 0;
    while i < MaxRetries
      invariant 0 <= i <= MaxRetries
      invariant |sent| == i
      invariant forall j :: 0 <= j < i ==> sent[j] == args && outcomes[j] == Err
    {
      sent := sent + [args];
      if outcomes[i] == Ok {
        return sent, true;
      }
      i := i + 1;
    }
    return sent, false;
  }

  /** A remote endpoint that always fails is tried exactly three times. */
  method AlwaysFailingEndpoint<A>(args: A) returns (attempts: nat)
    ensures attempts == MaxRetries
  {
    var sent, success := CallWithRetry(args, [Err, Err, Err]);
    attempts := |sent|;
  }

  /** The client process: its identifier, its local game and its command counter. */
  datatype Client = Client(myID: int, game: Game, counter: SeqCounter)

  /** The client right after a successful `Connect`: the table from the reply, a fresh counter. */
  function Start(reply: ConnectReply, loaded: Game): (c: Client)
    ensures c.myID == reply.playerID && c.game.players == reply.allPlayers
    ensures c.counter == FreshCounter
    ensures c.game == loaded.(players := reply.allPlayers)
  {
    Client(reply.playerID, loaded.(players := reply.allPlayers), FreshCounter)
  }

  /** `updateServerMyState`: the client's own id, its current position and a fresh number. */
  function UpdateServerMyState(c: Client): (r: (Client, UpdateStateArgs))
    ensures r.1.playerID == c.myID
    ensures r.1.newX == c.game.posX && r.1.newY == c.game.posY
    ensures r.1.sequenceNumber > c.counter.last && r.0.counter.last == r.1.sequenceNumber
    ensures r.0.myID == c.myID && r.0.game == c.game
  {
    var (counter, n) := NextSequenceNumber(c.counter);
    (c.(counter := counter), UpdateStateArgs(c.myID, c.game.posX, c.game.posY, n))
  }

  /** `notifyDisconnect`: the client's own id and a fresh number. */
  function NotifyDisconnect(c: Client): (r: (Client, DisconnectArgs))
    ensures r.1.playerID == c.myID
    ensures r.1.sequenceNumber > c.counter.last && r.0.counter.last == r.1.sequenceNumber
    ensures r.0.myID == c.myID && r.0.game == c.game
  {
    var (counter, n) := NextSequenceNumber(c.counter);
    (c.(counter := counter), DisconnectArgs(c.myID, n))
  }

  /**
   * One turn of the input loop: the action has turned the local game into
   * `after`; an update is issued exactly when the local position changed.
   */
  function InputStep(c: Client, after: Game): (r: (Client, Option<UpdateStateArgs>))
    ensures r.0.game == after && r.0.myID == c.myID
    ensures r.1.Some? <==> (after.posX, after.posY) != (c.game.posX, c.game.posY)
    ensures r.1.Some? ==>
      && r.1.value.playerID == c.myID
      && r.1.value.newX == after.posX && r.1.value.newY == after.posY
      && r.1.value.sequenceNumber > c.counter.last
      && r.0.counter.last == r.1.value.sequenceNumber
    ensures r.1.None? ==> r.0.counter == c.counter
  {
    var oldX, oldY := c.game.posX, c.game.posY;
    var c1 := c.(game := after);
    if oldX != after.posX || oldY != after.posY then
      var (c2, a) := UpdateServerMyState(c1);
      (c2, Some(a))
    else
      (c1, None)
  }

  /** How many of the successive games put the local player somewhere new. */
  ghost function PositionChanges(from: Game, afters: seq<Game>): nat
    decreases |afters|
  {
    if afters == [] then 0
    else
      (if (afters[0].posX, afters[0].posY) != (from.posX, from.posY) then 1 else 0)
      + PositionChanges(afters[0], afters[1..])
  }

  /** An update numbered below every later one keeps a session's updates ordered and in range. */
  lemma PrependUpdate(a: UpdateStateArgs, rest: seq<UpdateStateArgs>, id: int, lo: int, hi: int)
    requires a.playerID == id && lo < a.sequenceNumber <= hi
    requires forall i :: 0 <= i < |rest| ==> rest[i].playerID == id
    requires forall i :: 0 <= i < |rest| ==> a.sequenceNumber < rest[i].sequenceNumber <= hi
    requires forall i, j :: 0 <= i < j < |rest| ==> rest[i].sequenceNumber < rest[j].sequenceNumber
    ensures forall i :: 0 <= i < |[a] + rest| ==> ([a] + rest)[i].playerID == id
    ensures forall i :: 0 <= i < |[a] + rest| ==> lo < ([a] + rest)[i].sequenceNumber <= hi
    ensures forall i, j :: 0 <= i < j < |[a] + rest| ==> ([a] + rest)[i].sequenceNumber < ([a] + rest)[j].sequenceNumber
    ensures ([a] + rest)[|rest|] == if rest == [] then a else rest[|rest| - 1]
  {
    var ups := [a] + rest;
    assert forall k :: 0 < k < |ups| ==> ups[k] == rest[k - 1];
  }

  /**
   * The input loop over a whole session: `afters` are the successive local
   * games the actions produce. Returns the updates issued, in order.
   */
  function InputLoop(c: Client, afters: seq<Game>): (r: (Client, seq<UpdateStateArgs>))
    ensures r.0.myID == c.myID && r.0.counter.last >= c.counter.last
    ensures forall i :: 0 <= i < |r.1| ==> r.1[i].playerID == c.myID
    ensures forall i :: 0 <= i < |r.1| ==> c.counter.last < r.1[i].sequenceNumber <= r.0.counter.last
    ensures forall i, j :: 0 <= i < j < |r.1| ==> r.1[i].sequenceNumber < r.1[j].sequenceNumber
    ensures afters == [] ==> r.0.game == c.game
    ensures afters != [] ==> r.0.game == afters[|afters| - 1]
    ensures r.1 != [] ==> (r.1[|r.1| - 1].newX, r.1[|r.1| - 1].newY) == (r.0.game.posX, r.0.game.posY)
    ensures r.1 == [] ==> (r.0.game.posX, r.0.game.posY) == (c.game.posX, c.game.posY)
    ensures |r.1| <= |afters|
    decreases |afters|
  {
    if afters == [] then (c, [])
    else
      var step := InputStep(c, afters[0]);
      var tail := InputLoop(step.0, afters[1..]);
      if step.1.None? then tail
      else
        PrependUpdate(step.1.value, tail.1, c.myID, c.counter.last, tail.0.counter.last);
        (tail.0, [step.1.value] + tail.1)
  }

  /** One turn of the input loop, then the rest of the session. */
  lemma InputLoopUnfold(c: Client, afters: seq<Game>)
    requires afters != []
    ensures
      var (c1, issued) := InputStep(c, afters[0]);
      var rest := InputLoop(c1, afters[1..]).1;
      InputLoop(c, afters).1 == (if issued.Some? then [issued.value] + rest else rest)
  {
  }

  /** A session issues exactly one update per action that changed the position. */
  lemma {:induction false} UpdatesCountMoves(c: Client, afters: seq<Game>)
    ensures |InputLoop(c, afters).1| == PositionChanges(c.game, afters)
    decreases |afters|
  {
    if afters != [] {
      InputLoopUnfold(c, afters);
      UpdatesCountMoves(InputStep(c, afters[0]).0, afters[1..]);
    }
  }

  /** Some game of the session puts the local player at `(x, y)`. */
  ghost predicate Reached(afters: seq<Game>, x: int, y: int) {
    exists j :: 0 <= j < |afters| && afters[j].posX == x && afters[j].posY == y
  }

  /** A position reached later in the session is reached in the session. */
  lemma ReachedLater(afters: seq<Game>, x: int, y: int)
    requires afters != [] && Reached(afters[1..], x, y)
    ensures Reached(afters, x, y)
  {
    var j :| 0 <= j < |afters[1..]| && afters[1..][j].posX == x && afters[1..][j].posY == y;
    assert afters[j + 1] == afters[1..][j];
  }

  /** Where the `i`-th update of a session comes from: the first turn, or the rest of the session. */
  lemma InputLoopAt(c: Client, afters: seq<Game>, i: int)
    requires 0 <= i < |InputLoop(c, afters).1|
    ensures afters != []
    ensures
      var c1 := InputStep(c, afters[0]).0;
      var issued := InputStep(c, afters[0]).1;
      var k := if issued.Some? then i - 1 else i;
      if issued.Some? && i == 0 then InputLoop(c, afters).1[i] == issued.value
      else 0 <= k < |InputLoop(c1, afters[1..]).1| && InputLoop(c, afters).1[i] == InputLoop(c1, afters[1..]).1[k]
  {
    var step := InputStep(c, afters[0]);
    var rest := InputLoop(step.0, afters[1..]).1;
    InputLoopUnfold(c, afters);
    if step.1.Some? {
      var ups := [step.1.value] + rest;
      assert InputLoop(c, afters).1 == ups;
      if i > 0 {
        assert ups[i] == rest[i - 1];
      }
    }
  }

  /** The `i`-th update of a session carries a position some action reached. */
  lemma {:induction false} UpdateCarriesReachedPosition(c: Client, afters: seq<Game>, i: int)
    requires 0 <= i < |InputLoop(c, afters).1|
    ensures Reached(afters, InputLoop(c, afters).1[i].newX, InputLoop(c, afters).1[i].newY)
    decreases |afters|
  {
    InputLoopAt(c, afters, i);
    var c1 := InputStep(c, afters[0]).0;
    var issued := InputStep(c, afters[0]).1;
    var u := InputLoop(c, afters).1[i];
    if issued.Some? && i == 0 {
      assert afters[0].posX == u.newX && afters[0].posY == u.newY;
    } else {
      UpdateCarriesReachedPosition(c1, afters[1..], if issued.Some? then i - 1 else i);
      ReachedLater(afters, u.newX, u.newY);
    }
  }

  /** Every update of a session carries a position some action reached. */
  lemma UpdatesCarryReachedPositions(c: Client, afters: seq<Game>)
    ensures
      var ups := InputLoop(c, afters).1;
      forall i :: 0 <= i < |ups| ==> Reached(afters, ups[i].newX, ups[i].newY)
  {
    var ups := InputLoop(c, afters).1;
    forall i | 0 <= i < |ups|
      ensures Reached(afters, ups[i].newX, ups[i].newY)
    {
      UpdateCarriesReachedPosition(c, afters, i);
    }
  }

  /** A session without updates never left its starting position, not even in between. */
  lemma {:induction false} NoUpdateNoMove(c: Client, afters: seq<Game>)
    requires InputLoop(c, afters).1 == []
    ensures forall j :: 0 <= j < |afters| ==> (afters[j].posX, afters[j].posY) == (c.game.posX, c.game.posY)
    decreases |afters|
  {
    if afters != [] {
      var c1 := InputStep(c, afters[0]).0;
      InputLoopUnfold(c, afters);
      NoUpdateNoMove(c1, afters[1..]);
      forall j | 0 < j < |afters|
        ensures (afters[j].posX, afters[j].posY) == (c.game.posX, c.game.posY)
      {
        assert afters[j] == afters[1..][j - 1];
      }
    }
  }

  /**
   * The disconnect sent when the session ends carries a number above every
   * update the session issued. With updates issued synchronously, the
   * server's guard therefore admits it after any of them.
   */
  lemma DisconnectOutnumbersUpdates(c: Client, afters: seq<Game>)
    ensures
      var (c1, ups) := InputLoop(c, afters);
      forall i :: 0 <= i < |ups| ==> ups[i].sequenceNumber < NotifyDisconnect(c1).1.sequenceNumber
  {
  }

  /**
   * The reconciler tick: a successful `GetState` replaces the local table
   * wholesale through the map manager; a failed one changes nothing.
   */
  function Reconcile(g: Game, reply: Option<GetStateReply>): (r: Game)
    ensures reply.Some? ==> r == g.(players := reply.value.allPlayers)
    ensures reply.None? ==> r == g
  {
    match reply
    case None => g
    case Some(rep) => Apply(g, ReplacePlayers(rep.allPlayers)).value
  }

  /** After a successful tick the local table is exactly the server's. */
  lemma ReconcileMirrorsServer(s: Server.ServerState, g: Game)
    ensures Reconcile(g, Some(Server.GetState(s).1)).players == s.players
    ensures Reconcile(g, Some(Server.GetState(s).1)).mapa == g.mapa
  {
  }

  /**
   * The client's counter is at least the server's record for it: then
   * every number the client issues from now on is admitted.
   */
  ghost predicate InSync(s: Server.ServerState, c: Client) {
    c.myID in s.lastSeqNums ==> s.lastSeqNums[c.myID] <= c.counter.last
  }

  /** A client started from a `Connect` reply is in sync with the server that sent it. */
  lemma ConnectStartsInSync(s: Server.ServerState, loaded: Game)
    ensures
      var (s1, reply) := Server.Connect(s);
      InSync(s1, Start(reply, loaded)) && reply.playerID in s1.lastSeqNums
  {
  }

  /**
   * The session's opening move: right after `Connect` the client reports
   * the start position it read from its own map. Whether that update
   * arrives zero, one or several times, the server and client stay in
   * sync, and once it arrives the server holds the map's start position
   * under the first sequence number.
   */
  lemma {:induction false} FirstUpdateAfterConnect(s: Server.ServerState, loaded: Game, k: nat)
    ensures
      var (s1, reply) := Server.Connect(s);
      var (c, a) := UpdateServerMyState(Start(reply, loaded));
      var t := DeliverN(s1, a, k);
      && InSync(t, c) && c.myID in t.lastSeqNums
      && (k == 0 ==> t == s1)
      && (k > 0 ==> t.players == s1.players[c.myID := PlayerState(loaded.posX, loaded.posY)]
                    && t.lastSeqNums == s1.lastSeqNums[c.myID := 1])
  {
    var (s1, reply) := Server.Connect(s);
    var (c, a) := UpdateServerMyState(Start(reply, loaded));
    DeliverNOnce(s1, a, k);
  }

  /** `a` delivered `k` times: the retries of one call that reached the server. */
  function DeliverN(s: Server.ServerState, a: UpdateStateArgs, k: nat): (r: Server.ServerState)
    decreases k
  {
    if k == 0 then s else Server.UpdateState(DeliverN(s, a, k - 1), a)
  }

  /** However many copies of one update reach the server, the effect is that of at most one. */
  lemma {:induction false} DeliverNOnce(s: Server.ServerState, a: UpdateStateArgs, k: nat)
    ensures DeliverN(s, a, k) == if k == 0 then s else Server.UpdateState(s, a)
    decreases k
  {
    if k > 1 {
      DeliverNOnce(s, a, k - 1);
      Server.UpdateIdempotent(s, a);
    }
  }

  /** The issued updates, each delivered the given number of times, in issue order. */
  function DeliverAll(s: Server.ServerState, ups: seq<UpdateStateArgs>, ks: seq<nat>): (r: Server.ServerState)
    requires |ks| == |ups|
    decreases |ups|
  {
    if ups == [] then s else DeliverAll(DeliverN(s, ups[0], ks[0]), ups[1..], ks[1..])
  }

  /** The last update that reached the server at least once. */
  function LastDelivered(ups: seq<UpdateStateArgs>, ks: seq<nat>): (r: Option<UpdateStateArgs>)
    requires |ks| == |ups|
    ensures r.Some? ==> exists i :: 0 <= i < |ups| && ups[i] == r.value && ks[i] > 0
                                     && (forall j :: i < j < |ups| ==> ks[j] == 0)
    ensures r.None? ==> forall i :: 0 <= i < |ups| ==> ks[i] == 0
    decreases |ups|
  {
    if ups == [] then None
    else
      match LastDelivered(ups[1..], ks[1..])
      case Some(u) => Some(u)
      case None => if ks[0] > 0 then Some(ups[0]) else None
  }

  /** If the last update arrived at least once, it is the last one delivered. */
  lemma {:induction false} LastDeliveredIsLastIssued(ups: seq<UpdateStateArgs>, ks: seq<nat>)
    requires |ks| == |ups| && ups != [] && ks[|ks| - 1] > 0
    ensures LastDelivered(ups, ks) == Some(ups[|ups| - 1])
    decreases |ups|
  {
    if |ups| > 1 {
      LastDeliveredIsLastIssued(ups[1..], ks[1..]);
    }
  }

  /**
   * At-most-once application: if one player's updates carry increasing
   * numbers above the server's record, then whatever number of copies of
   * each arrives, the server ends holding the position and number of the
   * last update that arrived at all, and nothing else changes.
   */
  lemma {:induction false} DeliveryConverges(s: Server.ServerState, id: int, ups: seq<UpdateStateArgs>, ks: seq<nat>)
    requires |ks| == |ups|
    requires id in s.lastSeqNums
    requires forall i :: 0 <= i < |ups| ==> ups[i].playerID == id && ups[i].sequenceNumber > s.lastSeqNums[id]
    requires forall i, j :: 0 <= i < j < |ups| ==> ups[i].sequenceNumber < ups[j].sequenceNumber
    ensures
      var t := DeliverAll(s, ups, ks);
      match LastDelivered(ups, ks)
      case None => t == s
      case Some(u) =>
        && t.players == s.players[id := PlayerState(u.newX, u.newY)]
        && t.lastSeqNums == s.lastSeqNums[id := u.sequenceNumber]
        && t.nextID == s.nextID
    decreases |ups|
  {
    if ups != [] {
      var s1 := DeliverN(s, ups[0], ks[0]);
      DeliverNOnce(s, ups[0], ks[0]);
      assert id in s1.lastSeqNums;
      assert forall i :: 0 <= i < |ups[1..]| ==> ups[1..][i].sequenceNumber > s1.lastSeqNums[id] by {
        forall i | 0 <= i < |ups[1..]|
          ensures ups[1..][i].sequenceNumber > s1.lastSeqNums[id]
        {
          assert ups[1..][i] == ups[i + 1];
        }
      }
      DeliveryConverges(s1, id, ups[1..], ks[1..]);
    }
  }

  /**
   * The composed client/server property. A client in sync with the server
   * plays a session; each update it issues reaches the server any number
   * of times (zero if all three attempts failed, more than once if a reply
   * was lost and the call retried). The server then holds the position of
   * the last update that arrived, which is a position the client reached
   * (its final one, if the last update issued arrived); it is still in
   * sync with the client, and
   * the final disconnect is admitted and removes the player.
   */
  lemma {:induction false} ClientSession(s: Server.ServerState, c: Client, afters: seq<Game>, ks: seq<nat>)
    requires InSync(s, c) && c.myID in s.lastSeqNums
    requires |ks| == |InputLoop(c, afters).1|
    ensures
      var (c1, ups) := InputLoop(c, afters);
      var t := DeliverAll(s, ups, ks);
      && (match LastDelivered(ups, ks)
          case None => t == s
          case Some(u) => t.players == s.players[c.myID := PlayerState(u.newX, u.newY)])
      && (LastDelivered(ups, ks).Some? ==>
            c.myID in t.players && Reached(afters, t.players[c.myID].posX, t.players[c.myID].posY))
      && (ups != [] && ks[|ks| - 1] > 0 ==>
            t.players == s.players[c.myID := PlayerState(c1.game.posX, c1.game.posY)])
      && InSync(t, c1)
      && var d := NotifyDisconnect(c1).1;
         Server.Admits(t, d.playerID, d.sequenceNumber)
         && Server.Disconnect(t, d).players == t.players - {c.myID}
  {
    var (c1, ups) := InputLoop(c, afters);
    DeliveryConverges(s, c.myID, ups, ks);
    UpdatesCarryReachedPositions(c, afters);
    if LastDelivered(ups, ks).Some? {
      var i :| 0 <= i < |ups| && ups[i] == LastDelivered(ups, ks).value && ks[i] > 0;
      assert Reached(afters, ups[i].newX, ups[i].newY);
    }
    if ups != [] && ks[|ks| - 1] > 0 {
      LastDeliveredIsLastIssued(ups, ks);
    }
  }
}
