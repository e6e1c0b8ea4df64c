/**
 * The authoritative position server (server/main.go).
 *
 * The state is the player table, the per-player last accepted sequence
 * number and the identifier counter. Every handler holds the server mutex
 * for its whole body, so each is one atomic transition here.
 */
module Server {
  import opened Wire

  datatype ServerState = ServerState(
    players: map<int, PlayerState>,
    nextID: int,
    lastSeqNums: map<int, int>)

  /** Where a newly connected player is placed until its client reports its position. */
  const Spawn: PlayerState := PlayerState(1, 1)

  /**
   * The server invariant: a player has a position exactly when it has a
   * sequence record, every live identifier was handed out already (it lies
   * in `[1, nextID)`), and sequence records are never negative.
   */
  ghost predicate Valid(s: ServerState) {
    && s.players.Keys == s.lastSeqNums.Keys
    && 1 <= s.nextID
    && (forall id :: id in s.players ==> 1 <= id < s.nextID)
    && (forall id :: id in s.lastSeqNums ==> 0 <= s.lastSeqNums[id])
  }

  /** The state the server starts with: no players, first identifier 1. */
  function Init(): (s: ServerState)
    ensures Valid(s)
    ensures s.players == map[] && s.nextID == 1
  {
    ServerState(map[], 1, map[])
  }

  /**
   * The sequence guard: a command is admitted only for a player with a
   * sequence record and a number above the last one accepted.
   */
  function Admits(s: ServerState, id: int, seqNum: int): (ok: bool)
    ensures ok && Valid(s) ==> id in s.players && 1 <= id < s.nextID
  {
    id in s.lastSeqNums && seqNum > s.lastSeqNums[id]
  }

  /** Hands out the counter's identifier, bumps the counter and places the player at the spawn. */
  function Connect(s: ServerState): (r: (ServerState, ConnectReply))
    ensures r.1.playerID == s.nextID && r.0.nextID > r.1.playerID
    ensures r.0.players == s.players[r.1.playerID := Spawn]
    ensures r.0.lastSeqNums == s.lastSeqNums[r.1.playerID := 0]
    ensures r.1.allPlayers == r.0.players
    ensures Valid(s) ==> Valid(r.0) && r.1.playerID !in s.players && r.1.playerID !in s.lastSeqNums
  {
    var newID := s.nextID;
    var s' := ServerState(s.players[newID := Spawn], s.nextID + 1, s.lastSeqNums[newID := 0]);
    (s', ConnectReply(newID, s'.players))
  }

  /**
   * Client-authoritative position update behind the sequence guard. A
   * dropped command (unknown player, stale or repeated number) is a
   * success that changes nothing; an admitted one overwrites the position
   * without any legality check.
   */
  function UpdateState(s: ServerState, a: UpdateStateArgs): (r: ServerState)
    ensures a.playerID !in s.lastSeqNums ==> r == s
    ensures a.playerID in s.lastSeqNums && a.sequenceNumber <= s.lastSeqNums[a.playerID] ==> r == s
    ensures Admits(s, a.playerID, a.sequenceNumber) ==>
      && r.players == s.players[a.playerID := PlayerState(a.newX, a.newY)]
      && r.lastSeqNums == s.lastSeqNums[a.playerID := a.sequenceNumber]
      && r.nextID == s.nextID
    ensures Valid(s) ==> Valid(r)
  {
    if a.playerID !in s.lastSeqNums then s
    else if a.sequenceNumber <= s.lastSeqNums[a.playerID] then s
    else
      s.(lastSeqNums := s.lastSeqNums[a.playerID := a.sequenceNumber],
         players := s.players[a.playerID := PlayerState(a.newX, a.newY)])
  }

  /** A snapshot of the table; no state changes. */
  function GetState(s: ServerState): (r: (ServerState, GetStateReply))
    ensures r.0 == s
    ensures r.1.allPlayers == s.players
  {
    (s, GetStateReply(s.players))
  }

  /**
   * Removes a player behind the same guard as `UpdateState`. The source
   * first records the number and then deletes the record, so an admitted
   * disconnect leaves no sequence record behind.
   */
  function Disconnect(s: ServerState, a: DisconnectArgs): (r: ServerState)
    ensures !Admits(s, a.playerID, a.sequenceNumber) ==> r == s
    ensures Admits(s, a.playerID, a.sequenceNumber) ==>
      && r.players == s.players - {a.playerID}
      && r.lastSeqNums == s.lastSeqNums - {a.playerID}
      && r.nextID == s.nextID
    ensures Valid(s) ==> Valid(r)
  {
    if a.playerID !in s.lastSeqNums then s
    else if a.sequenceNumber <= s.lastSeqNums[a.playerID] then s
    else
      var seqNums := s.lastSeqNums[a.playerID := a.sequenceNumber];
      ServerState(s.players - {a.playerID}, s.nextID, seqNums - {a.playerID})
  }

  /** Delivering the same update twice has the effect of delivering it once. */
  lemma UpdateIdempotent(s: ServerState, a: UpdateStateArgs)
    ensures UpdateState(UpdateState(s, a), a) == UpdateState(s, a)
  {
  }

  /** The same for disconnects: a retried disconnect is harmless. */
  lemma DisconnectIdempotent(s: ServerState, a: DisconnectArgs)
    ensures Disconnect(Disconnect(s, a), a) == Disconnect(s, a)
  {
  }

  /**
   * Delivery order does not matter for stale commands: once a number is
   * processed, a command for the same player with a number not above it is
   * dropped, whether or not the first one was admitted.
   */
  lemma OutOfOrderDropped(s: ServerState, newer: UpdateStateArgs, older: UpdateStateArgs)
    requires newer.playerID == older.playerID
    requires older.sequenceNumber <= newer.sequenceNumber
    ensures UpdateState(UpdateState(s, newer), older) == UpdateState(s, newer)
  {
  }

  /** Updates of two different players commute: no cross-player ordering is needed. */
  lemma UpdatesOfDistinctPlayersCommute(s: ServerState, a: UpdateStateArgs, b: UpdateStateArgs)
    requires a.playerID != b.playerID
    ensures UpdateState(UpdateState(s, a), b) == UpdateState(UpdateState(s, b), a)
  {
  }

  /** A retry of an update that arrives after the player's disconnect is dropped. */
  lemma LateRetryAfterDisconnect(s: ServerState, d: DisconnectArgs, a: UpdateStateArgs)
    requires Admits(s, d.playerID, d.sequenceNumber)
    requires a.playerID == d.playerID
    ensures UpdateState(Disconnect(s, d), a) == Disconnect(s, d)
  {
  }

  /** The remote calls, as submitted to the server one at a time. */
  datatype Request =
    | ConnectCall
    | UpdateStateCall(update: UpdateStateArgs)
    | GetStateCall
    | DisconnectCall(disconnect: DisconnectArgs)

  datatype Response =
    | Connected(connect: ConnectReply)
    | Updated
    | State(state: GetStateReply)
    | Disconnected

  /** One atomic handler run. */
  function Step(s: ServerState, q: Request): (r: (ServerState, Response))
    ensures Valid(s) ==> Valid(r.0)
    ensures q.ConnectCall? <==> r.1.Connected?
    ensures r.0.nextID >= s.nextID
  {
    match q
    case ConnectCall => var (s', reply) := Connect(s); (s', Connected(reply))
    case UpdateStateCall(a) => (UpdateState(s, a), Updated)
    case GetStateCall => var (s', reply) := GetState(s); (s', State(reply))
    case DisconnectCall(a) => (Disconnect(s, a), Disconnected)
  }

  /** The server over a whole history of calls, serialised in arrival order. */
  function Run(s: ServerState, qs: seq<Request>): (r: (ServerState, seq<Response>))
    ensures |r.1| == |qs|
    ensures r.0.nextID >= s.nextID
    ensures (forall i :: 0 <= i < |qs| ==> !qs[i].ConnectCall?) ==> r.0.nextID == s.nextID
    decreases |qs|
  {
    if qs == [] then (s, [])
    else
      var (s1, p) := Step(s, qs[0]);
      var (s2, ps) := Run(s1, qs[1..]);
      (s2, [p] + ps)
  }

  /** Every history of calls keeps the server invariant. */
  lemma {:induction false} RunPreservesValid(s: ServerState, qs: seq<Request>)
    requires Valid(s)
    ensures Valid(Run(s, qs).0)
    ensures Run(s, qs).0.nextID >= s.nextID
    decreases |qs|
  {
    if qs != [] {
      RunPreservesValid(Step(s, qs[0]).0, qs[1..]);
    }
  }

  /**
   * Serialisation: running `a` and then `b` is running `a + b`, and the
   * responses are those of `a` followed by those of `b`.
   */
  lemma {:induction false} RunConcat(s: ServerState, a: seq<Request>, b: seq<Request>)
    ensures Run(s, a + b).0 == Run(Run(s, a).0, b).0
    ensures Run(s, a + b).1 == Run(s, a).1 + Run(Run(s, a).0, b).1
    decreases |a|
  {
    if a == [] {
      assert a + b == b;
    } else {
      assert (a + b)[1..] == a[1..] + b;
      RunConcat(Step(s, a[0]).0, a[1..], b);
    }
  }

  /**
   * Identifiers are never reused: an identifier already handed out and no
   * longer live stays absent after any further history.
   */
  lemma {:induction false} RemovedIdNeverReturns(s: ServerState, qs: seq<Request>, id: int)
    requires Valid(s)
    requires id < s.nextID && id !in s.players
    ensures id !in Run(s, qs).0.players
    decreases |qs|
  {
    if qs != [] {
      var s1 := Step(s, qs[0]).0;
      RemovedIdNeverReturns(s1, qs[1..], id);
    }
  }

  /** Over any history, a live player's sequence record never goes down. */
  lemma {:induction false} SeqNumsNeverDecrease(s: ServerState, qs: seq<Request>, id: int)
    requires Valid(s)
    requires id in s.lastSeqNums && id in Run(s, qs).0.lastSeqNums
    ensures Run(s, qs).0.lastSeqNums[id] >= s.lastSeqNums[id]
    decreases |qs|
  {
    if qs != [] {
      var s1 := Step(s, qs[0]).0;
      if id in s1.lastSeqNums {
        SeqNumsNeverDecrease(s1, qs[1..], id);
      } else {
        // the player disconnected in the first step; it cannot be live at the end
        RemovedIdNeverReturns(s1, qs[1..], id);
        RunPreservesValid(s1, qs[1..]);
        assert false;
      }
    }
  }

  /** `n` connections in a row, and the identifiers they receive in order. */
  function ConnectMany(s: ServerState, n: nat): (r: (ServerState, seq<int>))
    ensures |r.1| == n
    ensures forall i :: 0 <= i < n ==> r.1[i] == s.nextID + i
    ensures r.0.nextID == s.nextID + n
    ensures Valid(s) ==> Valid(r.0)
    decreases n
  {
    if n == 0 then (s, [])
    else
      var (s1, reply) := Connect(s);
      var (s2, ids) := ConnectMany(s1, n - 1);
      (s2, [reply.playerID] + ids)
  }

  /** `n` connections receive `n` distinct identifiers, none of them already live. */
  lemma UniqueIds(s: ServerState, n: nat)
    requires Valid(s)
    ensures forall i, j :: 0 <= i < j < n ==> ConnectMany(s, n).1[i] != ConnectMany(s, n).1[j]
    ensures forall i :: 0 <= i < n ==> ConnectMany(s, n).1[i] !in s.players
  {
  }

  /**
   * The documented session: connect, move to (5, 7) with number 1, replay
   * that update, then disconnect with number 2.
   */
  lemma Scenario()
    ensures
      var (s1, c) := Connect(Init());
      var u := UpdateStateArgs(1, 5, 7, 1);
      var s2 := UpdateState(s1, u);
      var s3 := UpdateState(s2, u);
      var s4 := Disconnect(s3, DisconnectArgs(1, 2));
      && c.playerID == 1 && c.allPlayers == map[1 := PlayerState(1, 1)]
      && GetState(s2).1.allPlayers == map[1 := PlayerState(5, 7)]
      && s3 == s2
      && GetState(s4).1.allPlayers == map[]
  {
  }
}
