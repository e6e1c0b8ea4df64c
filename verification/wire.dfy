/**
 * The records exchanged by the remote calls of the position protocol
 * (shared/types.go). The argument and reply records with no fields
 * (`ConnectArgs`, `UpdateStateReply`, `GetStateArgs`, `DisconnectReply`)
 * carry no information and are left implicit.
 */
module Wire {

  /** A player's position: exactly a pair of integers. */
  datatype PlayerState = PlayerState(posX: int, posY: int)

  /** The new player's identifier and the whole table, the new player included. */
  datatype ConnectReply = ConnectReply(playerID: int, allPlayers: map<int, PlayerState>)

  datatype UpdateStateArgs = UpdateStateArgs(playerID: int, newX: int, newY: int, sequenceNumber: int)

  datatype GetStateReply = GetStateReply(allPlayers: map<int, PlayerState>)

  /** A disconnect names only the player and carries a sequence number, no position. */
  datatype DisconnectArgs = DisconnectArgs(playerID: int, sequenceNumber: int)
}
