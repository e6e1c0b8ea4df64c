/** The status bar shown under the grid (`StatusMsg` in both game records). */
module StatusBar {
  /**
   * The status-bar message. The source keeps it as text; the model keeps
   * which message it is: empty, the coin message of the older server
   * ("Moeda!") or the teleport message naming the destination.
   */
  datatype Status = Blank | CoinCollected | TeleportedTo(x: int, y: int)
}
