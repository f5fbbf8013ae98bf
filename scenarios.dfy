/** A client of the handlers' contracts: what a caller can conclude from them alone. */
module Scenarios {
  import opened Collections
  import opened Board
  import opened Sessions
  import opened Lobby
  import opened GameServer

  /** Users 1 and 2 connect, 1 challenges 2 and 2 accepts: the game sits in
      room game_1_2 with the challenger 1 as black and to move. */
  method ChallengeOpensGame()
  {
    var server := new Server();
    var names := map[1 := "A", 2 := "B"];
    var events := server.Connect("sa", Some(1), names);
    events := server.Connect("sb", Some(2), names);
    assert server.sids == ["sa", "sb"];
    assert server.connected == map["sa" := 1, "sb" := 2];
    assert FirstMatch(server.sids, server.connected, 2) == Some("sb");

    events := server.Challenge(User(1, "A"), 2);
    assert events == [ReceiveChallenge("sb", 1, "A")];

    events := server.ChallengeResponse(User(2, "B"), "sb", 1, true, names);
    var room := GameRoom(1, 2);
    assert FirstMatch(server.sids, server.connected, 1) == Some("sa");
    assert room in server.games;
    var game := server.games[room];
    assert game.black == 1 && game.white == 2 && game.turn == 1;
    assert events[0] == GameStart("sa", room, "B", Black);
    assert server.rooms == [room];
  }

  /** Black opens a fresh game between 1 and 2 at (7, 7): the cell turns black,
      the turn passes to 2, and a single stone ends nothing. */
  method FirstStoneEndsNothing(server: Server)
    requires server.Valid()
    requires GameRoom(1, 2) in server.games && server.games[GameRoom(1, 2)].Opening(1, 2)
    modifies server, server.MoveFrame(GameRoom(1, 2))
  {
    var room := GameRoom(1, 2);
    var game := server.games[room];
    var events := server.PlaceStone(1, room, 7, 7);
    assert game.board[7, 7] == BlackStone && game.turn == 2;
    forall d | d in Directions
      ensures LineCount(game.board, BlackStone, 7, 7, d) == 1
    {
      assert game.board[7 + d.0, 7 + d.1] == Empty;
      assert game.board[7 - d.0, 7 - d.1] == Empty;
    }
    assert events == [UpdateBoard(room, 7, 7, BlackStone, 2)];
    assert room in server.games;
  }
}
