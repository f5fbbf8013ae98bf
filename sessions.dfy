/** One live game (an entry of the `games` dictionary) and the identifiers around it. */
module Sessions {
  import opened Board

  /** A user id (the primary key of the user table). */
  type Uid = int

  /** The room name "game_{lo}_{hi}", kept as the pair of ids it is printed from. */
  datatype RoomId = GameRoom(lo: Uid, hi: Uid)

  /** The room of a game between `a` and `b`, whoever challenged whom. */
  function RoomFor(a: Uid, b: Uid): (room: RoomId)
    ensures room.lo <= room.hi
    ensures {room.lo, room.hi} == {a, b}
  {
    if a <= b then GameRoom(a, b) else GameRoom(b, a)
  }

  /** Two pairs of players share a room exactly when they are the same pair. */
  lemma RoomForSymmetric(a: Uid, b: Uid, x: Uid, y: Uid)
    ensures RoomFor(a, b) == RoomFor(x, y) <==> {a, b} == {x, y}
  {
  }

  /** The colour a player was given when the game started. */
  datatype Role = Black | White

  /** The row record_game_result writes for a finished game. */
  datatype GameResult = GameResult(blackId: Uid, whiteId: Uid, winnerId: Uid)

  /** A live game: the players never change, the board is written in place,
      and `turn` names the player whose move is accepted next. */
  class Game {
    const black: Uid
    const white: Uid
    const board: array2<int>
    var turn: Uid

    /** The game the accepted challenge creates: the challenger plays black and opens. */
    constructor (black: Uid, white: Uid)
      ensures Valid() && Opening(black, white) && fresh(board)
    {
      this.black := black;
      this.white := white;
      board := new int[Size, Size]((i, j) => Empty);
      turn := black;
    }

    /** Lines 263-269 of handle_place_stone, for a move already known to be legal:
        the mover's stone goes into the one cell, check_winner runs on the new
        board, and the turn passes to the other player whatever its answer. */
    method Play(uid: Uid, row: int, col: int) returns (won: bool)
      requires Valid() && OnBoard(row, col)
      requires turn == uid && board[row, col] == Empty
      modifies this, board
      ensures Valid()
      ensures board[row, col] == StoneOf(uid)
      ensures forall i, j :: 0 <= i < Size && 0 <= j < Size && (i != row || j != col) ==>
        board[i, j] == old(board[i, j])
      ensures turn == Opponent(old(turn))
      ensures won == Wins(board, StoneOf(uid), row, col)
    {
      var stone := StoneOf(uid);
      board[row, col] := stone;
      won := CheckWinner(board, stone, row, col);
      turn := Opponent(turn);
    }

    /** The board is 15x15 and holds only 0, 1 and 2; the turn is black's or white's. */
    ghost predicate Valid()
      reads this, board
    {
      && IsBoard(board)
      && (turn == black || turn == white)
      && forall i, j :: 0 <= i < Size && 0 <= j < Size ==> Empty <= board[i, j] <= WhiteStone
    }

    /** The state a game starts in: `black` and `white` seated, an empty
        15x15 board, and black to move. */
    ghost predicate Opening(black: Uid, white: Uid)
      reads this, board
    {
      && this.black == black && this.white == white && turn == black
      && IsBoard(board)
      && forall i, j :: 0 <= i < Size && 0 <= j < Size ==> board[i, j] == Empty
    }

    /** The stone a player puts down: 1 for black, 2 for anyone else. */
    function StoneOf(uid: Uid): int
    {
      if black == uid then BlackStone else WhiteStone
    }

    /** The player who moves after `uid`: white after black, black otherwise. */
    function Opponent(uid: Uid): (next: Uid)
      ensures next == black || next == white
      ensures uid == black ==> next == white
      ensures uid != black ==> next == black
      ensures black != white && (uid == black || uid == white) ==> next != uid
    {
      if uid == black then white else black
    }
  }
}
