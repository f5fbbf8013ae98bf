# Gomoku game server: session engine in Dafny

This project models the in-memory engine of a two-player gomoku (five in a row) server written
as one Flask/Socket.IO program, `app.py`. The server keeps two dictionaries in memory.
`connected_users` maps each socket id to the id of the logged-in user. `games` maps a room name
to the live game in it: its black and white players, a 15x15 board and whose turn it is. Each
Socket.IO event is handled to completion before the next one starts. So each handler is modelled
as one method of a `Server` class that holds the two dictionaries. What a handler emits is
returned as a sequence of events.

Modules, one per part of the engine:

- `Collections` (`collections.dfy`): `Option`, and the key order of a Python dict.
  Python iterates a dict in insertion order. Overwriting a key keeps its place, and `del`
  removes it (`Without`).
- `Board` (`board.dfy`): the board constants, and `check_winner` as a loop method
  (`CheckWinner`). The method is proved equal to a recursive run-length specification (`Wins`).
  Lemmas show that this equals "five stones of that colour in an unbroken line through the placed
  stone, on one of the four axes".
- `Sessions` (`sessions.dfy`): the room name `game_{min}_{max}` (`RoomFor`). Also the `Game`
  class: constant players and board reference, a mutable `turn` and board cells. `Game.Play`
  models the part of a move that writes the cell and flips the turn.
- `Lobby` (`lobby.dfy`): pure specifications of what the handlers compute by scanning the
  dictionaries. `FirstMatch` is the sid lookup with `break`. `Seats` is the `playing_users` map,
  and `Listing` is the `active_users` list. Lemmas state what each one means.
- `GameServer` (`game_server.dfy`): the `Server` class and the Socket.IO handlers. Its
  invariant `Valid()` holds:
  - each key order matches its dict;
  - every game sits under the room of its own two players;
  - no two rooms share a game or a board;
  - every board is 15x15 and holds only 0, 1 and 2;
  - every turn belongs to black or white.
- `Scenarios` (`scenarios.dfy`): two client methods that use only the contracts. In the first,
  users 1 and 2 connect, 1 challenges and 2 accepts, giving room `game_1_2` with 1 as black and
  to move. In the second, black's first stone at (7, 7) passes the turn and ends nothing.

Where the code departs from the behaviour one would expect of such a server, the model follows the code:

- Colours are not drawn at random. The challenger is always black and moves first (app.py:191, 194).
- Looking up a user's socket returns the first sid in insertion order, not the most recent
  registration (app.py:163-166, 182-185).
- The lobby list is in first-connection order, not sorted by user id (app.py:142-155). A user
  with games in several rooms is shown in the room iterated last (app.py:136-138).
- An out-of-range move is not rejected: the code has no bounds check (app.py:260). The model
  requires the coordinates to be on the board (see below).
- Accepting a challenge never checks whether either player is already in a game. Accepting
  between a pair whose room is live replaces that game in place (app.py:190). The model does
  the same: `Register` keeps the room's position and installs the new game.

## Model

| member | source | states |
|---|---|---|
| `Board.CheckWinner` | app.py:293-311 | the scan's answer equals `Wins`: some axis of the four has 1 + forward run + backward run >= 5, each run capped at 4 and stopped at the edge or the first non-matching cell |
| `Board.RunCells` | app.py:297-308 | a run covers only cells that are on the board and hold the stone, stops after step 4, and stops at the first cell that is off the board or does not match |
| `Board.RunReaches` | app.py:297-308 | when the cells at steps i..m all match, the run from i counts at least all of them |
| `Board.LineCountMeansFive` | app.py:295-310 | on one axis, a count of at least 5 holds exactly when five stones lie in an unbroken line through the placed stone |
| `Board.WinsMeansFiveInARow` | app.py:293-311 | check_winner answers true exactly when the placed stone is part of five in a row on a horizontal, vertical or diagonal line, so exactly four is no win |
| `Board.RowOfFiveWins` | app.py:309-310 | five stones ending at the placed one on its row are always a win, whatever else is on the board |
| `Board.LineCountBounded` | app.py:296-308 | each axis count, the placed stone plus the forward and backward runs, lies between 1 and 9 |
| `Collections.Without` | app.py:129 | deleting a key removes exactly that key from the iteration order, keeps the others, and keeps the order duplicate-free |
| `Collections.WithoutAt` | app.py:129 | deleting the key at position i of the iteration order leaves the keys before it followed by the keys after it, so every remaining key keeps its relative position |
| `Sessions.RoomFor` | app.py:188 | the room name is built from the smaller then the larger of the two ids, whichever player challenged |
| `Sessions.RoomForSymmetric` | app.py:188 | two pairs of players get the same room exactly when they are the same unordered pair |
| `Sessions.Game.constructor` | app.py:190-195 | a new game seats the given black and white players, starts from an all-empty 15x15 board, and gives black the first turn |
| `Sessions.Game.Opponent` | app.py:268 | the next turn is white after black and black otherwise, always one of the two players, and never the mover when they differ |
| `Sessions.Game.Play` | app.py:263-269 | an accepted move writes the mover's stone into the one empty cell and leaves every other cell unchanged; the winner test runs on the new board; the turn passes to the other player; the game invariant is kept |
| `Lobby.FirstMatchIsFirst` | app.py:163-166 | the sid lookup returns a sid of that user with no earlier sid of the same user in insertion order, and returns none only when no sid belongs to the user |
| `Lobby.SeatsAreLastRoom` | app.py:135-138 | a user appears in `playing_users` exactly when they are black or white in some game, and the room recorded is the last such room in iteration order |
| `Lobby.ListingContents` | app.py:140-155 | the lobby list holds exactly the connected users the user table knows, no id twice, each with its nickname and with `playing` and its room when seated, `free` otherwise |
| `Lobby.ListingOrder` | app.py:142-155 | users appear in the order of their first connection |
| `GameServer.Server.constructor` | app.py:47-48 | the server starts with no connections, no games and no recorded results, and satisfies the invariant |
| `GameServer.Server.SnapshotConsistent` | app.py:133-157 | in every state, a listed user is `playing` exactly when they are a player of some live game, and the room shown is one of their games; every connected known user is listed exactly once |
| `GameServer.Server.Connect` | app.py:119-124 | an authenticated connection is stored under its sid; a known sid keeps its place in the order, a new one goes last; the lobby gets the new list; an anonymous connection changes nothing |
| `GameServer.Server.Disconnect` | app.py:126-130 | a known sid is removed and nothing else changes, then the lobby gets the new list; an unknown sid is a no-op with no message |
| `GameServer.Server.FindSid` | app.py:162-166 | the loop returns the first sid in insertion order that belongs to the user, or none |
| `GameServer.Server.UserList` | app.py:133-157 | the user list sent to the lobby is exactly the `Listing` of the connections, with each user's room taken from the `Seats` of the games |
| `GameServer.Server.PlayingUsers` | app.py:135-138 | the loop over the games builds exactly `Seats`, so a player maps to the last room in iteration order that seats them |
| `GameServer.Server.ActiveUsers` | app.py:140-155 | the loop over the connections with the `seen_ids` set builds exactly `Listing`: each known user once, at their first connection |
| `GameServer.Server.Challenge` | app.py:159-172 | a challenge goes to the target's first sid, carrying the challenger's id and nickname; with the target offline nothing is sent; no state is stored either way |
| `GameServer.Server.ChallengeResponse` | app.py:174-205 | challenger offline: nothing changes and nothing is sent. Declined: the challenger is told and `games` is unchanged. Accepted: the pair's room gets a fresh game with the challenger as black and to move, both players get their roles, and the lobby gets the new list |
| `GameServer.Server.StartGame` | app.py:187-202 | the pair's room ends up in `games` with a fresh all-empty game, challenger black and to move; every other room is kept; the room keeps its place or goes last; the messages are black's game_start, white's game_start and the lobby list |
| `GameServer.Server.Register` | app.py:190 | `games[room] = game` keeps the server invariant; a new room goes last in the order, an existing one keeps its place |
| `GameServer.Server.Close` | app.py:279-280 | `del games[room]` removes exactly that room from the dictionary and its key order, and keeps the invariant |
| `GameServer.Server.PlaceStone` | app.py:245-282 | a move in a missing room, out of turn, or on an occupied cell changes nothing and sends nothing. An accepted move changes only its cell, from empty to the mover's colour. The turn passes to the other player even on a win, and `update_board` is sent. A win records (black, white, mover), sends `game_over` and deletes only that room. Without a win the room stays and every other room is untouched |

## Left out

- GameServer.Server.PlaceStone: requires the row and column to lie in 0..14. The code does not check bounds. In Python an index in -15..-1 wraps to the other end of the row or column, and any other index outside 0..14 raises at app.py:260. With a wrapped index the occupancy test and the write go to the wrapped cell (app.py:260, 264), but check_winner is called with the unwrapped coordinates (app.py:266) and scans from there. So the win test can disagree with the board. Black holding (0,4)..(3,4) and playing (-1,4) puts the stone on (14,4), yet the vertical scan counts 1 + 4 and declares a win. Black holding (14,0)..(14,3) and playing (-1,4) completes five on row 14, but the horizontal scan stops at once and no win is declared. The model does not capture either outcome.
- GameServer.Server.ChallengeResponse: when the user table has no row for the challenger, the code raises at app.py:199, after `games` was written and black was told. The model ends the handler at that point and does not model the exception itself.
- HTTP routes `index`, `register`, `login`, `logout` and `get_history` (app.py:64-115): password hashing, SQL queries and page rendering are outside the engine.
- The database models and the body of `record_game_result` (app.py:28-44, 284-291). The call is modelled by appending a `GameResult` to the server's `results` log. The commit, the rollback and the timestamp are not modelled.
- The user table lookups `User.query.get` (app.py:144, 199) are a map `names` from user id to nickname, passed to each handler. `current_user` is the `User(id, nickname)` the handler is called with.
- Socket.IO transport: `join_room`, `leave_room`, and membership in the lobby and game rooms. Each event records its addressee (a sid, the lobby or a room) and is not delivered. The handlers `handle_join_game`, `handle_join_spectate` and `handle_back_to_lobby` (app.py:207-243) only change room membership, or send a copy of an existing game or list, so they are not modelled.
- The text of the room name: `RoomId` stands for `"game_{min}_{max}"` as its pair of ids, so no integer-to-string conversion is modelled. Printed ids have no underscore, so distinct pairs give distinct names.
- Payload parsing (`int(data[...])`, reading `accepted` as a truth value) and the truthiness test on a sid. Sids are never empty, so "sid found" is `Some`.
- The eventlet loop and concurrency: every handler is one atomic method.
