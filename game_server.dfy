/** The Socket.IO handlers over the two in-memory dictionaries `connected_users`
    and `games`. Each handler runs to completion before the next event is taken,
    so each is one method of `Server`; what it emits is returned as events. */
module GameServer {
  import opened Collections
  import opened Board
  import opened Sessions
  import opened Lobby

  /** The logged-in user an event comes from (`current_user`). */
  datatype User = User(id: Uid, nickname: string)

  /** The messages the handlers emit. */
  datatype Event =
    | UpdateUserList(users: seq<Entry>)                              // to the lobby room
    | ReceiveChallenge(to: Sid, challengerId: Uid, challengerName: string)
    | ChallengeDeclined(to: Sid, responderName: string)              // "<name> declined."
    | GameStart(to: Sid, room: RoomId, opponent: string, role: Role)
    | UpdateBoard(room: RoomId, row: int, col: int, color: int, nextTurn: Uid)
    | GameOver(room: RoomId, winner: Uid)

  class Server {
    /** connected_users: socket id to user id, keys in insertion order in `sids`. */
    var connected: map<Sid, Uid>
    var sids: seq<Sid>
    /** games: room to live game, keys in insertion order in `rooms`. */
    var games: map<RoomId, Game>
    var rooms: seq<RoomId>
    /** The rows handed to record_game_result, oldest first. */
    var results: seq<GameResult>

    /** The boards of the live games. */
    function Boards(): set<array2<int>>
      reads this`games
    {
      set r | r in games :: games[r].board
    }

    /** Every key order lists exactly the keys of its dictionary, once each. */
    ghost predicate Indexed()
      reads this`sids, this`connected, this`rooms, this`games
    {
      && Distinct(sids) && (forall s :: s in sids <==> s in connected)
      && Distinct(rooms) && (forall r :: r in rooms <==> r in games)
    }

    /** A live game is stored under the room of its two players, and no two rooms
        share a game or a board. */
    ghost predicate RoomsWellFormed()
      reads this`games
    {
      && (forall r :: r in games ==> r == RoomFor(games[r].black, games[r].white))
      && (forall r, q :: r in games && q in games && r != q ==>
            games[r] != games[q] && games[r].board != games[q].board)
    }

    /** Every live game is valid. */
    ghost predicate GamesValid()
      reads this`games, games.Values, Boards()
    {
      forall r :: r in games ==> games[r].Valid()
    }

    ghost predicate Valid()
      reads this, games.Values, Boards()
    {
      Indexed() && RoomsWellFormed() && GamesValid()
    }

    /** The server as it starts: nobody connected, no games. */
    constructor ()
      ensures Valid()
      ensures connected == map[] && sids == [] && games == map[] && rooms == [] && results == []
    {
      connected, sids := map[], [];
      games, rooms := map[], [];
      results := [];
    }

    /** The user list emit_user_list sends, for the user table `names`. */
    ghost function Snapshot(names: map<Uid, string>): seq<Entry>
      reads this
      requires Indexed()
    {
      Listing(sids, connected, names, Seats(rooms, games))
    }

    /** The lobby list never disagrees with the games: a listed user is playing
        exactly when they are black or white in some live game, and then the room
        shown is one of their games. The list holds every connected user the user
        table knows, and nobody else, once each. */
    lemma SnapshotConsistent(names: map<Uid, string>)
      requires Valid()
      ensures forall e :: e in Snapshot(names) ==>
        && (e.status.Playing? <==> exists r :: r in games && Seated(games[r], e.id))
        && (e.status.Playing? ==> e.status.room in games && Seated(games[e.status.room], e.id))
      ensures forall u :: u in ListedIds(Snapshot(names)) <==>
        u in names && exists s :: s in connected && connected[s] == u
      ensures forall i, j :: 0 <= i < j < |Snapshot(names)| ==> Snapshot(names)[i].id != Snapshot(names)[j].id
    {
      var seats := Seats(rooms, games);
      ListingContents(sids, connected, names, seats);
      forall e | e in Snapshot(names)
        ensures (e.status.Playing? <==> exists r :: r in games && Seated(games[r], e.id))
        ensures e.status.Playing? ==> e.status.room in games && Seated(games[e.status.room], e.id)
      {
        SeatsAreLastRoom(rooms, games, e.id);
        if exists r :: r in games && Seated(games[r], e.id) {
          var r :| r in games && Seated(games[r], e.id);
          var k :| 0 <= k < |rooms| && rooms[k] == r;
          assert Seated(games[rooms[k]], e.id);
        }
      }
      forall u
        ensures (u in SeenUids(sids, connected)) <==> exists s :: s in connected && connected[s] == u
      {
        if exists s :: s in connected && connected[s] == u {
          var s :| s in connected && connected[s] == u;
          assert s in sids;
        }
      }
    }

    /** handle_connect: an authenticated connection is registered under its sid
        (a known sid keeps its place in the order) and the lobby gets the new list;
        an anonymous one changes nothing. */
    method Connect(sid: Sid, user: Option<Uid>, names: map<Uid, string>) returns (events: seq<Event>)
      requires Valid()
      modifies this
      ensures Valid()
      ensures games == old(games) && rooms == old(rooms) && results == old(results)
      ensures user.None? ==> connected == old(connected) && sids == old(sids) && events == []
      ensures user.Some? ==>
        && connected == old(connected)[sid := user.value]
        && sids == (if sid in old(connected) then old(sids) else old(sids) + [sid])
        && events == [UpdateUserList(Snapshot(names))]
    {
      if user.None? {
        return [];
      }
      if sid !in connected {
        sids := sids + [sid];
      }
      connected := connected[sid := user.value];
      var list := UserList(names);
      events := [UpdateUserList(list)];
    }

    /** handle_disconnect: a known sid is dropped and the lobby gets the new list;
        an unknown sid changes nothing. */
    method Disconnect(sid: Sid, names: map<Uid, string>) returns (events: seq<Event>)
      requires Valid()
      modifies this
      ensures Valid()
      ensures games == old(games) && rooms == old(rooms) && results == old(results)
      ensures sid !in old(connected) ==> connected == old(connected) && sids == old(sids) && events == []
      ensures sid in old(connected) ==>
        && connected == old(connected) - {sid}
        && sids == Without(old(sids), sid)
        && events == [UpdateUserList(Snapshot(names))]
    {
      if sid !in connected {
        return [];
      }
      connected := connected - {sid};
      sids := Without(sids, sid);
      var list := UserList(names);
      events := [UpdateUserList(list)];
    }

    /** The loop both challenge handlers run: the first sid, in insertion order,
        that belongs to `uid`. */
    method FindSid(uid: Uid) returns (found: Option<Sid>)
      requires Indexed()
      ensures found == FirstMatch(sids, connected, uid)
    {
      var i := 0;
      while i < |sids|
        invariant 0 <= i <= |sids|
        invariant FirstMatch(sids[i..], connected, uid) == FirstMatch(sids, connected, uid)
      {
        if connected[sids[i]] == uid {
          return Some(sids[i]);
        }
        assert sids[i..][1..] == sids[i + 1..];
        i := i + 1;
      }
      return None;
    }

    /** emit_user_list: map each player to the room of their game, then list each
        connected user once, in order of first connection. */
    method UserList(names: map<Uid, string>) returns (list: seq<Entry>)
      requires Indexed()
      ensures list == Listing(sids, connected, names, Seats(rooms, games))
    {
      var playing := PlayingUsers();
      list := ActiveUsers(names, playing);
    }

    /** The first loop of emit_user_list: `playing_users`, each player of each game
        mapped to its room, a later room overwriting an earlier one. */
    method PlayingUsers() returns (playing: map<Uid, RoomId>)
      requires Indexed()
      ensures playing == Seats(rooms, games)
    {
      playing := map[];
      var i := 0;
      while i < |rooms|
        invariant 0 <= i <= |rooms|
        invariant playing == Seats(rooms[..i], games)
      {
        var game := games[rooms[i]];
        playing := playing[game.black := rooms[i]];
        playing := playing[game.white := rooms[i]];
        assert rooms[..i + 1][..i] == rooms[..i];
        i := i + 1;
      }
      assert rooms[..|rooms|] == rooms;
    }

    /** The second loop of emit_user_list: `active_users`, built with the set
        `seen_ids` so that each user is listed at their first connection only. */
    method ActiveUsers(names: map<Uid, string>, playing: map<Uid, RoomId>) returns (list: seq<Entry>)
      requires Indexed()
      ensures list == Listing(sids, connected, names, playing)
    {
      list := [];
      var seen: set<Uid> := {};
      var j := 0;
      while j < |sids|
        invariant 0 <= j <= |sids|
        invariant seen == SeenUids(sids[..j], connected)
        invariant list == Listing(sids[..j], connected, names, playing)
      {
        var uid := connected[sids[j]];
        assert sids[..j + 1][..j] == sids[..j];
        assert SeenUids(sids[..j + 1], connected) == seen + {uid} by {
          assert sids[..j + 1] == sids[..j] + [sids[j]];
        }
        if uid !in seen {
          if uid in names {
            list := list + [EntryFor(uid, names[uid], playing)];
          }
          seen := seen + {uid};
        }
        j := j + 1;
      }
      assert sids[..|sids|] == sids;
    }

    /** handle_challenge: the challenge goes to the target's first sid, and is
        dropped when the target is not connected. Nothing is stored. */
    method Challenge(me: User, target: Uid) returns (events: seq<Event>)
      requires Valid()
      ensures FirstMatch(sids, connected, target).None? ==> events == []
      ensures FirstMatch(sids, connected, target).Some? ==>
        events == [ReceiveChallenge(FirstMatch(sids, connected, target).value, me.id, me.nickname)]
    {
      var targetSid := FindSid(target);
      if targetSid.Some? {
        events := [ReceiveChallenge(targetSid.value, me.id, me.nickname)];
      } else {
        events := [];
      }
    }

    /** handle_challenge_response, answered by `me` from socket `mySid`. When the
        challenger is still connected and the answer is yes, the room of the pair
        gets a fresh game with the challenger as black and to move; a room the
        pair already had keeps its place in the order but its game is replaced.
        A refusal is reported to the challenger; a vanished challenger makes the
        answer a no-op. When the user table has no row for the challenger the
        handler stops right after telling the challenger the game has started. */
    method ChallengeResponse(me: User, mySid: Sid, challenger: Uid, accepted: bool, names: map<Uid, string>)
      returns (events: seq<Event>)
      requires Valid()
      modifies this`games, this`rooms
      ensures Valid()
      ensures FirstMatch(sids, connected, challenger).None? ==>
        events == [] && games == old(games) && rooms == old(rooms)
      ensures FirstMatch(sids, connected, challenger).Some? && !accepted ==>
        && games == old(games) && rooms == old(rooms)
        && events == [ChallengeDeclined(FirstMatch(sids, connected, challenger).value, me.nickname)]
      ensures FirstMatch(sids, connected, challenger).Some? && accepted ==>
        var room := RoomFor(me.id, challenger);
        && room in games && fresh(games[room]) && fresh(games[room].board)
        && games == old(games)[room := games[room]]
        && rooms == (if room in old(games) then old(rooms) else old(rooms) + [room])
        && games[room].Opening(challenger, me.id)
        && events == [GameStart(FirstMatch(sids, connected, challenger).value, room, me.nickname, Black)]
             + (if challenger in names
                then [GameStart(mySid, room, names[challenger], White), UpdateUserList(Snapshot(names))]
                else [])
    {
      var challengerSid := FindSid(challenger);
      if accepted && challengerSid.Some? {
        events := StartGame(me, mySid, challenger, challengerSid.value, names);
      } else if challengerSid.Some? {
        events := [ChallengeDeclined(challengerSid.value, me.nickname)];
      } else {
        events := [];
      }
    }

    /** The accepting branch of handle_challenge_response: the pair's room gets a
        new game with the challenger as black and to move, both players are told
        their colour, and the lobby gets the new list. A challenger missing from
        the user table makes the handler fail after the first message. */
    method StartGame(me: User, mySid: Sid, challenger: Uid, challengerSid: Sid, names: map<Uid, string>)
      returns (events: seq<Event>)
      requires Valid()
      modifies this`games, this`rooms
      ensures Valid()
      ensures var room := RoomFor(me.id, challenger);
        && room in games && fresh(games[room]) && fresh(games[room].board)
        && games == old(games)[room := games[room]]
        && rooms == (if room in old(games) then old(rooms) else old(rooms) + [room])
        && games[room].Opening(challenger, me.id)
        && events == [GameStart(challengerSid, room, me.nickname, Black)]
             + (if challenger in names
                then [GameStart(mySid, room, names[challenger], White), UpdateUserList(Snapshot(names))]
                else [])
    {
      var room := RoomFor(me.id, challenger);
      var game := new Game(challenger, me.id);
      Register(room, game);
      events := [GameStart(challengerSid, room, me.nickname, Black)];
      if challenger !in names {
        return;
      }
      events := events + [GameStart(mySid, room, names[challenger], White)];
      var list := UserList(names);
      events := events + [UpdateUserList(list)];
    }

    /** `games[room] = game`: a new room goes to the end of the key order, a room
        already present keeps its place and has its game replaced. */
    method Register(room: RoomId, game: Game)
      requires Valid() && game.Valid() && room == RoomFor(game.black, game.white)
      requires game !in games.Values && game.board !in Boards()
      modifies this`games, this`rooms
      ensures Valid()
      ensures games == old(games)[room := game]
      ensures rooms == if room in old(games) then old(rooms) else old(rooms) + [room]
    {
      if room !in games {
        rooms := rooms + [room];
      }
      games := games[room := game];
    }

    /** The objects a move in `room` may write: the game and its board. */
    function MoveFrame(room: RoomId): set<object>
      reads this
    {
      if room in games then {games[room], games[room].board} else {}
    }

    /** A move by `uid` at (row, col) in `room` is taken: the room is live, it is
        `uid`'s turn and the cell is empty. */
    ghost predicate Accepts(room: RoomId, uid: Uid, row: int, col: int)
      reads this, games.Values, Boards()
      requires Valid() && OnBoard(row, col)
    {
      room in games && games[room].turn == uid && games[room].board[row, col] == Empty
    }

    /** handle_place_stone. A rejected move changes nothing and emits nothing. An
        accepted one writes the mover's stone into that one cell, hands the turn
        to the other player, and announces the move; when it completes five in a
        row the result is recorded, the game is announced over and the room is
        removed, every other room left as it was. */
    method PlaceStone(uid: Uid, room: RoomId, row: int, col: int) returns (events: seq<Event>)
      requires Valid()
      requires OnBoard(row, col)
      modifies this`games, this`rooms, this`results, MoveFrame(room)
      ensures Valid()
      ensures !old(Accepts(room, uid, row, col)) ==>
        events == [] && unchanged(this) && unchanged(old(MoveFrame(room)))
      ensures old(Accepts(room, uid, row, col)) ==>
        var game := old(games[room]);
        var stone := game.StoneOf(uid);
        var won := Wins(game.board, stone, row, col);
        && game.board[row, col] == stone
        && (forall i, j :: 0 <= i < Size && 0 <= j < Size && (i != row || j != col) ==>
              game.board[i, j] == old(game.board[i, j]))
        && game.turn == game.Opponent(old(game.turn))
        && events == [UpdateBoard(room, row, col, stone, game.turn)] + (if won then [GameOver(room, uid)] else [])
        && (won ==> games == old(games) - {room} && rooms == Without(old(rooms), room)
                    && results == old(results) + [GameResult(game.black, game.white, uid)])
        && (!won ==> games == old(games) && rooms == old(rooms) && results == old(results))
      ensures forall r :: r in old(games) && r != room ==>
        r in games && games[r] == old(games[r]) && games[r].turn == old(games[r].turn)
    {
      if room !in games {
        return [];
      }
      var game := games[room];
      if game.turn != uid {
        return [];
      }
      if game.board[row, col] != Empty {
        return [];
      }
      var won := game.Play(uid, row, col);
      forall r | r in games
        ensures games[r].Valid()
      {
        if r != room {
          assert games[r] != game && games[r].board != game.board;
        }
      }
      events := [UpdateBoard(room, row, col, game.StoneOf(uid), game.turn)];
      if won {
        results := results + [GameResult(game.black, game.white, uid)];
        events := events + [GameOver(room, uid)];
        Close(room);
      }
    }

    /** `del games[room]`: the room leaves the dictionary and its key order. */
    method Close(room: RoomId)
      requires Valid() && room in games
      modifies this`games, this`rooms
      ensures Valid()
      ensures games == old(games) - {room} && rooms == Without(old(rooms), room)
    {
      games := games - {room};
      rooms := Without(rooms, room);
    }
  }
}
