/** What the lobby sees: the sid of a user, the users in a game, and the user
    list broadcast to the lobby (emit_user_list). Dictionaries are given as a map
    together with the order Python iterates their keys in. */
module Lobby {
  import opened Collections
  import opened Sessions

  /** A socket id. */
  type Sid = string

  /** Whether a listed user is in a game, and in which room. */
  datatype Status = Free | Playing(room: RoomId)

  /** One entry of the user list: id, nickname, status and room. */
  datatype Entry = Entry(id: Uid, nickname: string, status: Status)

  /** The first sid, in iteration order, registered to `uid`: the scan with `break`
      that handle_challenge and handle_challenge_response both run. */
  function FirstMatch(sids: seq<Sid>, users: map<Sid, Uid>, uid: Uid): Option<Sid>
    requires forall s :: s in sids ==> s in users
  {
    if sids == [] then None
    else if users[sids[0]] == uid then Some(sids[0])
    else FirstMatch(sids[1..], users, uid)
  }

  /** FirstMatch finds a sid of `uid` with no earlier sid of `uid` before it,
      and finds none only when no listed sid belongs to `uid`. */
  lemma {:induction false} FirstMatchIsFirst(sids: seq<Sid>, users: map<Sid, Uid>, uid: Uid)
    requires forall s :: s in sids ==> s in users
    ensures FirstMatch(sids, users, uid).None? <==> forall s :: s in sids ==> users[s] != uid
    ensures FirstMatch(sids, users, uid).Some? ==>
      exists k :: 0 <= k < |sids| && sids[k] == FirstMatch(sids, users, uid).value
        && users[sids[k]] == uid && forall j :: 0 <= j < k ==> users[sids[j]] != uid
  {
    if sids != [] && users[sids[0]] != uid {
      FirstMatchIsFirst(sids[1..], users, uid);
      assert forall s :: s in sids ==> s == sids[0] || s in sids[1..];
      if FirstMatch(sids, users, uid).Some? {
        var k :| 0 <= k < |sids[1..]| && sids[1..][k] == FirstMatch(sids, users, uid).value
          && users[sids[1..][k]] == uid && forall j :: 0 <= j < k ==> users[sids[1..][j]] != uid;
        assert forall j :: 0 <= j < k + 1 ==> users[sids[j]] != uid by {
          forall j | 0 <= j < k + 1 ensures users[sids[j]] != uid {
            if j > 0 { assert sids[j] == sids[1..][j - 1]; }
          }
        }
      }
    }
  }

  /** `uid` plays black or white in game `g`. */
  predicate Seated(g: Game, uid: Uid)
  {
    g.black == uid || g.white == uid
  }

  /** playing_users: every player of every game mapped to its room, the games
      taken in iteration order so that a later room overwrites an earlier one. */
  function Seats(rooms: seq<RoomId>, games: map<RoomId, Game>): map<Uid, RoomId>
    requires forall r :: r in rooms ==> r in games
  {
    if rooms == [] then map[]
    else
      var last := rooms[|rooms| - 1];
      Seats(rooms[..|rooms| - 1], games)[games[last].black := last][games[last].white := last]
  }

  /** A user has a seat exactly when they play in some game, and the room recorded
      is the last room in iteration order in which they play. */
  lemma {:induction false} SeatsAreLastRoom(rooms: seq<RoomId>, games: map<RoomId, Game>, uid: Uid)
    requires forall r :: r in rooms ==> r in games
    ensures uid in Seats(rooms, games) <==> exists k :: 0 <= k < |rooms| && Seated(games[rooms[k]], uid)
    ensures uid in Seats(rooms, games) ==>
      exists k :: 0 <= k < |rooms| && rooms[k] == Seats(rooms, games)[uid] && Seated(games[rooms[k]], uid)
        && forall j :: k < j < |rooms| ==> !Seated(games[rooms[j]], uid)
  {
    if rooms != [] {
      var n := |rooms| - 1;
      var pre := rooms[..n];
      SeatsAreLastRoom(pre, games, uid);
      if Seated(games[rooms[n]], uid) {
        assert Seats(rooms, games)[uid] == rooms[n];
      } else {
        assert uid in Seats(rooms, games) <==> uid in Seats(pre, games);
        assert (exists k :: 0 <= k < |rooms| && Seated(games[rooms[k]], uid))
           <==> (exists k :: 0 <= k < |pre| && Seated(games[pre[k]], uid)) by {
          if exists k :: 0 <= k < |rooms| && Seated(games[rooms[k]], uid) {
            var k :| 0 <= k < |rooms| && Seated(games[rooms[k]], uid);
            assert k < n && pre[k] == rooms[k];
          }
        }
        if uid in Seats(pre, games) {
          var k :| 0 <= k < |pre| && pre[k] == Seats(pre, games)[uid] && Seated(games[pre[k]], uid)
            && forall j :: k < j < |pre| ==> !Seated(games[pre[j]], uid);
          assert rooms[k] == pre[k];
          assert forall j :: k < j < |rooms| ==> !Seated(games[rooms[j]], uid) by {
            forall j | k < j < |rooms| ensures !Seated(games[rooms[j]], uid) {
              if j < n { assert rooms[j] == pre[j]; }
            }
          }
        }
      }
    }
  }

  /** The user ids behind a run of sids: the `seen_ids` of emit_user_list. */
  function SeenUids(sids: seq<Sid>, users: map<Sid, Uid>): set<Uid>
    requires forall s :: s in sids ==> s in users
  {
    set s | s in sids :: users[s]
  }

  /** The entry for a user the user table knows. */
  function EntryFor(uid: Uid, nickname: string, seats: map<Uid, RoomId>): Entry
  {
    Entry(uid, nickname, if uid in seats then Playing(seats[uid]) else Free)
  }

  /** active_users after the connections `sids` have been visited: a user is
      listed at their first connection, and only if the user table knows them. */
  function Listing(sids: seq<Sid>, users: map<Sid, Uid>, names: map<Uid, string>, seats: map<Uid, RoomId>): seq<Entry>
    requires forall s :: s in sids ==> s in users
  {
    if sids == [] then []
    else
      var pre := sids[..|sids| - 1];
      var uid := users[sids[|sids| - 1]];
      if uid in SeenUids(pre, users) || uid !in names then Listing(pre, users, names, seats)
      else Listing(pre, users, names, seats) + [EntryFor(uid, names[uid], seats)]
  }

  /** The ids the user list shows. */
  function ListedIds(list: seq<Entry>): set<Uid>
  {
    set e | e in list :: e.id
  }

  /** The list shows exactly the connected users the user table knows, each once,
      each with their nickname and their seat, or free when they have none. */
  lemma {:induction false} ListingContents(sids: seq<Sid>, users: map<Sid, Uid>, names: map<Uid, string>, seats: map<Uid, RoomId>)
    requires forall s :: s in sids ==> s in users
    ensures forall u :: u in ListedIds(Listing(sids, users, names, seats)) <==> u in names && u in SeenUids(sids, users)
    ensures forall i, j :: 0 <= i < j < |Listing(sids, users, names, seats)| ==>
      Listing(sids, users, names, seats)[i].id != Listing(sids, users, names, seats)[j].id
    ensures forall e :: e in Listing(sids, users, names, seats) ==> e == EntryFor(e.id, names[e.id], seats)
  {
    if sids != [] {
      var pre := sids[..|sids| - 1];
      var s := sids[|sids| - 1];
      ListingContents(pre, users, names, seats);
      assert sids == pre + [s];
      assert SeenUids(sids, users) == SeenUids(pre, users) + {users[s]};
    }
  }

  /** The index of the first sid of `uid`, for a user who has one. */
  function FirstIndex(sids: seq<Sid>, users: map<Sid, Uid>, uid: Uid): (k: nat)
    requires forall s :: s in sids ==> s in users
    requires uid in SeenUids(sids, users)
    ensures k < |sids| && users[sids[k]] == uid
  {
    if users[sids[0]] == uid then 0
    else
      assert uid in SeenUids(sids[1..], users) by {
        var s :| s in sids && users[s] == uid;
        assert s != sids[0] && s in sids[1..];
      }
      1 + FirstIndex(sids[1..], users, uid)
  }

  /** Appending a sid leaves the first index of every user already seen alone. */
  lemma {:induction false} FirstIndexAppend(pre: seq<Sid>, s: Sid, users: map<Sid, Uid>, uid: Uid)
    requires forall x :: x in pre + [s] ==> x in users
    requires uid in SeenUids(pre + [s], users)
    ensures uid in SeenUids(pre, users) ==> FirstIndex(pre + [s], users, uid) == FirstIndex(pre, users, uid)
    ensures uid !in SeenUids(pre, users) ==> FirstIndex(pre + [s], users, uid) == |pre|
  {
    if pre != [] && users[pre[0]] != uid {
      assert (pre + [s])[1..] == pre[1..] + [s];
      assert uid in SeenUids(pre[1..] + [s], users) by {
        var x :| x in pre + [s] && users[x] == uid;
        assert x != pre[0];
      }
      assert uid in SeenUids(pre, users) ==> uid in SeenUids(pre[1..], users) by {
        if uid in SeenUids(pre, users) {
          var x :| x in pre && users[x] == uid;
          assert x != pre[0] && x in pre[1..];
        }
      }
      assert uid in SeenUids(pre[1..], users) ==> uid in SeenUids(pre, users);
      FirstIndexAppend(pre[1..], s, users, uid);
    }
  }

  /** Users appear in the order of their first connection. */
  lemma {:induction false} ListingOrder(sids: seq<Sid>, users: map<Sid, Uid>, names: map<Uid, string>, seats: map<Uid, RoomId>)
    requires forall s :: s in sids ==> s in users
    ensures forall e :: e in Listing(sids, users, names, seats) ==> e.id in SeenUids(sids, users)
    ensures forall i, j :: 0 <= i < j < |Listing(sids, users, names, seats)| ==>
      FirstIndex(sids, users, Listing(sids, users, names, seats)[i].id)
        < FirstIndex(sids, users, Listing(sids, users, names, seats)[j].id)
  {
    ListingContents(sids, users, names, seats);
    if sids != [] {
      var pre := sids[..|sids| - 1];
      var s := sids[|sids| - 1];
      assert sids == pre + [s];
      ListingOrder(pre, users, names, seats);
      ListingContents(pre, users, names, seats);
      var before := Listing(pre, users, names, seats);
      var after := Listing(sids, users, names, seats);
      assert SeenUids(sids, users) == SeenUids(pre, users) + {users[s]};
      forall e | e in before ensures FirstIndex(sids, users, e.id) == FirstIndex(pre, users, e.id) < |pre| {
        FirstIndexAppend(pre, s, users, e.id);
      }
      if after != before {
        var uid := users[s];
        assert after == before + [EntryFor(uid, names[uid], seats)];
        FirstIndexAppend(pre, s, users, uid);
        forall i, j | 0 <= i < j < |after|
          ensures FirstIndex(sids, users, after[i].id) < FirstIndex(sids, users, after[j].id)
        {
          if j < |before| {
            assert after[i] == before[i] && after[j] == before[j];
          } else {
            assert after[i] == before[i] && after[i] in before;
          }
        }
      } else {
        forall i, j | 0 <= i < j < |after|
          ensures FirstIndex(sids, users, after[i].id) < FirstIndex(sids, users, after[j].id)
        {
          assert after[i] in before && after[j] in before;
        }
      }
    }
  }
}
