/** The WebSocket registry of game rooms: nested dictionaries that stand for a flat set of triples. */
module Registry {
  import opened Domain

  type Socket = nat
  type Connections = map<RoomId, map<UserId, set<Socket>>>

  predicate Connected(c: Connections, r: RoomId, u: UserId, w: Socket) {
    r in c && u in c[r] && w in c[r][u]
  }

  /** No room without users and no user without sockets. */
  ghost predicate Tidy(c: Connections) {
    forall r | r in c :: c[r] != map[] && forall u | u in c[r] :: c[r][u] != {}
  }

  lemma TidyUser(c: Connections, d: Connections, r: RoomId, u: UserId)
    requires Tidy(c) && r in c && u in c[r]
    requires forall q, v, w :: Connected(c, q, v, w) <==> Connected(d, q, v, w)
    ensures r in d && u in d[r] && c[r][u] == d[r][u]
  {
    var w :| w in c[r][u];
    assert Connected(c, r, u, w);
    assert Connected(d, r, u, w);
    forall x ensures x in c[r][u] <==> x in d[r][u] {
      assert Connected(c, r, u, x) <==> Connected(d, r, u, x);
    }
  }

  lemma TidyRoom(c: Connections, d: Connections, r: RoomId)
    requires Tidy(c) && Tidy(d) && r in c
    requires forall q, v, w :: Connected(c, q, v, w) <==> Connected(d, q, v, w)
    ensures r in d && c[r] == d[r]
  {
    var u :| u in c[r];
    TidyUser(c, d, r, u);
    forall v | v in c[r] ensures v in d[r] && c[r][v] == d[r][v] { TidyUser(c, d, r, v); }
    forall v | v in d[r] ensures v in c[r] { TidyUser(d, c, r, v); }
  }

  /** A tidy registry is fixed by the triples it stands for. */
  lemma TidyIsCanonical(c: Connections, d: Connections)
    requires Tidy(c) && Tidy(d)
    requires forall r, u, w :: Connected(c, r, u, w) <==> Connected(d, r, u, w)
    ensures c == d
  {
    forall r | r in c ensures r in d && c[r] == d[r] { TidyRoom(c, d, r); }
    forall r | r in d ensures r in c { TidyRoom(d, c, r); }
  }

  /** Replacing a room's entry, or dropping it when nothing is left, changes that room only. */
  lemma Disconnected(c: Connections, room: RoomId, present: map<UserId, set<Socket>>, user: UserId, socket: Option<Socket>)
    requires Tidy(c) && room in c
    requires forall u | u != user :: (u in present <==> u in c[room]) && (u in present ==> present[u] == c[room][u])
    requires forall w :: (user in present && w in present[user]) <==>
      user in c[room] && w in c[room][user] && socket.Some? && w != socket.value
    ensures var d := if present == map[] then c - {room} else c[room := present];
      forall r, u, w :: Connected(d, r, u, w) <==>
        Connected(c, r, u, w) && !(r == room && u == user && (socket.None? || w == socket.value))
  {
    var d := if present == map[] then c - {room} else c[room := present];
    forall r, u, w ensures Connected(d, r, u, w) <==>
      Connected(c, r, u, w) && !(r == room && u == user && (socket.None? || w == socket.value))
    {
      assert u in present ==> present != map[];
    }
  }

  class WebSocketManager {
    var connections: Connections

    ghost predicate Valid()
      reads this
    {
      Tidy(connections)
    }

    constructor ()
      ensures Valid() && forall r, u, w :: !Connected(connections, r, u, w)
    {
      connections := map[];
    }

    method Connect(room: RoomId, user: UserId, socket: Socket)
      requires Valid()
      modifies this
      ensures Valid()
      ensures forall r, u, w :: Connected(connections, r, u, w) <==>
        Connected(old(connections), r, u, w) || (r == room && u == user && w == socket)
    {
      if room !in connections {
        connections := connections[room := map[]];
      }
      var present: map<UserId, set<Socket>> := connections[room];
      present := present[user := (if user in present then present[user] else {}) + {socket}];
      connections := connections[room := present];
    }

    /** Without a socket all of the user's connections in the room go; entries left empty go with them. */
    method Disconnect(room: RoomId, user: UserId, socket: Option<Socket>)
      requires Valid()
      modifies this
      ensures Valid()
      ensures forall r, u, w :: Connected(connections, r, u, w) <==>
        Connected(old(connections), r, u, w) && !(r == room && u == user && (socket.None? || w == socket.value))
    {
      if room !in connections {
        return;
      }
      var present: map<UserId, set<Socket>> := connections[room];
      if user in present {
        if socket.Some? {
          present := present[user := present[user] - {socket.value}];
        }
        if socket.None? || present[user] == {} {
          assert socket.Some? ==> forall w | w in connections[room][user] :: w in present[user] || w == socket.value;
          present := present - {user};
        }
      }
      assert forall w :: (user in present && w in present[user]) <==>
        user in old(connections)[room] && w in old(connections)[room][user] && socket.Some? && w != socket.value;
      if present == map[] {
        connections := connections - {room};
      } else {
        connections := connections[room := present];
      }
      Disconnected(old(connections), room, present, user, socket);
    }

    /** The sockets a message to one user goes to. */
    method SendToUser(room: RoomId, user: UserId) returns (sockets: set<Socket>)
      ensures forall w :: w in sockets <==> Connected(connections, room, user, w)
    {
      if room in connections && user in connections[room] {
        return connections[room][user];
      }
      return {};
    }

    /** The sockets a message to several users goes to. */
    method SendToUsers(room: RoomId, users: seq<UserId>) returns (sockets: set<Socket>)
      ensures forall w :: w in sockets <==> exists u :: u in users && Connected(connections, room, u, w)
    {
      sockets := {};
      var i := 0;
      while i < |users|
        invariant 0 <= i <= |users|
        invariant forall w :: w in sockets <==> exists u :: u in users[..i] && Connected(connections, room, u, w)
      {
        var more := SendToUser(room, users[i]);
        assert users[..i + 1] == users[..i] + [users[i]];
        sockets := sockets + more;
        i := i + 1;
      }
      assert users[..|users|] == users;
    }

    /** The sockets a broadcast goes to: everybody connected in the room, and nobody else. */
    method Broadcast(room: RoomId) returns (sockets: set<Socket>)
      ensures forall w :: w in sockets <==> exists u :: Connected(connections, room, u, w)
    {
      sockets := {};
      if room in connections {
        var left := connections[room].Keys;
        while left != {}
          invariant left <= connections[room].Keys
          invariant forall w :: w in sockets <==>
            exists u :: u in connections[room].Keys - left && Connected(connections, room, u, w)
          decreases |left|
        {
          var u :| u in left;
          var more := SendToUser(room, u);
          assert connections[room].Keys - (left - {u}) == (connections[room].Keys - left) + {u};
          sockets := sockets + more;
          left := left - {u};
        }
      }
    }
  }
}
