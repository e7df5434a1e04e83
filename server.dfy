/** The Socket.IO connection handler of server/server.js: the presence table
    `userSocketMap` (user id to socket id), the open connections with the `userId` each one
    captured at connect, and the log of events the server emits. */
module Server {
  import opened Wrappers
  import opened MessageStore

  /** The property key JavaScript uses for `userSocketMap[userId]`: an absent handshake
      `userId` is `undefined`, which becomes the key "undefined". */
  function PropertyKey(userId: Option<string>): string
  {
    match userId
    case Some(u) => u
    case None => "undefined"
  }

  /** What the presence table has been through: each connect with its handshake `userId`
      and socket id, each disconnect with the `userId` its connection captured. */
  datatype PresenceEvent =
    | Connected(userId: Option<string>, socketId: string)
    | Disconnected(userId: Option<string>)

  /** The effect of one event on the table (server.js:33 and :39). */
  function Step(table: map<string, string>, e: PresenceEvent): map<string, string>
  {
    match e
    case Connected(u, s) => if Truthy(u) then table[u.value := s] else table
    case Disconnected(u) => table - {PropertyKey(u)}
  }

  /** The table after a history of events, starting from the empty object of server.js:27. */
  function Replay(h: seq<PresenceEvent>): map<string, string>
  {
    if h == [] then map[] else Step(Replay(h[..|h| - 1]), h[|h| - 1])
  }

  /** Whether event `e` writes or deletes the table key `k`. */
  predicate Touches(e: PresenceEvent, k: string)
  {
    match e
    case Connected(u, _) => Truthy(u) && u.value == k
    case Disconnected(u) => PropertyKey(u) == k
  }

  /** `h[i]` is the most recent event of `h` that touches `k`. */
  ghost predicate LastTouchAt(h: seq<PresenceEvent>, k: string, i: int)
  {
    0 <= i < |h| && Touches(h[i], k) && forall j :: i < j < |h| ==> !Touches(h[j], k)
  }

  /** Independent statement of presence: the most recent event touching `k` is a connect. */
  ghost predicate OnlineAfter(h: seq<PresenceEvent>, k: string)
  {
    exists i :: LastTouchAt(h, k, i) && h[i].Connected?
  }

  /** Over any history, a user id is in the table iff its most recent event was a connect
      with that (truthy) id, and it then maps to that connect's socket id. */
  lemma {:induction false} ReplayIsLastTouch(h: seq<PresenceEvent>, k: string)
    ensures k in Replay(h) <==> OnlineAfter(h, k)
    ensures forall i :: k in Replay(h) && LastTouchAt(h, k, i) ==> Replay(h)[k] == h[i].socketId
  {
    if h != [] {
      var n := |h| - 1;
      var prefix := h[..n];
      ReplayIsLastTouch(prefix, k);
      var e := h[n];
      if Touches(e, k) {
        assert LastTouchAt(h, k, n);
        forall i | LastTouchAt(h, k, i)
          ensures i == n
        {
        }
        if e.Connected? {
          assert Replay(h) == Replay(prefix)[e.userId.value := e.socketId];
        }
      } else {
        assert k in Replay(h) <==> k in Replay(prefix);
        assert k in Replay(h) ==> Replay(h)[k] == Replay(prefix)[k];
        forall i
          ensures LastTouchAt(h, k, i) <==> LastTouchAt(prefix, k, i)
        {
        }
        if OnlineAfter(prefix, k) {
          var i :| LastTouchAt(prefix, k, i) && prefix[i].Connected?;
          assert LastTouchAt(h, k, i);
        }
      }
    }
  }

  /** Two connects of the same user followed by the disconnect of the FIRST (stale) socket
      leave that user absent from the table, although the newer socket is still open. */
  lemma StaleDisconnectRemovesUser(h: seq<PresenceEvent>, u: string, s1: string, s2: string)
    requires u != ""
    ensures u !in Replay(h + [Connected(Some(u), s1), Connected(Some(u), s2), Disconnected(Some(u))])
  {
    var h3 := h + [Connected(Some(u), s1), Connected(Some(u), s2), Disconnected(Some(u))];
    assert h3[..|h3| - 1] == h + [Connected(Some(u), s1), Connected(Some(u), s2)];
  }

  /** Deleting a key that is not in the table leaves it as it was (server.js:39). */
  lemma DisconnectOfAbsentKeyIsNoOp(table: map<string, string>, u: Option<string>)
    requires PropertyKey(u) !in table
    ensures Step(table, Disconnected(u)) == table
  {
  }

  /** An event the server sends out. */
  datatype Event =
      /** `io.emit("getOnlineUsers", Object.keys(userSocketMap))`: to every open socket. */
    | GetOnlineUsers(recipients: set<string>, online: set<string>)
      /** `io.to(socketId).emit("newMessage", message)`. */
    | NewMessage(socketId: string, message: Message)

  class SocketServer {
    /** The exported presence table of server.js:27: user id to socket id. */
    var userSocketMap: map<string, string>
    /** The open sockets, each with the handshake `userId` its disconnect handler captured. */
    var connections: map<string, Option<string>>
    /** Every event emitted so far, oldest first. */
    var emitted: seq<Event>
    /** Every connect and disconnect so far, oldest first. */
    ghost var history: seq<PresenceEvent>

    /** The table is what the history produced; every entry points at an open socket whose
        own handshake named that user (so no two users share a socket, and a push through
        the table always reaches a live connection). */
    ghost predicate Valid()
      reads this
    {
      && userSocketMap == Replay(history)
      && "" !in connections
      && forall k :: k in userSocketMap ==>
           userSocketMap[k] in connections && connections[userSocketMap[k]] == Some(k)
    }

    constructor ()
      ensures Valid()
      ensures userSocketMap == map[] && connections == map[] && emitted == [] && history == []
    {
      userSocketMap := map[];
      connections := map[];
      emitted := [];
      history := [];
    }

    /** `io.on("connection", …)` for a new socket: register a truthy `userId`, replacing any
        earlier socket of that user, then broadcast the key set to every open socket. */
    method Connect(userId: Option<string>, socketId: string)
      requires Valid()
      requires socketId != "" && socketId !in connections
      modifies this
      ensures Valid()
      ensures history == old(history) + [Connected(userId, socketId)]
      ensures connections == old(connections)[socketId := userId]
      ensures userSocketMap == if Truthy(userId) then old(userSocketMap)[userId.value := socketId]
                               else old(userSocketMap)
      ensures emitted == old(emitted) + [GetOnlineUsers(connections.Keys, userSocketMap.Keys)]
    {
      if userId.Some? && userId.value != "" {
        userSocketMap := userSocketMap[userId.value := socketId];
      }
      connections := connections[socketId := userId];
      history := history + [Connected(userId, socketId)];
      assert history[..|history| - 1] == old(history);
      emitted := emitted + [GetOnlineUsers(connections.Keys, userSocketMap.Keys)];
    }

    /** The socket's `disconnect` handler: delete the key its captured `userId` names, with
        no check that the entry still belongs to this socket, then broadcast the key set to
        the sockets still open. */
    method Disconnect(socketId: string)
      requires Valid()
      requires socketId in connections
      modifies this
      ensures Valid()
      ensures history == old(history) + [Disconnected(old(connections)[socketId])]
      ensures connections == old(connections) - {socketId}
      ensures userSocketMap == old(userSocketMap) - {PropertyKey(old(connections)[socketId])}
      ensures emitted == old(emitted) + [GetOnlineUsers(connections.Keys, userSocketMap.Keys)]
    {
      var userId := connections[socketId];
      userSocketMap := userSocketMap - {PropertyKey(userId)};
      connections := connections - {socketId};
      history := history + [Disconnected(userId)];
      assert history[..|history| - 1] == old(history);
      emitted := emitted + [GetOnlineUsers(connections.Keys, userSocketMap.Keys)];
    }

    /** `io.to(socketId).emit("newMessage", message)`. */
    method EmitNewMessage(socketId: string, message: Message)
      requires Valid()
      modifies this`emitted
      ensures Valid()
      ensures emitted == old(emitted) + [NewMessage(socketId, message)]
    {
      emitted := emitted + [NewMessage(socketId, message)];
    }
  }

  /** After any run of connects and disconnects, the last broadcast names exactly the users
      whose most recent event was a connect, each once (it is a key set). */
  lemma BroadcastIsOnlineSet(server: SocketServer, k: string)
    requires server.Valid()
    ensures k in server.userSocketMap.Keys <==> OnlineAfter(server.history, k)
  {
    ReplayIsLastTouch(server.history, k);
  }
}
