/**
 * The connection registry of chat-backend/socket/socketHandlers.js: two
 * module-level dictionaries, `activeUsers` (user id to socket id) and
 * `userSockets` (socket id to user id), updated by the connection handler
 * and the disconnect handler. This module states the two updates as
 * functions on a pair of maps; the socket server's methods are proved to
 * perform exactly these updates.
 */
module Registry {
  import opened Models

  /** The connection parameters a client sends. Only `userId` is read;
      the administrator dashboard also sends `isAdmin`, which nothing reads. */
  datatype Handshake = Handshake(userId: Option<string>, isAdmin: Option<string>)

  /** A value the connection handler accepts as a user id: present, not
      empty, and neither of the strings "null" and "undefined". */
  predicate IsUserId(u: string) {
    u != "" && u != "null" && u != "undefined"
  }

  predicate Identifies(h: Handshake) {
    h.userId.Some? && IsUserId(h.userId.value)
  }

  datatype Connections = Connections(
    activeUsers: map<UserId, SocketId>,
    userSockets: map<SocketId, UserId>)

  /** Where a direct emit to a user goes: `activeUsers[userId]`. */
  function Lookup(c: Connections, u: UserId): Option<SocketId> {
    if u in c.activeUsers then Some(c.activeUsers[u]) else None
  }

  /** The user list broadcast as `activeUsers`: the keys of the map. */
  function Online(c: Connections): set<UserId> {
    c.activeUsers.Keys
  }

  /** Every online user's socket is registered back to that user, and every
      registered socket belongs to an accepted user id. The converse
      (every registered socket is its user's current one) does NOT hold:
      see StaleSocketAfterReconnect. */
  ghost predicate Consistent(c: Connections) {
    && (forall u :: u in c.activeUsers ==>
          c.activeUsers[u] in c.userSockets && c.userSockets[c.activeUsers[u]] == u)
    && (forall s :: s in c.userSockets ==> IsUserId(c.userSockets[s]))
  }

  /** The connection handler (socketHandlers.js:14-31). */
  function Connect(c: Connections, sid: SocketId, h: Handshake): (c': Connections)
    ensures !Identifies(h) ==> c' == c
    ensures Identifies(h) ==>
              && Lookup(c', h.userId.value) == Some(sid)
              && sid in c'.userSockets && c'.userSockets[sid] == h.userId.value
              && Online(c') == Online(c) + {h.userId.value}
              && (forall v :: v != h.userId.value ==> Lookup(c', v) == Lookup(c, v))
              && (forall s :: s != sid ==> (s in c'.userSockets <==> s in c.userSockets))
              && (forall s :: s != sid && s in c.userSockets ==> c'.userSockets[s] == c.userSockets[s])
  {
    if Identifies(h) then
      var u := h.userId.value;
      Connections(c.activeUsers[u := sid], c.userSockets[sid := u])
    else
      c
  }

  /** The disconnect handler's registry part (socketHandlers.js:295-298):
      the user registered for the socket goes offline, whatever socket that
      user's entry now points to. */
  function Disconnect(c: Connections, sid: SocketId): (c': Connections)
    ensures sid !in c.userSockets ==> c' == c
    ensures sid in c.userSockets ==>
              && Lookup(c', c.userSockets[sid]) == None
              && sid !in c'.userSockets
              && Online(c') == Online(c) - {c.userSockets[sid]}
              && (forall v :: v != c.userSockets[sid] ==> Lookup(c', v) == Lookup(c, v))
              && (forall s :: s != sid && s in c.userSockets ==>
                    s in c'.userSockets && c'.userSockets[s] == c.userSockets[s])
              && (forall s :: s in c'.userSockets ==> s in c.userSockets)
  {
    if sid in c.userSockets then
      var u := c.userSockets[sid];
      Connections(c.activeUsers - {u}, c.userSockets - {sid})
    else
      c
  }

  /** Connecting a socket that has never connected before keeps the
      registry consistent. */
  lemma ConnectKeepsConsistent(c: Connections, sid: SocketId, h: Handshake)
    requires Consistent(c) && sid !in c.userSockets
    ensures Consistent(Connect(c, sid, h))
  {
    if Identifies(h) {
      var u := h.userId.value;
      var c' := Connect(c, sid, h);
      forall v | v in c'.activeUsers
        ensures c'.activeUsers[v] in c'.userSockets && c'.userSockets[c'.activeUsers[v]] == v
      {
        if v != u {
          assert c.activeUsers[v] in c.userSockets;
          assert c.activeUsers[v] != sid;
        }
      }
    }
  }

  lemma DisconnectKeepsConsistent(c: Connections, sid: SocketId)
    requires Consistent(c)
    ensures Consistent(Disconnect(c, sid))
  {
    if sid in c.userSockets {
      var u := c.userSockets[sid];
      var c' := Disconnect(c, sid);
      forall v | v in c'.activeUsers
        ensures c'.activeUsers[v] in c'.userSockets && c'.userSockets[c'.activeUsers[v]] == v
      {
        assert v != u;
        assert c.userSockets[c.activeUsers[v]] == v;
      }
    }
  }

  /** A user who connects on a socket and disconnects it is offline again. */
  lemma ConnectThenDisconnect(c: Connections, sid: SocketId, h: Handshake)
    requires Identifies(h)
    ensures Lookup(Disconnect(Connect(c, sid, h), sid), h.userId.value) == None
    ensures sid !in Disconnect(Connect(c, sid, h), sid).userSockets
  {
  }

  /** Connecting on each socket of `sids` in turn with the same handshake. */
  function ConnectAll(c: Connections, sids: seq<SocketId>, h: Handshake): Connections
    decreases |sids|
  {
    if sids == [] then c else ConnectAll(Connect(c, sids[0], h), sids[1..], h)
  }

  /** After any sequence of connects with one user id, the user's entry is
      the last socket: last-connected-wins. */
  lemma {:induction false} LastConnectWins(c: Connections, sids: seq<SocketId>, h: Handshake)
    requires Identifies(h) && sids != []
    ensures Lookup(ConnectAll(c, sids, h), h.userId.value) == Some(sids[|sids| - 1])
    decreases |sids|
  {
    if |sids| > 1 {
      LastConnectWins(Connect(c, sids[0], h), sids[1..], h);
    }
  }

  /** The `isAdmin` flag has no effect: an administrator registers under the
      bare id, with no "admin_" prefix. */
  lemma AdminFlagIgnored(c: Connections, sid: SocketId, u: Option<string>, a1: Option<string>, a2: Option<string>)
    ensures Connect(c, sid, Handshake(u, a1)) == Connect(c, sid, Handshake(u, a2))
    ensures Identifies(Handshake(u, a1)) ==> Online(Connect(c, sid, Handshake(u, a1))) == Online(c) + {u.value}
  {
  }

  /** A reconnect with the same user id leaves the old socket's entry in
      `userSockets`. When the old socket then disconnects it takes the user
      offline although the new socket is still connected and still
      registered to that user. */
  lemma StaleSocketAfterReconnect(c: Connections, s1: SocketId, s2: SocketId, h: Handshake)
    requires Identifies(h) && s1 != s2
    ensures var after := Disconnect(Connect(Connect(c, s1, h), s2, h), s1);
            && Lookup(after, h.userId.value) == None
            && h.userId.value !in Online(after)
            && s2 in after.userSockets && after.userSockets[s2] == h.userId.value
  {
  }
}
