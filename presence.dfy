/** The real-time presence registry of the socket handler, as values.

    `activeUsers` maps a user to its presence record, `meetupRooms` maps a
    meetup to the set of users that joined it, and `rooms` is the transport's
    own room table (room name to the sessions in it), which decides who a
    broadcast reaches. Each socket event handler is one transition function
    here; the class in module SocketEvents is proved to perform them. */
module Presence {
  import opened Wrappers

  type UserId = string
  type MeetupId = string
  type SessionId = string
  /** Timestamps come from an abstract clock. */
  type Time = int

  /** Latitude and longitude are opaque: nothing computes with them. */
  datatype Location = Location(latitude: real, longitude: real)

  /** A presence record. `meetupId` is nullable in the source; every record
      the handlers create carries one. */
  datatype ActiveUserData = ActiveUserData(
    socketId: SessionId,
    meetupId: Option<MeetupId>,
    location: Option<Location>,
    lastSeen: Time)

  /** A connected client: its session id and the URL parameters of its handshake. */
  datatype Client = Client(sessionId: SessionId, urlParams: map<string, seq<string>>)

  /** The payload of a `location_update` event. */
  datatype LocationUpdateData = LocationUpdateData(latitude: real, longitude: real, meetupId: MeetupId)

  datatype Registry = Registry(
    activeUsers: map<UserId, ActiveUserData>,
    meetupRooms: map<MeetupId, set<UserId>>,
    rooms: map<string, set<SessionId>>)

  const EmptyRegistry := Registry(map[], map[], map[])

  /** The handshake parameter under which the authoriser stores the user id. */
  const UserIdParam := "userId"

  /** The user id of a connection: the first value of its `userId` parameter, if any. */
  function GetUserId(urlParams: map<string, seq<string>>): (u: Option<UserId>)
    ensures u.None? <==> UserIdParam !in urlParams || urlParams[UserIdParam] == []
    ensures u.Some? ==> u.value == urlParams[UserIdParam][0]
  {
    if UserIdParam in urlParams && |urlParams[UserIdParam]| > 0 then Some(urlParams[UserIdParam][0]) else None
  }

  /** A client the authoriser admitted carries a user id. */
  predicate Admitted(c: Client)
  {
    GetUserId(c.urlParams).Some?
  }

  /** The members of a keyed set, empty when the key is absent. */
  function Members<K, V>(table: map<K, set<V>>, k: K): set<V>
  {
    if k in table then table[k] else {}
  }

  // ---- transport room names ----

  function MeetupRoom(m: MeetupId): string
  {
    "meetup_" + m
  }

  /** A null user id is concatenated as the text "null". */
  function UserRoom(u: Option<UserId>): string
  {
    "user_" + (if u.Some? then u.value else "null")
  }

  lemma MeetupRoomInjective(m1: MeetupId, m2: MeetupId)
    ensures MeetupRoom(m1) == MeetupRoom(m2) ==> m1 == m2
  {
    if MeetupRoom(m1) == MeetupRoom(m2) {
      assert m1 == MeetupRoom(m1)[7..];
      assert m2 == MeetupRoom(m2)[7..];
    }
  }

  lemma RoomKindsDisjoint(m: MeetupId, u: Option<UserId>)
    ensures MeetupRoom(m) != UserRoom(u)
  {
    assert MeetupRoom(m)[0] == 'm' && UserRoom(u)[0] == 'u';
  }

  // ---- the transport's room table ----

  function JoinRoom(rooms: map<string, set<SessionId>>, name: string, sid: SessionId): (r: map<string, set<SessionId>>)
    ensures Members(r, name) == Members(rooms, name) + {sid}
    ensures forall n :: n != name ==> Members(r, n) == Members(rooms, n)
  {
    rooms[name := Members(rooms, name) + {sid}]
  }

  function LeaveRoom(rooms: map<string, set<SessionId>>, name: string, sid: SessionId): (r: map<string, set<SessionId>>)
    ensures Members(r, name) == Members(rooms, name) - {sid}
    ensures forall n :: n != name ==> Members(r, n) == Members(rooms, n)
  {
    if name in rooms then rooms[name := rooms[name] - {sid}] else rooms
  }

  /** The sessions a broadcast into meetup room `m` from session `sid` reaches. */
  function Recipients(r: Registry, m: MeetupId, sid: SessionId): set<SessionId>
  {
    Members(r.rooms, MeetupRoom(m)) - {sid}
  }

  /** The room directory never keeps a meetup whose member set is empty. */
  predicate NoEmptyRoom(r: Registry)
  {
    forall m :: m in r.meetupRooms ==> r.meetupRooms[m] != {}
  }

  // ---- one transition per event handler ----

  /** `onConnect`: the session enters the personal room of its user. */
  function Connect(r: Registry, sid: SessionId, u: Option<UserId>): (r': Registry)
    ensures r'.activeUsers == r.activeUsers && r'.meetupRooms == r.meetupRooms
    ensures Members(r'.rooms, UserRoom(u)) == Members(r.rooms, UserRoom(u)) + {sid}
    ensures forall n :: n != UserRoom(u) ==> Members(r'.rooms, n) == Members(r.rooms, n)
  {
    r.(rooms := JoinRoom(r.rooms, UserRoom(u), sid))
  }

  /** `join_meetup`: a fresh presence record replaces any earlier one (so an
      earlier location is lost), the user is added to the meetup's set, and no
      other meetup's set is touched, not even the one the user was in before. */
  function Join(r: Registry, sid: SessionId, u: UserId, m: MeetupId, now: Time): (r': Registry)
    ensures u in r'.activeUsers
    ensures r'.activeUsers[u].socketId == sid && r'.activeUsers[u].meetupId == Some(m)
    ensures r'.activeUsers[u].location == None && r'.activeUsers[u].lastSeen == now
    ensures forall v :: v != u ==> (v in r'.activeUsers <==> v in r.activeUsers)
    ensures forall v :: v != u && v in r.activeUsers ==> r'.activeUsers[v] == r.activeUsers[v]
    ensures m in r'.meetupRooms && Members(r'.meetupRooms, m) == Members(r.meetupRooms, m) + {u}
    ensures forall k :: k != m ==> (k in r'.meetupRooms <==> k in r.meetupRooms)
    ensures forall k :: k != m ==> Members(r'.meetupRooms, k) == Members(r.meetupRooms, k)
    ensures Members(r'.rooms, MeetupRoom(m)) == Members(r.rooms, MeetupRoom(m)) + {sid}
    ensures forall n :: n != MeetupRoom(m) ==> Members(r'.rooms, n) == Members(r.rooms, n)
    ensures NoEmptyRoom(r) ==> NoEmptyRoom(r')
  {
    Registry(
      r.activeUsers[u := ActiveUserData(sid, Some(m), None, now)],
      r.meetupRooms[m := Members(r.meetupRooms, m) + {u}],
      JoinRoom(r.rooms, MeetupRoom(m), sid))
  }

  /** `location_update`: only a user with a presence record changes, and then
      only its location and last-seen time. */
  function UpdateLocation(r: Registry, u: UserId, data: LocationUpdateData, now: Time): (r': Registry)
    ensures u !in r.activeUsers ==> r' == r
    ensures r'.meetupRooms == r.meetupRooms && r'.rooms == r.rooms
    ensures r'.activeUsers.Keys == r.activeUsers.Keys
    ensures forall v :: v != u && v in r.activeUsers ==> r'.activeUsers[v] == r.activeUsers[v]
    ensures u in r.activeUsers ==>
      && r'.activeUsers[u].socketId == r.activeUsers[u].socketId
      && r'.activeUsers[u].meetupId == r.activeUsers[u].meetupId
      && r'.activeUsers[u].location == Some(Location(data.latitude, data.longitude))
      && r'.activeUsers[u].lastSeen == now
    ensures NoEmptyRoom(r) ==> NoEmptyRoom(r')
  {
    if u in r.activeUsers then
      var d := r.activeUsers[u];
      r.(activeUsers := r.activeUsers[u := d.(location := Some(Location(data.latitude, data.longitude)), lastSeen := now)])
    else
      r
  }

  /** `handleLeave`: the session leaves the meetup's transport room and the
      user leaves the meetup's set, which is dropped once it is empty. Presence
      records and every other meetup are untouched. */
  function Leave(r: Registry, sid: SessionId, u: UserId, m: MeetupId): (r': Registry)
    ensures r'.activeUsers == r.activeUsers
    ensures Members(r'.meetupRooms, m) == Members(r.meetupRooms, m) - {u}
    ensures m in r'.meetupRooms <==> Members(r'.meetupRooms, m) != {}
    ensures m !in r.meetupRooms ==> r'.meetupRooms == r.meetupRooms
    ensures forall k :: k != m ==> (k in r'.meetupRooms <==> k in r.meetupRooms)
    ensures forall k :: k != m ==> Members(r'.meetupRooms, k) == Members(r.meetupRooms, k)
    ensures Members(r'.rooms, MeetupRoom(m)) == Members(r.rooms, MeetupRoom(m)) - {sid}
    ensures forall n :: n != MeetupRoom(m) ==> Members(r'.rooms, n) == Members(r.rooms, n)
    ensures NoEmptyRoom(r) ==> NoEmptyRoom(r')
  {
    var rooms := LeaveRoom(r.rooms, MeetupRoom(m), sid);
    if m in r.meetupRooms then
      var rest := r.meetupRooms[m] - {u};
      r.(meetupRooms := if rest == {} then r.meetupRooms - {m} else r.meetupRooms[m := rest], rooms := rooms)
    else
      r.(rooms := rooms)
  }

  /** The room a disconnect leaves: the one recorded in the user's presence record. */
  function RecordedRoom(r: Registry, u: Option<UserId>): Option<MeetupId>
  {
    if u.Some? && u.value in r.activeUsers then r.activeUsers[u.value].meetupId else None
  }

  /** The `onDisconnect` handler: an unknown or null user changes nothing;
      otherwise the recorded room is left and the presence record removed. */
  function Disconnect(r: Registry, sid: SessionId, u: Option<UserId>): (r': Registry)
    ensures (u.None? || u.value !in r.activeUsers) ==> r' == r
    ensures u.Some? ==> u.value !in r'.activeUsers
    ensures forall v :: Some(v) != u ==> (v in r'.activeUsers <==> v in r.activeUsers)
    ensures forall v :: Some(v) != u && v in r.activeUsers ==> r'.activeUsers[v] == r.activeUsers[v]
    ensures RecordedRoom(r, u).None? ==> r'.meetupRooms == r.meetupRooms && r'.rooms == r.rooms
    ensures RecordedRoom(r, u).Some? ==>
      && Members(r'.meetupRooms, RecordedRoom(r, u).value) == Members(r.meetupRooms, RecordedRoom(r, u).value) - {u.value}
      && (forall k :: k != RecordedRoom(r, u).value ==> Members(r'.meetupRooms, k) == Members(r.meetupRooms, k))
    ensures NoEmptyRoom(r) ==> NoEmptyRoom(r')
  {
    if u.Some? && u.value in r.activeUsers then
      var d := r.activeUsers[u.value];
      var r1 := if d.meetupId.Some? then Leave(r, sid, u.value, d.meetupId.value) else r;
      r1.(activeUsers := r1.activeUsers - {u.value})
    else
      r
  }

  /** When a connection closes the transport forgets its session in every room. */
  function CloseSession(r: Registry, sid: SessionId): (r': Registry)
    ensures r'.activeUsers == r.activeUsers && r'.meetupRooms == r.meetupRooms
    ensures forall n :: Members(r'.rooms, n) == Members(r.rooms, n) - {sid}
  {
    r.(rooms := map n | n in r.rooms :: r.rooms[n] - {sid})
  }

  /** The users `get_active_users` reports for meetup `m`: the members of its
      set that still have a presence record. */
  function ActiveIn(r: Registry, m: MeetupId): (s: set<UserId>)
    ensures forall v :: v in s <==> v in Members(r.meetupRooms, m) && v in r.activeUsers
  {
    Members(r.meetupRooms, m) * r.activeUsers.Keys
  }

  // ---- properties of the transitions ----

  /** A repeated join changes neither the meetup's set nor the transport
      rooms, and the repeated broadcast reaches the same sessions. */
  lemma RepeatedJoinKeepsRooms(r: Registry, sid: SessionId, u: UserId, m: MeetupId, t1: Time, t2: Time)
    ensures var once := Join(r, sid, u, m, t1);
            var twice := Join(once, sid, u, m, t2);
            && twice.meetupRooms == once.meetupRooms
            && twice.rooms == once.rooms
            && Recipients(twice, m, sid) == Recipients(once, m, sid)
  {
    var once := Join(r, sid, u, m, t1);
    var twice := Join(once, sid, u, m, t2);
    assert Members(once.meetupRooms, m) + {u} == Members(once.meetupRooms, m);
    assert Members(once.rooms, MeetupRoom(m)) + {sid} == Members(once.rooms, MeetupRoom(m));
  }

  /** Joining a second meetup leaves the user in the first one, and a
      disconnect then removes the presence record but only leaves the second
      meetup: the user stays a member of the first. */
  lemma JoinKeepsEarlierRoom(r: Registry, sid: SessionId, u: UserId, m1: MeetupId, m2: MeetupId, t1: Time, t2: Time)
    requires m1 != m2
    ensures var r2 := Join(Join(r, sid, u, m1, t1), sid, u, m2, t2);
            var gone := Disconnect(r2, sid, Some(u));
            && u in Members(r2.meetupRooms, m1)
            && RecordedRoom(r2, Some(u)) == Some(m2)
            && u !in gone.activeUsers
            && u in Members(gone.meetupRooms, m1)
            && u !in Members(gone.meetupRooms, m2)
  {
  }

  /** An explicit leave keeps the presence record, so a later disconnect
      leaves the same meetup a second time; that second leave finds the user
      gone and changes no member set. */
  lemma DisconnectAfterLeaveLeavesAgain(r: Registry, sid: SessionId, u: UserId, m: MeetupId)
    requires u in r.activeUsers && r.activeUsers[u].meetupId == Some(m)
    ensures var left := Leave(r, sid, u, m);
            && RecordedRoom(left, Some(u)) == Some(m)
            && Disconnect(left, sid, Some(u)).meetupRooms == left.meetupRooms
  {
    var left := Leave(r, sid, u, m);
    var again := Leave(left, sid, u, m);
    if m in left.meetupRooms {
      assert left.meetupRooms[m] - {u} == left.meetupRooms[m];
      assert left.meetupRooms[m := left.meetupRooms[m]] == left.meetupRooms;
    }
    assert again.meetupRooms == left.meetupRooms;
  }

  // ---- sequences of joins and leaves on one meetup ----

  datatype RoomOp = JoinOp(sid: SessionId, user: UserId) | LeaveOp(sid: SessionId, user: UserId)

  function Apply(r: Registry, m: MeetupId, op: RoomOp, now: Time): Registry
  {
    match op
    case JoinOp(sid, u) => Join(r, sid, u, m, now)
    case LeaveOp(sid, u) => Leave(r, sid, u, m)
  }

  /** The registry after the operations, applied in order, to meetup `m`. */
  function Replay(r: Registry, m: MeetupId, ops: seq<RoomOp>, now: Time): Registry
    decreases |ops|
  {
    if ops == [] then r else Apply(Replay(r, m, ops[..|ops| - 1], now), m, ops[|ops| - 1], now)
  }

  /** The last operation issued by user `u`, if any. */
  function LastOpBy(ops: seq<RoomOp>, u: UserId): Option<RoomOp>
    decreases |ops|
  {
    if ops == [] then None
    else if ops[|ops| - 1].user == u then Some(ops[|ops| - 1])
    else LastOpBy(ops[..|ops| - 1], u)
  }

  /** After any sequence of joins and leaves on one meetup, a user is a member
      exactly when its last operation was a join (or, having issued none, when
      it was a member before). */
  lemma {:induction false} ReplayMembership(r: Registry, m: MeetupId, ops: seq<RoomOp>, now: Time, u: UserId)
    ensures u in Members(Replay(r, m, ops, now).meetupRooms, m) <==>
            match LastOpBy(ops, u)
            case Some(op) => op.JoinOp?
            case None => u in Members(r.meetupRooms, m)
  {
    if ops != [] {
      ReplayMembership(r, m, ops[..|ops| - 1], now, u);
    }
  }

  /** No sequence of joins and leaves leaves an empty meetup set behind. */
  lemma {:induction false} ReplayKeepsNoEmptyRoom(r: Registry, m: MeetupId, ops: seq<RoomOp>, now: Time)
    requires NoEmptyRoom(r)
    ensures NoEmptyRoom(Replay(r, m, ops, now))
  {
    if ops != [] {
      ReplayKeepsNoEmptyRoom(r, m, ops[..|ops| - 1], now);
    }
  }
}
