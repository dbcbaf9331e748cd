/** The socket event handler: an object holding the presence registry, the
    room directory and the transport's room table, with one method per event.
    Each method returns the events it sends, as (session, event) deliveries,
    and is proved to perform the matching transition of module Presence. */
module SocketEvents {
  import opened Wrappers
  import opened Presence

  /** One row of an `active_users` reply; the location is absent until the
      user's first update. */
  datatype ActiveUserEntry = ActiveUserEntry(userId: UserId, location: Option<Location>, lastSeen: Time)

  datatype Event =
    | UserJoined(userId: UserId, timestamp: Time)
    | LocationUpdated(userId: UserId, latitude: real, longitude: real, timestamp: Time)
    | UserLeft(userId: UserId, timestamp: Time)
    | ActiveUsers(users: seq<ActiveUserEntry>)

  datatype Delivery = Delivery(to: SessionId, event: Event)

  function RecipientsOf(out: seq<Delivery>): set<SessionId>
  {
    set i | 0 <= i < |out| :: out[i].to
  }

  /** `out` delivers `ev` once to every session of `recipients` and to nobody else. */
  predicate IsBroadcast(out: seq<Delivery>, recipients: set<SessionId>, ev: Event)
  {
    && RecipientsOf(out) == recipients
    && (forall i, j :: 0 <= i < j < |out| ==> out[i].to != out[j].to)
    && forall i :: 0 <= i < |out| ==> out[i].event == ev
  }

  lemma RecipientsOfAppend(out: seq<Delivery>, d: Delivery)
    ensures RecipientsOf(out + [d]) == RecipientsOf(out) + {d.to}
  {
    var s := out + [d];
    forall x | x in RecipientsOf(s) ensures x in RecipientsOf(out) + {d.to} {
      var i :| 0 <= i < |s| && s[i].to == x;
      if i < |out| { assert out[i].to == x; }
    }
    forall x | x in RecipientsOf(out) + {d.to} ensures x in RecipientsOf(s) {
      if x == d.to {
        assert s[|out|].to == x;
      } else {
        var i :| 0 <= i < |out| && out[i].to == x;
        assert s[i].to == x;
      }
    }
  }

  function UsersOf(out: seq<ActiveUserEntry>): set<UserId>
  {
    set i | 0 <= i < |out| :: out[i].userId
  }

  /** `out` lists every member of `users` once, each with its presence record's
      location and last-seen time. */
  predicate IsListing(out: seq<ActiveUserEntry>, users: set<UserId>, activeUsers: map<UserId, ActiveUserData>)
  {
    && UsersOf(out) == users
    && |out| == |users|
    && forall i :: 0 <= i < |out| ==>
         && out[i].userId in activeUsers
         && out[i].location == activeUsers[out[i].userId].location
         && out[i].lastSeen == activeUsers[out[i].userId].lastSeen
  }

  lemma ListingExtend(out: seq<ActiveUserEntry>, users: set<UserId>, activeUsers: map<UserId, ActiveUserData>, uid: UserId)
    requires IsListing(out, users, activeUsers)
    requires uid in activeUsers && uid !in users
    ensures IsListing(out + [ActiveUserEntry(uid, activeUsers[uid].location, activeUsers[uid].lastSeen)],
                      users + {uid}, activeUsers)
  {
    var e := ActiveUserEntry(uid, activeUsers[uid].location, activeUsers[uid].lastSeen);
    var s := out + [e];
    forall x | x in UsersOf(s) ensures x in users + {uid} {
      var i :| 0 <= i < |s| && s[i].userId == x;
      if i < |out| { assert out[i].userId == x; }
    }
    forall x | x in users + {uid} ensures x in UsersOf(s) {
      if x == uid {
        assert s[|out|].userId == x;
      } else {
        var i :| 0 <= i < |out| && out[i].userId == x;
        assert s[i].userId == x;
      }
    }
  }

  /** Looking at one more member of the meetup's set lists it when it has a
      presence record and skips it otherwise. */
  lemma ListingStep(listed: seq<ActiveUserEntry>, seen: set<UserId>, activeUsers: map<UserId, ActiveUserData>, uid: UserId)
    requires IsListing(listed, seen * activeUsers.Keys, activeUsers) && uid !in seen
    ensures uid in activeUsers ==>
      IsListing(listed + [ActiveUserEntry(uid, activeUsers[uid].location, activeUsers[uid].lastSeen)],
                (seen + {uid}) * activeUsers.Keys, activeUsers)
    ensures uid !in activeUsers ==> IsListing(listed, (seen + {uid}) * activeUsers.Keys, activeUsers)
  {
    if uid in activeUsers {
      ListingExtend(listed, seen * activeUsers.Keys, activeUsers, uid);
      assert (seen + {uid}) * activeUsers.Keys == seen * activeUsers.Keys + {uid};
    } else {
      assert (seen + {uid}) * activeUsers.Keys == seen * activeUsers.Keys;
    }
  }

  /** After looking at the sessions in `seen`, `out` has sent `ev` once to
      each of them except the sender. */
  predicate SentTo(out: seq<Delivery>, seen: set<SessionId>, sender: SessionId, ev: Event)
  {
    IsBroadcast(out, seen - {sender}, ev)
  }

  lemma BroadcastStep(out: seq<Delivery>, seen: set<SessionId>, c: SessionId, sender: SessionId, ev: Event)
    requires SentTo(out, seen, sender, ev) && c !in seen
    ensures SentTo(if c != sender then out + [Delivery(c, ev)] else out, seen + {c}, sender, ev)
  {
    if c != sender {
      RecipientsOfAppend(out, Delivery(c, ev));
      var next := out + [Delivery(c, ev)];
      forall i, j | 0 <= i < j < |next| ensures next[i].to != next[j].to {
        if j == |out| {
          assert out[i].to in RecipientsOf(out);
        }
      }
      assert (seen + {c}) - {sender} == (seen - {sender}) + {c};
    } else {
      assert (seen + {c}) - {sender} == seen - {sender};
    }
  }

  /** Sends `ev` to every session in `members` except the sender, in whatever
      order the transport enumerates them. */
  method Broadcast(members: set<SessionId>, sender: SessionId, ev: Event) returns (out: seq<Delivery>)
    ensures IsBroadcast(out, members - {sender}, ev)
  {
    out := [];
    var pending := members;
    ghost var seen: set<SessionId> := {};
    while pending != {}
      invariant seen + pending == members && seen !! pending
      invariant SentTo(out, seen, sender, ev)
      decreases pending
    {
      var c :| c in pending;
      BroadcastStep(out, seen, c, sender, ev);
      if c != sender {
        out := out + [Delivery(c, ev)];
      }
      seen := seen + {c};
      pending := pending - {c};
    }
  }

  class SocketHandler {
    var activeUsers: map<UserId, ActiveUserData>
    var meetupRooms: map<MeetupId, set<UserId>>
    /** The transport's rooms: room name to the sessions in it. */
    var rooms: map<string, set<SessionId>>

    function State(): Registry
      reads this
    {
      Registry(activeUsers, meetupRooms, rooms)
    }

    ghost predicate Valid()
      reads this
    {
      NoEmptyRoom(State())
    }

    constructor ()
      ensures Valid() && State() == EmptyRegistry
    {
      activeUsers, meetupRooms, rooms := map[], map[], map[];
    }

    /** `onConnect`: the session joins the personal room `user_<id>`. */
    method OnConnect(client: Client)
      requires Valid()
      modifies this
      ensures Valid()
      ensures State() == Connect(old(State()), client.sessionId, GetUserId(client.urlParams))
    {
      var userId := GetUserId(client.urlParams);
      rooms := JoinRoom(rooms, UserRoom(userId), client.sessionId);
    }

    /** `join_meetup` */
    method OnJoinMeetup(client: Client, meetupId: MeetupId, now: Time) returns (out: seq<Delivery>)
      requires Valid() && Admitted(client)
      modifies this
      ensures Valid()
      ensures State() == Join(old(State()), client.sessionId, GetUserId(client.urlParams).value, meetupId, now)
      ensures IsBroadcast(out, Recipients(old(State()), meetupId, client.sessionId),
                          UserJoined(GetUserId(client.urlParams).value, now))
    {
      var userId := GetUserId(client.urlParams).value;
      rooms := JoinRoom(rooms, MeetupRoom(meetupId), client.sessionId);
      activeUsers := activeUsers[userId := ActiveUserData(client.sessionId, Some(meetupId), None, now)];
      var members := if meetupId in meetupRooms then meetupRooms[meetupId] else {};
      meetupRooms := meetupRooms[meetupId := members + {userId}];
      out := Broadcast(Members(rooms, MeetupRoom(meetupId)), client.sessionId, UserJoined(userId, now));
    }

    /** `location_update`: the broadcast goes to the room named in the
        payload whether or not the sender has a presence record. */
    method OnLocationUpdate(client: Client, data: LocationUpdateData, now: Time) returns (out: seq<Delivery>)
      requires Valid() && Admitted(client)
      modifies this
      ensures Valid()
      ensures State() == UpdateLocation(old(State()), GetUserId(client.urlParams).value, data, now)
      ensures IsBroadcast(out, Recipients(old(State()), data.meetupId, client.sessionId),
                          LocationUpdated(GetUserId(client.urlParams).value, data.latitude, data.longitude, now))
    {
      var userId := GetUserId(client.urlParams).value;
      if userId in activeUsers {
        var userData := activeUsers[userId];
        userData := userData.(location := Some(Location(data.latitude, data.longitude)), lastSeen := now);
        activeUsers := activeUsers[userId := userData];
      }
      var ev := LocationUpdated(userId, data.latitude, data.longitude, now);
      out := Broadcast(Members(rooms, MeetupRoom(data.meetupId)), client.sessionId, ev);
    }

    /** `leave_meetup` */
    method OnLeaveMeetup(client: Client, meetupId: MeetupId, now: Time) returns (out: seq<Delivery>)
      requires Valid() && Admitted(client)
      modifies this
      ensures Valid()
      ensures State() == Leave(old(State()), client.sessionId, GetUserId(client.urlParams).value, meetupId)
      ensures IsBroadcast(out, Recipients(State(), meetupId, client.sessionId),
                          UserLeft(GetUserId(client.urlParams).value, now))
    {
      var userId := GetUserId(client.urlParams).value;
      out := HandleLeave(client.sessionId, userId, meetupId, now);
    }

    /** `get_active_users`: one reply to the requester, nothing changes. */
    method OnGetActiveUsers(client: Client, meetupId: MeetupId) returns (out: seq<Delivery>)
      ensures |out| == 1 && out[0].to == client.sessionId && out[0].event.ActiveUsers?
      ensures IsListing(out[0].event.users, ActiveIn(State(), meetupId), activeUsers)
    {
      var meetupUsers := if meetupId in meetupRooms then meetupRooms[meetupId] else {};
      var listed: seq<ActiveUserEntry> := [];
      var pending := meetupUsers;
      ghost var seen: set<UserId> := {};
      while pending != {}
        invariant seen + pending == meetupUsers && seen !! pending
        invariant IsListing(listed, seen * activeUsers.Keys, activeUsers)
        decreases pending
      {
        var uid :| uid in pending;
        ListingStep(listed, seen, activeUsers, uid);
        if uid in activeUsers {
          var userData := activeUsers[uid];
          listed := listed + [ActiveUserEntry(uid, userData.location, userData.lastSeen)];
        }
        seen := seen + {uid};
        pending := pending - {uid};
      }
      out := [Delivery(client.sessionId, ActiveUsers(listed))];
    }

    /** `onDisconnect`, followed by the transport dropping the session. */
    method OnDisconnect(client: Client, now: Time) returns (out: seq<Delivery>)
      requires Valid()
      modifies this
      ensures Valid()
      ensures State() == CloseSession(Disconnect(old(State()), client.sessionId, GetUserId(client.urlParams)), client.sessionId)
      ensures RecordedRoom(old(State()), GetUserId(client.urlParams)).None? ==> out == []
      ensures RecordedRoom(old(State()), GetUserId(client.urlParams)).Some? ==>
                IsBroadcast(out, Recipients(State(), RecordedRoom(old(State()), GetUserId(client.urlParams)).value, client.sessionId),
                            UserLeft(GetUserId(client.urlParams).value, now))
    {
      var userId := GetUserId(client.urlParams);
      out := [];
      if userId.Some? && userId.value in activeUsers {
        var userData := activeUsers[userId.value];
        if userData.meetupId.Some? {
          out := HandleLeave(client.sessionId, userId.value, userData.meetupId.value, now);
        }
        activeUsers := activeUsers - {userId.value};
      }
      rooms := map n | n in rooms :: rooms[n] - {client.sessionId};
    }

    /** `handleLeave`: leave the transport room, then the meetup's set, then
        tell the sessions still in the room. */
    method HandleLeave(sid: SessionId, userId: UserId, meetupId: MeetupId, now: Time) returns (out: seq<Delivery>)
      requires Valid()
      modifies this
      ensures Valid()
      ensures State() == Leave(old(State()), sid, userId, meetupId)
      ensures IsBroadcast(out, Recipients(State(), meetupId, sid), UserLeft(userId, now))
    {
      rooms := LeaveRoom(rooms, MeetupRoom(meetupId), sid);
      if meetupId in meetupRooms {
        var usersInRoom := meetupRooms[meetupId] - {userId};
        if usersInRoom == {} {
          meetupRooms := meetupRooms - {meetupId};
        } else {
          meetupRooms := meetupRooms[meetupId := usersInRoom];
        }
      }
      out := Broadcast(Members(rooms, MeetupRoom(meetupId)), sid, UserLeft(userId, now));
    }
  }
}
