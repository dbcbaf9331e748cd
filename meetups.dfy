/** The meetup endpoints: who may see, join, invite to, edit, leave and
    delete a meetup, and how its participant list changes. The meetup store is
    a map from id to meetup; every endpoint is a method that answers with an
    HTTP status. */
module Meetups {
  import opened Wrappers

  type UserId = string
  type MeetupId = string
  /** Timestamps come from an abstract clock. */
  type Time = int

  const Accepted := "accepted"
  const Invited := "invited"
  const Scheduled := "scheduled"
  const InviteAlphabet := "ABCDEFGHIJKLMNOPQRSTUVWXYZ0123456789"
  const InviteCodeLength := 6
  const UserIdsKey := "userIds"
  const StatusKey := "status"

  datatype Status = Ok | Created | BadRequest | Forbidden | NotFound | InternalServerError

  datatype Settings = Settings(allowLocationSharing: bool, autoStartTracking: bool, notifyOnArrival: bool)

  const DefaultSettings := Settings(true, false, true)

  datatype Coordinates = Coordinates(latitude: real, longitude: real)
  datatype Place = Place(name: Option<string>, address: Option<string>, coordinates: Option<Coordinates>)

  datatype Participant = Participant(user: UserId, status: string, joinedAt: Time)

  datatype Meetup = Meetup(
    id: MeetupId,
    title: Option<string>,
    description: Option<string>,
    creator: UserId,
    participants: seq<Participant>,
    location: Option<Place>,
    scheduledTime: Option<Time>,
    duration: int,
    status: Option<string>,
    isPrivate: bool,
    inviteCode: Option<string>,
    settings: Settings)

  /** The body of a create request; a missing `settings` object is None. */
  datatype MeetupRequest = MeetupRequest(
    title: Option<string>,
    description: Option<string>,
    location: Option<Place>,
    scheduledTime: Option<Time>,
    duration: int,
    isPrivate: bool,
    settings: Option<Settings>)

  /** The users that have an entry in a participant list. */
  function Users(ps: seq<Participant>): set<UserId>
  {
    set p | p in ps :: p.user
  }

  lemma UsersAppend(ps: seq<Participant>, extra: seq<Participant>)
    ensures Users(ps + extra) == Users(ps) + Users(extra)
  {
    assert forall p :: p in ps + extra <==> p in ps || p in extra;
  }

  /** A user may see a meetup it created or has an entry in. */
  predicate CanView(m: Meetup, u: UserId)
  {
    u in Users(m.participants) || m.creator == u
  }

  predicate IsInviteCode(code: string)
  {
    |code| == InviteCodeLength && forall i :: 0 <= i < |code| ==> code[i] in InviteAlphabet
  }

  // ---- invite codes ----

  /** Six characters drawn from A-Z and 0-9; the draw itself is left open. */
  method GenerateInviteCode() returns (code: string)
    ensures IsInviteCode(code)
  {
    code := "";
    var i := 0;
    while i < InviteCodeLength
      invariant 0 <= i <= InviteCodeLength && |code| == i
      invariant forall j :: 0 <= j < |code| ==> code[j] in InviteAlphabet
    {
      var k :| 0 <= k < |InviteAlphabet|;
      code := code + [InviteAlphabet[k]];
      i := i + 1;
    }
  }

  // ---- creating ----

  /** The meetup built for a create request, before its invite code is set. */
  function NewMeetup(request: MeetupRequest, creator: UserId, id: MeetupId, now: Time): (m: Meetup)
    ensures m.id == id && m.creator == creator
    ensures m.participants == [Participant(creator, Accepted, now)]
    ensures m.settings == if request.settings.Some? then request.settings.value else DefaultSettings
    ensures m.status == Some(Scheduled) && m.inviteCode.None? && m.isPrivate == request.isPrivate
    ensures CanView(m, creator)
  {
    Meetup(
      id, request.title, request.description, creator,
      [Participant(creator, Accepted, now)],
      request.location, request.scheduledTime, request.duration,
      Some(Scheduled), request.isPrivate, None,
      if request.settings.Some? then request.settings.value else DefaultSettings)
  }

  // ---- listing ----

  /** The meetups `getMeetups` returns, as a set: those the user created or
      has an entry in, with the requested status when one is given. */
  function Listed(meetups: map<MeetupId, Meetup>, u: UserId, status: Option<string>): set<Meetup>
  {
    set k | k in meetups && CanView(meetups[k], u) && (status.None? || meetups[k].status == status) :: meetups[k]
  }

  /** `a` may be listed before `b`: an undated meetup only before another
      undated one, a dated one before an undated one or a dated one that is
      not later. */
  predicate Precedes(a: Meetup, b: Meetup)
  {
    && (a.scheduledTime.None? ==> b.scheduledTime.None?)
    && (a.scheduledTime.Some? && b.scheduledTime.Some? ==> a.scheduledTime.value >= b.scheduledTime.value)
  }

  /** Every meetup the listing returns is one `getMeetup` shows the same
      user, and it has the requested status. */
  lemma ListedAreViewable(meetups: map<MeetupId, Meetup>, u: UserId, status: Option<string>, m: Meetup)
    requires forall k :: k in meetups ==> meetups[k].id == k
    requires m in Listed(meetups, u, status)
    ensures GetMeetup(meetups, u, m.id) == (Ok, Some(m))
    ensures status.None? || m.status == status
  {
    var k :| k in meetups && meetups[k] == m && CanView(m, u);
  }

  /** Dated meetups come first, latest first; undated ones come after all of them. */
  predicate ScheduleOrdered(s: seq<Meetup>)
  {
    forall i, j :: 0 <= i < j < |s| ==> Precedes(s[i], s[j])
  }

  /** Places `x` in a listing kept in schedule order: before the first entry
      it may precede. An undated meetup goes after everything, as the
      listing's comparator ranks an undated left operand last. */
  function InsertByTime(x: Meetup, s: seq<Meetup>): (r: seq<Meetup>)
    ensures multiset(r) == multiset(s) + multiset{x}
    ensures forall y :: y in r ==> y == x || y in s
    decreases |s|
  {
    if s == [] then [x]
    else if x.scheduledTime.Some? && Precedes(x, s[0]) then [x] + s
    else
      assert s == [s[0]] + s[1..];
      [s[0]] + InsertByTime(x, s[1..])
  }

  /** A sequence headed by an entry that may precede every other entry keeps
      the order. */
  lemma ConsOrdered(h: Meetup, t: seq<Meetup>)
    requires ScheduleOrdered(t)
    requires forall y :: y in t ==> Precedes(h, y)
    ensures ScheduleOrdered([h] + t)
  {
    var s := [h] + t;
    forall i, j | 0 <= i < j < |s| ensures Precedes(s[i], s[j]) {
      if i == 0 {
        assert s[j] == t[j - 1];
        assert t[j - 1] in t;
      } else {
        assert s[i] == t[i - 1] && s[j] == t[j - 1];
      }
    }
  }

  /** Insertion keeps a listing in schedule order. */
  lemma {:induction false} InsertByTimeOrdered(x: Meetup, s: seq<Meetup>)
    requires ScheduleOrdered(s)
    ensures ScheduleOrdered(InsertByTime(x, s))
    decreases |s|
  {
    if s == [] {
    } else if x.scheduledTime.Some? && Precedes(x, s[0]) {
      forall y | y in s ensures Precedes(x, y) {
        var j :| 0 <= j < |s| && s[j] == y;
        if j > 0 { assert Precedes(s[0], s[j]); }
      }
      ConsOrdered(x, s);
    } else {
      assert s == [s[0]] + s[1..];
      var rest := InsertByTime(x, s[1..]);
      assert ScheduleOrdered(s[1..]) by {
        forall i, j | 0 <= i < j < |s[1..]| ensures Precedes(s[1..][i], s[1..][j]) {
          assert s[1..][i] == s[i + 1] && s[1..][j] == s[j + 1];
        }
      }
      InsertByTimeOrdered(x, s[1..]);
      forall y | y in rest ensures Precedes(s[0], y) {
        if y != x {
          var j :| 0 <= j < |s[1..]| && s[1..][j] == y;
          assert y == s[j + 1];
        }
      }
      ConsOrdered(s[0], rest);
    }
  }

  // ---- access checks ----

  /** `getMeetup`: the status and, when the user may see it, the meetup. */
  function GetMeetup(meetups: map<MeetupId, Meetup>, u: UserId, id: MeetupId): (r: (Status, Option<Meetup>))
    ensures r.0 == NotFound <==> id !in meetups
    ensures r.0 == Forbidden <==> id in meetups && !CanView(meetups[id], u)
    ensures r.0 == Ok <==> id in meetups && CanView(meetups[id], u)
    ensures r.1.Some? <==> r.0 == Ok
    ensures r.1.Some? ==> r.1.value == meetups[id]
  {
    if id !in meetups then (NotFound, None)
    else if !CanView(meetups[id], u) then (Forbidden, None)
    else (Ok, Some(meetups[id]))
  }

  /** The check shared by invite, status update and delete: the meetup must
      exist and the user must be its creator. */
  function CreatorCheck(meetups: map<MeetupId, Meetup>, u: UserId, id: MeetupId): (s: Status)
    ensures s == Ok <==> id in meetups && meetups[id].creator == u
    ensures s == NotFound <==> id !in meetups
    ensures s in {Ok, NotFound, Forbidden}
  {
    if id !in meetups then NotFound
    else if meetups[id].creator != u then Forbidden
    else Ok
  }

  // ---- joining by invite code ----

  /** The position of the user's first entry. */
  function FirstIndexOf(ps: seq<Participant>, u: UserId): (r: Option<nat>)
    ensures r.None? <==> u !in Users(ps)
    ensures r.Some? ==> r.value < |ps| && ps[r.value].user == u
    ensures r.Some? ==> forall j :: 0 <= j < r.value ==> ps[j].user != u
    decreases |ps|
  {
    if ps == [] then None
    else if ps[0].user == u then Some(0)
    else
      assert ps == [ps[0]] + ps[1..];
      UsersAppend([ps[0]], ps[1..]);
      match FirstIndexOf(ps[1..], u)
      case None => None
      case Some(i) => Some(i + 1)
  }

  /** The participant list after `u` joins: None when its first entry is
      already accepted; otherwise that entry is upgraded in place, or an
      accepted entry is appended when there is none. */
  function JoinParticipants(ps: seq<Participant>, u: UserId, now: Time): (r: Option<seq<Participant>>)
    ensures r.None? <==> FirstIndexOf(ps, u).Some? && ps[FirstIndexOf(ps, u).value].status == Accepted
    ensures r.Some? && u !in Users(ps) ==> r.value == ps + [Participant(u, Accepted, now)]
    ensures r.Some? && u in Users(ps) ==>
      && |r.value| == |ps|
      && r.value[FirstIndexOf(ps, u).value] == ps[FirstIndexOf(ps, u).value].(status := Accepted)
      && forall j :: 0 <= j < |ps| && j != FirstIndexOf(ps, u).value ==> r.value[j] == ps[j]
  {
    match FirstIndexOf(ps, u)
    case Some(i) => if ps[i].status == Accepted then None else Some(ps[i := ps[i].(status := Accepted)])
    case None => Some(ps + [Participant(u, Accepted, now)])
  }

  /** A successful join leaves the user with an accepted first entry, so the
      same invite code used again is refused. */
  lemma {:induction false} JoinThenRejoinRefused(ps: seq<Participant>, u: UserId, now: Time, later: Time)
    requires JoinParticipants(ps, u, now).Some?
    ensures var joined := JoinParticipants(ps, u, now).value;
            && u in Users(joined)
            && JoinParticipants(joined, u, later).None?
  {
    var joined := JoinParticipants(ps, u, now).value;
    match FirstIndexOf(ps, u)
    case Some(i) =>
      assert joined[i].user == u;
      assert joined[i] in joined;
      FirstIndexUnique(joined, u, i);
    case None =>
      var n := |ps|;
      assert joined[n] == Participant(u, Accepted, now);
      assert joined[n] in joined;
      forall j | 0 <= j < n ensures joined[j].user != u {
        assert joined[j] == ps[j];
        assert ps[j] in ps;
      }
      FirstIndexUnique(joined, u, n);
  }

  /** An index holding `u` with no `u` before it is the first index of `u`. */
  lemma FirstIndexUnique(ps: seq<Participant>, u: UserId, i: nat)
    requires i < |ps| && ps[i].user == u
    requires forall j :: 0 <= j < i ==> ps[j].user != u
    ensures FirstIndexOf(ps, u) == Some(i)
  {
    assert ps[i] in ps;
  }

  // ---- inviting ----

  /** The entries appended for newly invited users, in order. */
  function Invitations(ids: seq<UserId>, now: Time): (r: seq<Participant>)
    ensures |r| == |ids|
    ensures forall i :: 0 <= i < |ids| ==> r[i] == Participant(ids[i], Invited, now)
  {
    seq(|ids|, i requires 0 <= i < |ids| => Participant(ids[i], Invited, now))
  }

  function Elements(ids: seq<UserId>): set<UserId>
  {
    set v | v in ids
  }

  predicate Distinct(ids: seq<UserId>)
  {
    forall i, j :: 0 <= i < j < |ids| ==> ids[i] != ids[j]
  }

  /** The users an invitation adds: the first occurrence of each requested
      user not in `known`, in request order. */
  function NewUsers(ids: seq<UserId>, known: set<UserId>): (r: seq<UserId>)
    ensures Distinct(r)
    ensures Elements(r) == Elements(ids) - known
    decreases |ids|
  {
    if ids == [] then []
    else
      var front := ids[..|ids| - 1];
      var v := ids[|ids| - 1];
      assert ids == front + [v];
      assert Elements(ids) == Elements(front) + {v};
      var prev := NewUsers(front, known);
      if v in known || v in prev then prev
      else
        assert Elements(prev + [v]) == Elements(prev) + {v};
        prev + [v]
  }

  /** The invite loop: each requested user without an entry (counting those
      added earlier in the same request) gets one "invited" entry at the end,
      in request order; existing entries are untouched. `added` lists the
      users appended. */
  method AddInvitations(participants: seq<Participant>, userIds: seq<UserId>, now: Time)
    returns (ps: seq<Participant>, added: seq<UserId>)
    ensures ps == participants + Invitations(added, now)
    ensures added == NewUsers(userIds, Users(participants))
    ensures Users(ps) == Users(participants) + Elements(userIds)
  {
    ps, added := participants, [];
    for k := 0 to |userIds|
      invariant ps == participants + Invitations(added, now)
      invariant added == NewUsers(userIds[..k], Users(participants))
      invariant Users(ps) == Users(participants) + Elements(userIds[..k])
    {
      var userId := userIds[k];
      assert userIds[..k + 1] == userIds[..k] + [userId];
      assert userIds[..k + 1][..k] == userIds[..k];
      assert Elements(userIds[..k + 1]) == Elements(userIds[..k]) + {userId};
      var present := userId in Users(ps);
      if !present {
        UsersAppend(ps, [Participant(userId, Invited, now)]);
        assert Users([Participant(userId, Invited, now)]) == {userId};
        assert Invitations(added + [userId], now) == Invitations(added, now) + [Participant(userId, Invited, now)];
        ps := ps + [Participant(userId, Invited, now)];
        added := added + [userId];
      }
    }
    assert userIds[..|userIds|] == userIds;
  }

  // ---- leaving ----

  /** `removeIf`: drops every entry of `u` and keeps the rest in order. */
  function RemoveParticipant(ps: seq<Participant>, u: UserId): (r: seq<Participant>)
    ensures |r| <= |ps|
    decreases |ps|
  {
    if ps == [] then []
    else if ps[0].user == u then RemoveParticipant(ps[1..], u)
    else [ps[0]] + RemoveParticipant(ps[1..], u)
  }

  /** Removal drops exactly the entries of `u`, and changes nothing when `u`
      has none. */
  lemma {:induction false} RemoveParticipantEntries(ps: seq<Participant>, u: UserId)
    ensures forall p :: p in RemoveParticipant(ps, u) <==> p in ps && p.user != u
    ensures u !in Users(RemoveParticipant(ps, u))
    ensures u !in Users(ps) ==> RemoveParticipant(ps, u) == ps
    decreases |ps|
  {
    if ps != [] {
      assert ps == [ps[0]] + ps[1..];
      UsersAppend([ps[0]], ps[1..]);
      RemoveParticipantEntries(ps[1..], u);
      var rest := RemoveParticipant(ps[1..], u);
      if ps[0].user != u {
        UsersAppend([ps[0]], rest);
      }
    }
  }

  /** Removal works entry by entry: it commutes with concatenation, so the
      remaining entries keep their relative order. */
  lemma {:induction false} RemoveParticipantConcat(a: seq<Participant>, b: seq<Participant>, u: UserId)
    ensures RemoveParticipant(a + b, u) == RemoveParticipant(a, u) + RemoveParticipant(b, u)
    decreases |a|
  {
    if a == [] {
      assert a + b == b;
    } else {
      assert (a + b)[1..] == a[1..] + b;
      RemoveParticipantConcat(a[1..], b, u);
    }
  }

  /** After an invitation every requested user may see the meetup. */
  lemma {:induction false} InvitedCanView(m: Meetup, userIds: seq<UserId>, added: seq<UserId>, now: Time)
    requires Elements(added) == Elements(userIds) - Users(m.participants)
    ensures forall v :: v in userIds ==> CanView(m.(participants := m.participants + Invitations(added, now)), v)
  {
    var ps := m.participants + Invitations(added, now);
    UsersAppend(m.participants, Invitations(added, now));
    forall v | v in userIds && v !in Users(m.participants)
      ensures v in Users(Invitations(added, now))
    {
      assert v in Elements(added);
      var i :| 0 <= i < |added| && added[i] == v;
      assert Invitations(added, now)[i] in Invitations(added, now);
    }
  }

  /** A participant who leaves can no longer see the meetup, unless it is the
      creator, whom leaving refuses. */
  lemma LeaveRevokesView(m: Meetup, u: UserId)
    requires m.creator != u
    ensures !CanView(m.(participants := RemoveParticipant(m.participants, u)), u)
  {
    RemoveParticipantEntries(m.participants, u);
  }

  // ---- the controller ----

  class MeetupController {
    /** The meetup store, by id. */
    var meetups: map<MeetupId, Meetup>

    ghost predicate Valid()
      reads this
    {
      forall k :: k in meetups ==> meetups[k].id == k
    }

    constructor ()
      ensures Valid() && meetups == map[]
    {
      meetups := map[];
    }

    /** `createMeetup`: the creator is the one accepted participant, and a
        public meetup gets an invite code. `id` is the id the store assigns. */
    method CreateMeetup(current: UserId, request: MeetupRequest, id: MeetupId, now: Time)
      returns (status: Status, meetup: Meetup)
      requires Valid() && id !in meetups
      modifies this
      ensures Valid()
      ensures status == Created && meetups == old(meetups)[id := meetup]
      ensures meetup == NewMeetup(request, current, id, now).(inviteCode := meetup.inviteCode)
      ensures meetup.id == id && meetup.creator == current
      ensures meetup.participants == [Participant(current, Accepted, now)]
      ensures meetup.inviteCode.Some? <==> !request.isPrivate
      ensures meetup.inviteCode.Some? ==> IsInviteCode(meetup.inviteCode.value)
      ensures meetup.settings == if request.settings.Some? then request.settings.value else DefaultSettings
      ensures meetup.status == Some(Scheduled)
    {
      meetup := NewMeetup(request, current, id, now);
      if !meetup.isPrivate {
        var code := GenerateInviteCode();
        meetup := meetup.(inviteCode := Some(code));
      }
      meetups := meetups[id := meetup];
      status := Created;
    }

    /** `getMeetups`: the matching meetups, each once, in schedule order. The
        store hands them over in no particular order. */
    method GetMeetups(current: UserId, status: Option<string>) returns (result: seq<Meetup>)
      ensures multiset(result) == multiset(Listed(meetups, current, status))
      ensures ScheduleOrdered(result)
    {
      var pending := Listed(meetups, current, status);
      ghost var all := pending;
      result := [];
      while pending != {}
        invariant pending <= all
        invariant ScheduleOrdered(result)
        invariant multiset(result) == multiset(all - pending)
        decreases pending
      {
        var m :| m in pending;
        assert all - (pending - {m}) == (all - pending) + {m};
        InsertByTimeOrdered(m, result);
        result := InsertByTime(m, result);
        pending := pending - {m};
      }
      assert all - pending == all;
    }

    /** `joinMeetup`: by invite code. More than one meetup with the code makes
        the store's single-result lookup fail. */
    method JoinMeetup(current: UserId, inviteCode: string, now: Time) returns (status: Status)
      requires Valid()
      modifies this
      ensures Valid()
      ensures var found := set k | k in old(meetups) && old(meetups)[k].inviteCode == Some(inviteCode);
        && (found == {} ==> status == NotFound)
        && (|found| > 1 ==> status == InternalServerError)
        && (|found| == 1 ==> status in {Ok, BadRequest})
        && (status != Ok ==> meetups == old(meetups))
        && (status == Ok ==>
              exists id :: (&& id in found
                            && JoinParticipants(old(meetups)[id].participants, current, now).Some?
                            && meetups == old(meetups)[id := old(meetups)[id].(participants := JoinParticipants(old(meetups)[id].participants, current, now).value)]))
        && (status == BadRequest ==> forall id :: id in found ==> JoinParticipants(old(meetups)[id].participants, current, now).None?)
    {
      var found := set k | k in meetups && meetups[k].inviteCode == Some(inviteCode);
      if found == {} {
        return NotFound;
      }
      if |found| > 1 {
        return InternalServerError;
      }
      var id :| id in found;
      assert found == {id} by {
        assert |found - {id}| == 0;
      }
      var meetup := meetups[id];
      var ps := meetup.participants;
      var existing := FirstIndexOf(ps, current);
      if existing.Some? {
        if ps[existing.value].status == Accepted {
          return BadRequest;
        }
        ps := ps[existing.value := ps[existing.value].(status := Accepted)];
      } else {
        ps := ps + [Participant(current, Accepted, now)];
      }
      meetups := meetups[id := meetup.(participants := ps)];
      status := Ok;
    }

    /** `inviteUsers`: creator only; reports how many users were appended and
        saves only when there was at least one. */
    method InviteUsers(current: UserId, id: MeetupId, body: map<string, seq<UserId>>, now: Time)
      returns (status: Status, newParticipants: seq<UserId>)
      requires Valid()
      modifies this
      ensures Valid()
      ensures status == CreatorCheck(old(meetups), current, id)
      ensures status != Ok ==> meetups == old(meetups) && newParticipants == []
      ensures status == Ok ==>
        var before := old(meetups)[id].participants;
        var requested := if UserIdsKey in body then body[UserIdsKey] else [];
        && newParticipants == NewUsers(requested, Users(before))
        && meetups == old(meetups)[id := old(meetups)[id].(participants := before + Invitations(newParticipants, now))]
      ensures newParticipants == [] ==> meetups == old(meetups)
    {
      status := CreatorCheck(meetups, current, id);
      newParticipants := [];
      if status != Ok {
        return;
      }
      var meetup := meetups[id];
      var userIds := if UserIdsKey in body then body[UserIdsKey] else [];
      var ps;
      ps, newParticipants := AddInvitations(meetup.participants, userIds, now);
      if |newParticipants| > 0 {
        meetups := meetups[id := meetup.(participants := ps)];
      } else {
        assert meetup.(participants := ps) == meetup;
      }
    }

    /** `updateStatus`: creator only; the value is stored as given, absent
        when the body has none. */
    method UpdateStatus(current: UserId, id: MeetupId, body: map<string, string>) returns (status: Status)
      requires Valid()
      modifies this
      ensures Valid()
      ensures status == CreatorCheck(old(meetups), current, id)
      ensures status != Ok ==> meetups == old(meetups)
      ensures status == Ok ==>
        meetups == old(meetups)[id := old(meetups)[id].(status := if StatusKey in body then Some(body[StatusKey]) else None)]
    {
      status := CreatorCheck(meetups, current, id);
      if status == Ok {
        var meetup := meetups[id];
        meetups := meetups[id := meetup.(status := if StatusKey in body then Some(body[StatusKey]) else None)];
      }
    }

    /** `leaveMeetup`: the creator cannot leave; anyone else loses every entry. */
    method LeaveMeetup(current: UserId, id: MeetupId) returns (status: Status)
      requires Valid()
      modifies this
      ensures Valid()
      ensures status in {Ok, NotFound, BadRequest}
      ensures status == NotFound <==> id !in old(meetups)
      ensures status == BadRequest <==> id in old(meetups) && old(meetups)[id].creator == current
      ensures status != Ok ==> meetups == old(meetups)
      ensures status == Ok ==>
        meetups == old(meetups)[id := old(meetups)[id].(participants := RemoveParticipant(old(meetups)[id].participants, current))]
    {
      if id !in meetups {
        return NotFound;
      }
      var meetup := meetups[id];
      if meetup.creator == current {
        return BadRequest;
      }
      meetups := meetups[id := meetup.(participants := RemoveParticipant(meetup.participants, current))];
      status := Ok;
    }

    /** `deleteMeetup`: creator only. */
    method DeleteMeetup(current: UserId, id: MeetupId) returns (status: Status)
      requires Valid()
      modifies this
      ensures Valid()
      ensures status == CreatorCheck(old(meetups), current, id)
      ensures status != Ok ==> meetups == old(meetups)
      ensures status == Ok ==> meetups == old(meetups) - {id}
    {
      status := CreatorCheck(meetups, current, id);
      if status == Ok {
        meetups := meetups - {id};
      }
    }
  }
}
