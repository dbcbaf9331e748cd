# Trulo meetup tracker — a Dafny model of its core

Trulo lets users arrange meetups and share their live location with the
other participants. This project models four parts of its Spring back end:

- **the socket event handler** (`SocketHandler`). It keeps three tables: the
  presence records of connected users, the users of each meetup, and the
  transport's rooms of sessions. It handles `join_meetup`,
  `location_update`, `leave_meetup`, `get_active_users` and disconnects, and
  broadcasts `user_joined`, `location_updated` and `user_left` to the other
  sessions in the meetup's room.
- **the socket server's connection gate and port** (`SocketIOConfig`). A
  handshake is admitted only when its token names an existing user. The
  resolved user id is then written into the handshake's `userId` parameter.
- **the meetup endpoints** (`MeetupController`): create, list, show, join by
  invite code, invite, change status, leave, delete, and invite-code
  generation.
- **the account endpoints** (`AuthController`): register, login, logout, user
  search, and stripping the password from users in responses.

Files:

- `wrappers.dfy` — `Option`, which stands for Java's nullable references.
- `presence.dfy` — module `Presence`. It holds the registry as a value, one
  pure transition per socket handler, and the lemmas about sequences of
  joins and leaves.
- `socket_events.dfy` — module `SocketEvents`. Class `SocketHandler` updates
  its three tables in place. Each handler returns the deliveries it sends
  and is proved to perform the matching `Presence` transition.
- `socket_auth.dfy` — module `SocketAuth`: token extraction, the
  authorisation decision, the listener that writes the `userId` parameter,
  and the port.
- `meetups.dfy` — module `Meetups`: class `MeetupController` over a store
  of meetups keyed by id.
- `accounts.dfy` — module `Accounts`: class `AuthController` over a store
  of users keyed by id.

Foreign code is passed in as parameters: token parsing and validation, user
lookup, password hashing and checking, ids assigned by the store, the clock,
and random draws. A call that can throw returns an `Answer` that is either
`Returned(value)` or `Threw`. Where the store's single-result lookup
(`findByEmail`, `findByInviteCode`) meets more than one document it throws.
The model answers `InternalServerError` in that case.

The model follows the code in these places, where a reader might expect
something else:

- A `join_meetup` never takes the user out of the meetup it was in before.
  It also replaces the presence record, so the previous location is lost.
  After a disconnect the user therefore stays in the earlier meetup's set
  with no presence record (`Presence.JoinKeepsEarlierRoom`). "A user is in
  a meetup's set exactly when its record names that meetup" does not hold.
  Disconnecting does not always clean up every membership.
- An explicit leave keeps the presence record and its meetup, so a later
  disconnect leaves the same meetup a second time.
- A location update is broadcast to the meetup named in the message, even
  when the sender has no presence record.
- The meetup listing's comparator ranks an undated left operand last.
  Dated meetups come latest first and undated ones after them. Nothing is
  promised about the order among undated meetups or among equal times.
- Registration checks whether the email exists exactly as typed, but stores
  it lower-cased. Login looks the email up exactly as typed.

## Model

| member | source | states |
|---|---|---|
| Presence.MeetupRoomInjective | src/main/java/com/trulo/trulomeetuptracker/socket/SocketHandler.java:47 | distinct meetups get distinct transport room names |
| Presence.GetUserId | src/main/java/com/trulo/trulomeetuptracker/socket/SocketHandler.java:29-35 | a connection's user is the first value of its `userId` parameter, and null exactly when the parameter is missing or empty |
| Presence.RoomKindsDisjoint | src/main/java/com/trulo/trulomeetuptracker/socket/SocketHandler.java:38-42 | a personal `user_` room never coincides with a `meetup_` room, including for a null user id |
| Presence.JoinRoom | src/main/java/com/trulo/trulomeetuptracker/socket/SocketHandler.java:47 | entering a room adds the session to that room and changes no other room |
| Presence.LeaveRoom | src/main/java/com/trulo/trulomeetuptracker/socket/SocketHandler.java:142 | leaving a room removes the session from that room and changes no other room |
| Presence.Connect | src/main/java/com/trulo/trulomeetuptracker/socket/SocketHandler.java:37-42 | a connection only adds its session to the personal room of its user |
| Presence.Join | src/main/java/com/trulo/trulomeetuptracker/socket/SocketHandler.java:44-71 | join writes a fresh presence record (this session, this meetup, no location, now); adds the user to the meetup's set and the session to its room; leaves every other user, meetup set and room as it was; keeps every meetup set non-empty |
| Presence.UpdateLocation | src/main/java/com/trulo/trulomeetuptracker/socket/SocketHandler.java:73-98 | an unknown user changes nothing; otherwise only that user's location and last-seen time change, and the session and meetup stay |
| Presence.Leave | src/main/java/com/trulo/trulomeetuptracker/socket/SocketHandler.java:141-165 | leave removes the user from the meetup's set, dropping the entry exactly when the set is empty; removes the session from the room; changes no presence record and no other meetup |
| Presence.Disconnect | src/main/java/com/trulo/trulomeetuptracker/socket/SocketHandler.java:125-139 | a null or unknown user changes nothing; otherwise the user's record is removed and only the recorded meetup loses the user |
| Presence.CloseSession | src/main/java/com/trulo/trulomeetuptracker/socket/SocketHandler.java:125-139 | the closed session is removed from every room and nothing else changes |
| Presence.RepeatedJoinKeepsRooms | src/main/java/com/trulo/trulomeetuptracker/socket/SocketHandler.java:44-71 | a repeated join changes no meetup set or room, and its broadcast reaches the same sessions |
| Presence.JoinKeepsEarlierRoom | src/main/java/com/trulo/trulomeetuptracker/socket/SocketHandler.java:44-71 | after joining a second meetup and then disconnecting, the user has no record but is still in the first meetup's set |
| Presence.DisconnectAfterLeaveLeavesAgain | src/main/java/com/trulo/trulomeetuptracker/socket/SocketHandler.java:125-165 | after a leave the record still names the meetup, and the later disconnect changes no meetup set |
| Presence.ReplayMembership | src/main/java/com/trulo/trulomeetuptracker/socket/SocketHandler.java:44-165 | after any sequence of joins and leaves on a meetup, a user is in its set exactly when that user's last operation was a join (or, with none, when it was in the set before) |
| Presence.ReplayKeepsNoEmptyRoom | src/main/java/com/trulo/trulomeetuptracker/socket/SocketHandler.java:141-150 | no sequence of joins and leaves leaves an empty meetup set in the directory |
| SocketEvents.RecipientsOfAppend | src/main/java/com/trulo/trulomeetuptracker/socket/SocketHandler.java:64-69 | one more delivery adds exactly its session to the set of sessions reached |
| SocketEvents.ListingExtend | src/main/java/com/trulo/trulomeetuptracker/socket/SocketHandler.java:110-119 | adding one user's entry (with its record's location and last-seen time) to a listing extends the set listed by exactly that user |
| SocketEvents.ListingStep | src/main/java/com/trulo/trulomeetuptracker/socket/SocketHandler.java:110-119 | looking at one more member of the meetup's set lists it exactly when it has a presence record |
| SocketEvents.BroadcastStep | src/main/java/com/trulo/trulomeetuptracker/socket/SocketHandler.java:64-69 | looking at one more room member sends one delivery to it, or none if it is the sender |
| SocketEvents.Broadcast | src/main/java/com/trulo/trulomeetuptracker/socket/SocketHandler.java:64-69 | every room member except the sender gets the event exactly once, and nobody else gets anything |
| SocketEvents.SocketHandler.constructor | src/main/java/com/trulo/trulomeetuptracker/socket/SocketHandler.java:20-27 | a new handler has empty tables |
| SocketEvents.SocketHandler.OnConnect | src/main/java/com/trulo/trulomeetuptracker/socket/SocketHandler.java:37-42 | the tables change as `Connect` says |
| SocketEvents.SocketHandler.OnJoinMeetup | src/main/java/com/trulo/trulomeetuptracker/socket/SocketHandler.java:44-71 | the tables change as `Join` says, and `user_joined` goes once to each other session already in the room |
| SocketEvents.SocketHandler.OnLocationUpdate | src/main/java/com/trulo/trulomeetuptracker/socket/SocketHandler.java:73-98 | the tables change as `UpdateLocation` says, and `location_updated` goes to each other session in the payload meetup's room, whether or not the user has a record |
| SocketEvents.SocketHandler.OnLeaveMeetup | src/main/java/com/trulo/trulomeetuptracker/socket/SocketHandler.java:100-104 | the tables change as `Leave` says, and `user_left` goes to the sessions still in the room |
| SocketEvents.SocketHandler.OnGetActiveUsers | src/main/java/com/trulo/trulomeetuptracker/socket/SocketHandler.java:106-123 | exactly one reply goes to the asking session; it lists each user of `ActiveIn` once with its record's location and last-seen time; the tables are not changed |
| SocketEvents.SocketHandler.OnDisconnect | src/main/java/com/trulo/trulomeetuptracker/socket/SocketHandler.java:125-139 | the tables change as `Disconnect` then `CloseSession` say; `user_left` is sent to the rest of the recorded room only when there is a recorded room |
| SocketEvents.SocketHandler.HandleLeave | src/main/java/com/trulo/trulomeetuptracker/socket/SocketHandler.java:141-165 | the tables change as `Leave` says, and `user_left` goes to each session left in the room |
| SocketAuth.BearerToken | src/main/java/com/trulo/trulomeetuptracker/socket/SocketIOConfig.java:49-53 | a header yields a token exactly when it starts with `Bearer `, and prefix plus token give back the header |
| SocketAuth.BearerRoundTrip | src/main/java/com/trulo/trulomeetuptracker/socket/SocketIOConfig.java:51-52 | `Bearer ` followed by a token yields that token |
| SocketAuth.ExtractToken | src/main/java/com/trulo/trulomeetuptracker/socket/SocketIOConfig.java:48-54 | a single `token` URL parameter wins; the header is used only when it is absent; a bearer header then always yields a token |
| SocketAuth.Authorize | src/main/java/com/trulo/trulomeetuptracker/socket/SocketIOConfig.java:56-73 | admitted exactly when the token is present, non-empty, names a user id, validates, and that user exists; a missing or empty token calls nothing; the user is looked up only after extraction and validation succeeded |
| SocketAuth.HandshakeData.constructor | src/main/java/com/trulo/trulomeetuptracker/socket/SocketIOConfig.java:45 | a handshake holds the given parameters and headers |
| SocketAuth.IsAuthorized | src/main/java/com/trulo/trulomeetuptracker/socket/SocketIOConfig.java:44-74 | the answer is `Authorize`'s verdict; the parameters are unchanged on rejection; on acceptance `userId` is set to exactly the resolved id, which is then what the handler reads |
| SocketAuth.AdmittedConnectionCarriesUser | src/main/java/com/trulo/trulomeetuptracker/socket/SocketIOConfig.java:66 | once the gate has written the id, the handler reads exactly that id, whatever `userId` the client sent |
| SocketAuth.SocketPort | src/main/java/com/trulo/trulomeetuptracker/socket/SocketIOConfig.java:21-36 | the socket port is the server port plus one in 32-bit arithmetic: never equal to it, and one above it modulo 2^32 |
| SocketAuth.DefaultSocketPort | src/main/java/com/trulo/trulomeetuptracker/socket/SocketIOConfig.java:21-36 | with the default server port 5000, the socket server listens on 5001 |
| Meetups.UsersAppend | src/main/java/com/trulo/trulomeetuptracker/controller/MeetupController.java:155-161 | the users of two concatenated participant lists are the union of their users |
| Meetups.GenerateInviteCode | src/main/java/com/trulo/trulomeetuptracker/controller/MeetupController.java:232-240 | the code has six characters, each from A-Z or 0-9 |
| Meetups.NewMeetup | src/main/java/com/trulo/trulomeetuptracker/controller/MeetupController.java:32-48 | a new meetup has the creator as its only, accepted participant; status `scheduled`; the request's settings or the defaults (sharing on, auto-start off, arrival notice on); the creator may see it |
| Meetups.ListedAreViewable | src/main/java/com/trulo/trulomeetuptracker/controller/MeetupController.java:63-71 | every listed meetup is one `getMeetup` shows the same user, and it has the requested status |
| Meetups.InsertByTime | src/main/java/com/trulo/trulomeetuptracker/controller/MeetupController.java:72-78 | insertion adds exactly the new meetup to the listing |
| Meetups.ConsOrdered | src/main/java/com/trulo/trulomeetuptracker/controller/MeetupController.java:72-78 | a head that may precede every later entry keeps a listing in schedule order |
| Meetups.InsertByTimeOrdered | src/main/java/com/trulo/trulomeetuptracker/controller/MeetupController.java:72-78 | insertion keeps dated meetups latest first and undated ones after all dated ones |
| Meetups.GetMeetup | src/main/java/com/trulo/trulomeetuptracker/controller/MeetupController.java:87-105 | not found exactly when the id is absent; forbidden exactly when the user is neither a participant nor the creator; otherwise ok with the meetup |
| Meetups.CreatorCheck | src/main/java/com/trulo/trulomeetuptracker/controller/MeetupController.java:142-150 | ok exactly when the meetup exists and the user created it; not found exactly when it is absent; forbidden otherwise |
| Meetups.FirstIndexOf | src/main/java/com/trulo/trulomeetuptracker/controller/MeetupController.java:116-118 | finds the user's first entry when there is one, and reports none exactly when the user has no entry |
| Meetups.JoinParticipants | src/main/java/com/trulo/trulomeetuptracker/controller/MeetupController.java:116-130 | refused exactly when the first entry is already accepted; otherwise only that entry becomes accepted, or an accepted entry is appended when there is none |
| Meetups.JoinThenRejoinRefused | src/main/java/com/trulo/trulomeetuptracker/controller/MeetupController.java:116-130 | after a successful join the user has an entry and joining again is refused |
| Meetups.FirstIndexUnique | src/main/java/com/trulo/trulomeetuptracker/controller/MeetupController.java:116-118 | an entry of the user with none before it is the one found |
| Meetups.NewUsers | src/main/java/com/trulo/trulomeetuptracker/controller/MeetupController.java:155-160 | the users an invitation adds, defined as the first occurrence of each requested user without an entry in request order, are distinct and are exactly the requested users without an entry |
| Meetups.AddInvitations | src/main/java/com/trulo/trulomeetuptracker/controller/MeetupController.java:152-161 | the list only grows at the end, by one `invited` entry per added user; the added users are exactly `NewUsers` of the request, in request order; afterwards every requested user has an entry |
| Meetups.RemoveParticipantEntries | src/main/java/com/trulo/trulomeetuptracker/controller/MeetupController.java:208 | removal drops exactly the user's entries and keeps every other; removing an absent user changes nothing |
| Meetups.RemoveParticipant | src/main/java/com/trulo/trulomeetuptracker/controller/MeetupController.java:208 | removal never lengthens the list (which entries go is stated by `RemoveParticipantEntries`, their order by `RemoveParticipantConcat`) |
| Meetups.RemoveParticipantConcat | src/main/java/com/trulo/trulomeetuptracker/controller/MeetupController.java:208 | removal distributes over concatenation, so the remaining entries keep their order |
| Meetups.InvitedCanView | src/main/java/com/trulo/trulomeetuptracker/controller/MeetupController.java:152-161 | after an invitation every requested user may see the meetup |
| Meetups.LeaveRevokesView | src/main/java/com/trulo/trulomeetuptracker/controller/MeetupController.java:203-208 | a participant other than the creator who leaves can no longer see the meetup |
| Meetups.MeetupController.constructor | src/main/java/com/trulo/trulomeetuptracker/controller/MeetupController.java:22-23 | the store starts empty |
| Meetups.MeetupController.CreateMeetup | src/main/java/com/trulo/trulomeetuptracker/controller/MeetupController.java:28-57 | answers created and inserts, under a fresh id, exactly `NewMeetup` of the request (title, description, place, time, duration, privacy copied) with an invite code added exactly when it is public; the code is well formed |
| Meetups.MeetupController.GetMeetups | src/main/java/com/trulo/trulomeetuptracker/controller/MeetupController.java:59-85 | the listing holds each visible meetup with the requested status exactly once, in schedule order; the store is not changed |
| Meetups.MeetupController.JoinMeetup | src/main/java/com/trulo/trulomeetuptracker/controller/MeetupController.java:107-137 | unknown code gives not found; a code shared by several meetups gives a server error; otherwise the one meetup's participants change as `JoinParticipants` says, or bad request when it refuses |
| Meetups.MeetupController.InviteUsers | src/main/java/com/trulo/trulomeetuptracker/controller/MeetupController.java:139-170 | answers `CreatorCheck`; on ok the meetup's participants gain `invited` entries for exactly `NewUsers` of the request, in request order (none when `userIds` is missing); with no user added the store is unchanged |
| Meetups.MeetupController.UpdateStatus | src/main/java/com/trulo/trulomeetuptracker/controller/MeetupController.java:172-192 | answers `CreatorCheck`; on ok only the status changes, to the body's value or absent |
| Meetups.MeetupController.LeaveMeetup | src/main/java/com/trulo/trulomeetuptracker/controller/MeetupController.java:194-212 | answers only ok, not found or bad request: not found for an unknown id, bad request exactly for the creator, otherwise ok with the user's entries removed |
| Meetups.MeetupController.DeleteMeetup | src/main/java/com/trulo/trulomeetuptracker/controller/MeetupController.java:214-230 | answers `CreatorCheck`; on ok only that meetup is removed from the store |
| Accounts.LowerChar | src/main/java/com/trulo/trulomeetuptracker/controller/AuthController.java:45 | the result is never an upper-case letter; upper-case letters map to their lower-case form and every other character stays |
| Accounts.ToLower | src/main/java/com/trulo/trulomeetuptracker/controller/AuthController.java:45 | same length, lower-case throughout, character by character, and a lower-case string stays as it is |
| Accounts.Utf16Length | src/main/java/com/trulo/trulomeetuptracker/controller/AuthController.java:108 | a string's length in UTF-16 code units lies between its character count and twice that, and equals the count when every character is in the Basic Multilingual Plane |
| Accounts.SupplementaryCharMeetsMinimum | src/main/java/com/trulo/trulomeetuptracker/controller/AuthController.java:108 | a one-character query outside the Basic Multilingual Plane is two code units long, so it meets the minimum query length |
| Accounts.StripPassword | src/main/java/com/trulo/trulomeetuptracker/controller/AuthController.java:132-147 | the password is removed and every other field is kept |
| Accounts.RegisteredUser | src/main/java/com/trulo/trulomeetuptracker/controller/AuthController.java:43-49 | the stored user has the lower-cased email, the hashed password, the given username and display name, is offline, was last seen now, and has no friends and no meetups |
| Accounts.MixedCaseEmailMatchesNoUser | src/main/java/com/trulo/trulomeetuptracker/controller/AuthController.java:36-45 | when all stored emails are lower-case, an email with an upper-case letter passes the existence check and matches no user at login |
| Accounts.SearchStep | src/main/java/com/trulo/trulomeetuptracker/controller/AuthController.java:117-125 | looking at one more stored user keeps the partial answer well formed |
| Accounts.AuthController.constructor | src/main/java/com/trulo/trulomeetuptracker/controller/AuthController.java:25-26 | the user store starts empty |
| Accounts.AuthController.Register | src/main/java/com/trulo/trulomeetuptracker/controller/AuthController.java:34-61 | bad request exactly when the email as typed or the username is taken; a missing email otherwise fails; else the `RegisteredUser` is stored and returned without its password; stored emails stay lower-case |
| Accounts.AuthController.Login | src/main/java/com/trulo/trulomeetuptracker/controller/AuthController.java:63-84 | answers only ok, bad request or server error; server error exactly when several users have the email; no user with it, or a wrong password, gives bad request; on success only that user changes, to online and seen now, and it is returned without its password |
| Accounts.AuthController.Logout | src/main/java/com/trulo/trulomeetuptracker/controller/AuthController.java:94-104 | the stored principal is saved back offline and seen now |
| Accounts.AuthController.SearchUsers | src/main/java/com/trulo/trulomeetuptracker/controller/AuthController.java:106-130 | a missing query or one under two UTF-16 code units is refused; otherwise at most ten distinct matching users other than the searcher come back without passwords, and every one of them when fewer than ten do |

## Left out

- The transport itself is not modelled: sockets, acknowledgements, the wire format, and netty's threads.
- The concurrent tables are not modelled as concurrent: each handler runs as one atomic step.
- Room members and the store's documents are enumerated in an unspecified order. The model draws them in any order from a set, so the order among broadcast recipients, among undated meetups and among search results is not fixed.
- Time is an integer supplied by the caller. Floating-point coordinates are reals.
- Logging to standard output is left out.
- The signed token in login and register responses is left out (JwtUtil is not part of this model). Token parsing, token validation, password hashing and password checking are opaque functions passed in.
- The authentication filter that supplies the current user is not part of this model. Endpoints take the current user's id, or for logout the principal, as a parameter.
- `getMe` is left out: it only returns the principal without its password (see `StripPassword`).
- `populateMeetup`, which decorates a meetup with user records for the response, is not part of this model. Endpoints return the stored meetup.
- Store-managed audit timestamps (`createdAt`, `updatedAt`) are left out.
- Unique indexes on email, username and invite code are treated as not enforced: duplicates can be stored, and a lookup that meets two of them fails.
- JSON binding of request bodies is left out, including the request's defaults of 120 minutes and public. A request is taken as already decoded.
- A null `meetupId` in a socket message is not modelled: meetup ids are always present. In the source, `join_meetup` with a null id joins the room `meetup_null`, writes a presence record with a null meetup and then throws at the directory update, which refuses null keys; that record later makes a disconnect leave no meetup. `get_active_users` with a null id throws before replying, and `leave_meetup` throws after leaving `meetup_null` without sending anything. The presence record's meetup can therefore be absent in the model's type, but no modelled transition produces such a record.
- Handler paths with a null user id are excluded: `join_meetup`, `location_update` and `leave_meetup` require a connection the gate admitted (`Presence.Admitted`). Null ids are modelled only in `onConnect` and `onDisconnect`.
- The transport's `getSingleUrlParam` is assumed to give a value only when the parameter occurs exactly once (`SocketAuth.GetSingleUrlParam`); the transport's own code is not part of this model.
- Header names are matched exactly; the transport's case-insensitive header lookup is not modelled.
- Accounts.ToLower: lower-cases ASCII letters only. Java's full Unicode case mapping is not modelled.
- Accounts.AuthController.Register: a null password, which the hasher would reject, is not modelled; the request's password is always present.
- Meetups.GenerateInviteCode: the random draw is left open, so only the shape of the code is stated, not its distribution.
- Meetups.MeetupController.GetMeetups: on large inputs the library sort may throw because the comparator is inconsistent for two undated meetups. The model does not capture this.
