/** The account endpoints: registration, login, logout and user search, over
    a user store keyed by id. Password hashing and checking are foreign code
    passed in as functions; the signed token each response carries is not
    modelled. */
module Accounts {
  import opened Wrappers

  type UserId = string
  type Time = int

  const SearchLimit := 10
  const MinQueryLength := 2

  datatype Status = Ok | Created | BadRequest | InternalServerError

  datatype User = User(
    id: UserId,
    username: Option<string>,
    email: Option<string>,
    password: Option<string>,
    displayName: Option<string>,
    avatar: Option<string>,
    isOnline: bool,
    lastSeen: Time,
    friends: seq<UserId>,
    meetups: seq<string>)

  datatype RegisterRequest = RegisterRequest(
    username: Option<string>,
    email: Option<string>,
    password: string,
    displayName: Option<string>)

  // ---- text ----

  /** ASCII lower-casing of one character. */
  function LowerChar(c: char): (d: char)
    ensures !('A' <= d <= 'Z')
    ensures 'A' <= c <= 'Z' ==> d as int == c as int + 32
    ensures !('A' <= c <= 'Z') ==> d == c
  {
    if 'A' <= c <= 'Z' then (c as int + 32) as char else c
  }

  predicate IsLower(s: string)
  {
    forall i :: 0 <= i < |s| ==> !('A' <= s[i] <= 'Z')
  }

  function ToLower(s: string): (r: string)
    ensures |r| == |s| && IsLower(r)
    ensures forall i :: 0 <= i < |s| ==> r[i] == LowerChar(s[i])
    ensures IsLower(s) ==> r == s
  {
    seq(|s|, i requires 0 <= i < |s| => LowerChar(s[i]))
  }

  /** The length of `s` in UTF-16 code units, as Java counts it: a character
      outside the Basic Multilingual Plane takes two. */
  function Utf16Length(s: string): (n: nat)
    ensures |s| <= n <= 2 * |s|
    ensures (forall i :: 0 <= i < |s| ==> (s[i] as int) < 0x1_0000) ==> n == |s|
    decreases |s|
  {
    if s == [] then 0
    else Utf16Length(s[..|s| - 1]) + (if s[|s| - 1] as int >= 0x1_0000 then 2 else 1)
  }

  /** A single character outside the Basic Multilingual Plane is two code
      units long, so it already meets the search's minimum query length. */
  lemma SupplementaryCharMeetsMinimum(c: char)
    requires c as int >= 0x1_0000
    ensures Utf16Length([c]) == MinQueryLength
  {
    assert [c][..0] == [];
  }

  /** `sub` occurs in `s` starting at position `i`. */
  predicate OccursAt(s: string, sub: string, i: nat)
  {
    i + |sub| <= |s| && s[i..i + |sub|] == sub
  }

  /** `sub` occurs in `s` at some position; the empty string occurs everywhere. */
  predicate Contains(s: string, sub: string)
  {
    exists i: nat :: i <= |s| && OccursAt(s, sub, i)
  }

  // ---- passwords ----

  /** The user as handed out in a response: everything but the password. */
  function StripPassword(u: User): (r: User)
    ensures r.password.None?
    ensures r.(password := u.password) == u
  {
    u.(password := None)
  }

  // ---- registration ----

  predicate EmailTaken(users: map<UserId, User>, email: Option<string>)
  {
    exists k :: k in users && users[k].email == email
  }

  predicate UsernameTaken(users: map<UserId, User>, username: Option<string>)
  {
    exists k :: k in users && users[k].username == username
  }

  /** Every stored email is lower-case, as registration leaves it. */
  predicate LowerCaseEmails(users: map<UserId, User>)
  {
    forall k :: k in users && users[k].email.Some? ==> IsLower(users[k].email.value)
  }

  /** The user registration stores: email lower-cased, password hashed,
      offline, seen at creation, no friends and no meetups. */
  function RegisteredUser(request: RegisterRequest, id: UserId, email: string, hash: string, now: Time): (u: User)
    ensures u.id == id && u.username == request.username && u.displayName == request.displayName
    ensures u.email == Some(ToLower(email)) && IsLower(u.email.value)
    ensures u.password == Some(hash)
    ensures !u.isOnline && u.lastSeen == now && u.friends == [] && u.meetups == []
  {
    User(id, request.username, Some(ToLower(email)), Some(hash), request.displayName, None, false, now, [], [])
  }

  /** A stored email is lower-case, so an address with an upper-case letter
      matches no stored user: it passes registration's email check even when
      its lower-case form is taken, and login with it finds nobody. */
  lemma MixedCaseEmailMatchesNoUser(users: map<UserId, User>, email: string)
    requires LowerCaseEmails(users)
    requires !IsLower(email)
    ensures !EmailTaken(users, Some(email))
    ensures (set k | k in users && users[k].email == Some(email)) == {}
  {
  }

  // ---- search ----

  /** Some name field of `u`, lower-cased, contains the lower-cased query. */
  predicate MatchesQuery(u: User, query: string)
  {
    || (u.username.Some? && Contains(ToLower(u.username.value), ToLower(query)))
    || (u.displayName.Some? && Contains(ToLower(u.displayName.value), ToLower(query)))
    || (u.email.Some? && Contains(ToLower(u.email.value), ToLower(query)))
  }

  /** The users a search may return: everyone but the searcher who matches. */
  function Eligible(users: map<UserId, User>, currentId: UserId, query: string): (e: set<UserId>)
    ensures e <= users.Keys
    ensures forall k :: k in e <==> k in users && users[k].id != currentId && MatchesQuery(users[k], query)
  {
    set k | k in users && users[k].id != currentId && MatchesQuery(users[k], query)
  }

  function IdsOf(found: seq<User>): set<UserId>
  {
    set u | u in found :: u.id
  }

  predicate DistinctIds(found: seq<User>)
  {
    forall i, j :: 0 <= i < j < |found| ==> found[i].id != found[j].id
  }

  /** A search answer: at most the limit, each an eligible user without its
      password, none twice, and every eligible user when under the limit. */
  predicate IsSearchResult(users: map<UserId, User>, eligible: set<UserId>, found: seq<User>)
  {
    && |found| <= SearchLimit
    && DistinctIds(found)
    && (forall i :: 0 <= i < |found| ==> found[i].id in eligible && found[i].id in users && found[i] == StripPassword(users[found[i].id]))
    && (|found| < SearchLimit ==> IdsOf(found) == eligible)
  }

  /** One user more from the eligible ones keeps a partial answer well formed. */
  lemma SearchStep(users: map<UserId, User>, eligible: set<UserId>, seen: set<UserId>, found: seq<User>, k: UserId)
    requires forall j :: j in users ==> users[j].id == j
    requires k in users && k !in seen
    requires |found| < SearchLimit
    requires IsSearchResult(users, eligible * seen, found)
    ensures k in eligible ==> IsSearchResult(users, eligible * (seen + {k}), found + [StripPassword(users[k])])
    ensures k !in eligible ==> IsSearchResult(users, eligible * (seen + {k}), found)
  {
    var next := found + [StripPassword(users[k])];
    if k in eligible {
      assert IdsOf(next) == IdsOf(found) + {k} by {
        assert forall u :: u in next <==> u in found || u == StripPassword(users[k]);
      }
      forall i, j | 0 <= i < j < |next| ensures next[i].id != next[j].id {
        if j == |found| {
          assert found[i] in found;
        }
      }
    } else {
      assert eligible * (seen + {k}) == eligible * seen;
    }
  }

  // ---- the controller ----

  class AuthController {
    /** The user store, by id. */
    var users: map<UserId, User>

    ghost predicate Valid()
      reads this
    {
      forall k :: k in users ==> users[k].id == k
    }

    constructor ()
      ensures Valid() && users == map[]
    {
      users := map[];
    }

    /** `register`: refused when the email as given or the username is
        already stored; the email is stored lower-cased. `id` is the id the
        store assigns and `encode` the password hasher. A missing email that
        passes the check fails on lower-casing. */
    method Register(request: RegisterRequest, id: UserId, encode: string -> string, now: Time)
      returns (status: Status, user: Option<User>)
      requires Valid() && id !in users
      modifies this
      ensures Valid()
      ensures status == BadRequest <==> EmailTaken(old(users), request.email) || UsernameTaken(old(users), request.username)
      ensures status == InternalServerError <==> status != BadRequest && request.email.None?
      ensures status != Created ==> users == old(users) && user.None?
      ensures status == Created ==>
        && users == old(users)[id := RegisteredUser(request, id, request.email.value, encode(request.password), now)]
        && user == Some(StripPassword(users[id]))
      ensures status in {Created, BadRequest, InternalServerError}
      ensures LowerCaseEmails(old(users)) ==> LowerCaseEmails(users)
    {
      if EmailTaken(users, request.email) || UsernameTaken(users, request.username) {
        return BadRequest, None;
      }
      if request.email.None? {
        return InternalServerError, None;
      }
      var u := RegisteredUser(request, id, request.email.value, encode(request.password), now);
      users := users[id := u];
      status, user := Created, Some(StripPassword(u));
    }

    /** `login`: the user is looked up by the email exactly as given; more
        than one match makes the store's single-result lookup fail. On
        success the user is marked online and seen now. */
    method Login(email: Option<string>, password: string, matches: (string, Option<string>) -> bool, now: Time)
      returns (status: Status, user: Option<User>)
      requires Valid()
      modifies this
      ensures Valid()
      ensures status in {Ok, BadRequest, InternalServerError}
      ensures var found := set k | k in old(users) && old(users)[k].email == email;
        && (status == InternalServerError <==> |found| > 1)
        && (found == {} ==> status == BadRequest)
        && (|found| > 1 ==> status == InternalServerError)
        && (status != Ok ==> users == old(users) && user.None?)
        && (|found| == 1 ==> forall k :: k in found ==>
              && (status == Ok <==> matches(password, old(users)[k].password))
              && (status == Ok ==>
                    && users == old(users)[k := old(users)[k].(isOnline := true, lastSeen := now)]
                    && user == Some(StripPassword(users[k]))))
    {
      var found := set k | k in users && users[k].email == email;
      if found == {} {
        return BadRequest, None;
      }
      if |found| > 1 {
        return InternalServerError, None;
      }
      var k :| k in found;
      assert found == {k} by {
        assert |found - {k}| == 0;
      }
      var u := users[k];
      if !matches(password, u.password) {
        return BadRequest, None;
      }
      u := u.(isOnline := true, lastSeen := now);
      users := users[u.id := u];
      status, user := Ok, Some(StripPassword(u));
    }

    /** `logout`: the authenticated principal is saved back offline and seen now. */
    method Logout(principal: User, now: Time) returns (status: Status)
      requires Valid() && principal.id in users && users[principal.id] == principal
      modifies this
      ensures Valid()
      ensures status == Ok
      ensures users == old(users)[principal.id := principal.(isOnline := false, lastSeen := now)]
    {
      users := users[principal.id := principal.(isOnline := false, lastSeen := now)];
      status := Ok;
    }

    /** `searchUsers`: a query shorter than two characters is refused;
        otherwise up to ten matching users other than the searcher, in the
        order the store hands them over. */
    method SearchUsers(currentId: UserId, query: Option<string>) returns (status: Status, found: seq<User>)
      requires Valid()
      ensures status == BadRequest <==> query.None? || Utf16Length(query.value) < MinQueryLength
      ensures status == BadRequest ==> found == []
      ensures status != BadRequest ==> status == Ok && IsSearchResult(users, Eligible(users, currentId, query.value), found)
    {
      if query.None? || Utf16Length(query.value) < MinQueryLength {
        return BadRequest, [];
      }
      var q := query.value;
      ghost var eligible := Eligible(users, currentId, q);
      var pending := users.Keys;
      ghost var seen: set<UserId> := {};
      found := [];
      while pending != {} && |found| < SearchLimit
        invariant seen + pending == users.Keys && seen !! pending
        invariant IsSearchResult(users, eligible * seen, found)
        decreases pending
      {
        var k :| k in pending;
        SearchStep(users, eligible, seen, found, k);
        var u := users[k];
        if u.id != currentId && MatchesQuery(u, q) {
          found := found + [StripPassword(u)];
        }
        seen := seen + {k};
        pending := pending - {k};
      }
      if pending == {} {
        assert eligible * seen == eligible;
      }
      status := Ok;
    }
  }
}
