/** The socket server's connection gate and its port.

    A credential is taken from the `token` URL parameter or, failing that,
    from an `Authorization: Bearer <token>` header; the connection is admitted
    only when the token names a user, validates and that user exists. Token
    parsing, token validation and the user lookup are foreign code and are
    passed in as functions that either return or throw. */
module SocketAuth {
  import opened Wrappers
  import Presence

  const TokenParam := "token"
  const AuthorizationHeader := "Authorization"
  const BearerPrefix := "Bearer "

  /** What a call into foreign code did: it returned a value or it threw. */
  datatype Answer<T> = Returned(value: T) | Threw

  /** The token library and the user store, as the authoriser sees them.
      `extractUserId` may return a null id; `findUser` says whether a user
      with that id is stored. */
  datatype IdentityServices = IdentityServices(
    extractUserId: string -> Answer<Option<string>>,
    validateToken: string -> Answer<bool>,
    findUser: string -> Answer<bool>)

  /** A call the authoriser makes into the identity services. */
  datatype Call = ExtractUserId(token: string) | ValidateToken(token: string) | FindUser(userId: string)

  /** The verdict of the gate and the calls made to reach it, in order. */
  datatype Outcome = Outcome(admitted: Option<Presence.UserId>, calls: seq<Call>)

  /** The value of a URL parameter given exactly once, as the transport's
      handshake reports it; absent otherwise. */
  function GetSingleUrlParam(urlParams: map<string, seq<string>>, name: string): Option<string>
  {
    if name in urlParams && |urlParams[name]| == 1 then Some(urlParams[name][0]) else None
  }

  predicate StartsWith(s: string, prefix: string)
  {
    |prefix| <= |s| && s[..|prefix|] == prefix
  }

  /** The token carried by an `Authorization` header value. */
  function BearerToken(header: string): (t: Option<string>)
    ensures t.Some? <==> StartsWith(header, BearerPrefix)
    ensures t.Some? ==> BearerPrefix + t.value == header
  {
    if StartsWith(header, BearerPrefix) then Some(header[|BearerPrefix|..]) else None
  }

  lemma BearerRoundTrip(token: string)
    ensures BearerToken(BearerPrefix + token) == Some(token)
  {
    assert (BearerPrefix + token)[..|BearerPrefix|] == BearerPrefix;
    assert (BearerPrefix + token)[|BearerPrefix|..] == token;
  }

  /** The credential of a handshake: the URL parameter wins, and the header is
      read only when that parameter is absent. */
  function ExtractToken(urlParams: map<string, seq<string>>, headers: map<string, string>): (t: Option<string>)
    ensures GetSingleUrlParam(urlParams, TokenParam).Some? ==> t == GetSingleUrlParam(urlParams, TokenParam)
    ensures GetSingleUrlParam(urlParams, TokenParam).None? && t.Some? ==>
              AuthorizationHeader in headers && BearerPrefix + t.value == headers[AuthorizationHeader]
    ensures (&& GetSingleUrlParam(urlParams, TokenParam).None?
             && AuthorizationHeader in headers
             && StartsWith(headers[AuthorizationHeader], BearerPrefix)) ==> t.Some?
  {
    var token := GetSingleUrlParam(urlParams, TokenParam);
    if token.None? && AuthorizationHeader in headers then BearerToken(headers[AuthorizationHeader]) else token
  }

  /** Whether the services vouch for `id` as the user behind `token`. */
  predicate Vouches(svc: IdentityServices, token: string, id: Presence.UserId)
  {
    && svc.extractUserId(token) == Returned(Some(id))
    && svc.validateToken(token) == Returned(true)
    && svc.findUser(id) == Returned(true)
  }

  /** The decision of the gate for a credential. Every thrown exception and
      every failed check rejects. */
  function Authorize(token: Option<string>, svc: IdentityServices): (o: Outcome)
    ensures o.admitted.Some? ==> token.Some? && token.value != "" && Vouches(svc, token.value, o.admitted.value)
    ensures forall id :: token.Some? && token.value != "" && Vouches(svc, token.value, id) ==> o.admitted == Some(id)
    ensures token.None? || token.value == "" ==> o.calls == []
    ensures forall id :: FindUser(id) in o.calls ==>
              svc.extractUserId(token.value) == Returned(Some(id)) && svc.validateToken(token.value) == Returned(true)
  {
    if token.None? || token.value == "" then Outcome(None, [])
    else
      var t := token.value;
      match svc.extractUserId(t)
      case Threw => Outcome(None, [ExtractUserId(t)])
      case Returned(userId) =>
        if userId.None? then Outcome(None, [ExtractUserId(t)])
        else
          var checked := [ExtractUserId(t), ValidateToken(t)];
          if svc.validateToken(t) != Returned(true) then Outcome(None, checked)
          else if svc.findUser(userId.value) == Returned(true) then Outcome(userId, checked + [FindUser(userId.value)])
          else Outcome(None, checked + [FindUser(userId.value)])
  }

  /** The handshake of one connection attempt. The gate writes into its URL
      parameters. */
  class HandshakeData {
    var urlParams: map<string, seq<string>>
    const headers: map<string, string>

    constructor (urlParams: map<string, seq<string>>, headers: map<string, string>)
      ensures this.urlParams == urlParams && this.headers == headers
    {
      this.urlParams := urlParams;
      this.headers := headers;
    }
  }

  /** The authorisation listener. On acceptance, and only then, the resolved
      user id is stored as the `userId` parameter, which is what the socket
      handler later reads as the connection's user. */
  method IsAuthorized(data: HandshakeData, svc: IdentityServices) returns (ok: bool)
    modifies data
    ensures ok <==> Authorize(ExtractToken(old(data.urlParams), data.headers), svc).admitted.Some?
    ensures !ok ==> data.urlParams == old(data.urlParams)
    ensures ok ==>
      data.urlParams == old(data.urlParams)[Presence.UserIdParam := [Authorize(ExtractToken(old(data.urlParams), data.headers), svc).admitted.value]]
    ensures ok ==> Presence.GetUserId(data.urlParams) == Authorize(ExtractToken(old(data.urlParams), data.headers), svc).admitted
  {
    var token := GetSingleUrlParam(data.urlParams, TokenParam);
    if token.None? && AuthorizationHeader in data.headers {
      var auth := data.headers[AuthorizationHeader];
      if StartsWith(auth, BearerPrefix) {
        token := Some(auth[|BearerPrefix|..]);
      }
    }

    if token.None? || token.value == "" {
      return false;
    }

    ok := false;
    match svc.extractUserId(token.value)
    case Threw =>
    case Returned(userId) =>
      if userId.Some? && svc.validateToken(token.value) == Returned(true) {
        if svc.findUser(userId.value) == Returned(true) {
          data.urlParams := data.urlParams[Presence.UserIdParam := [userId.value]];
          ok := true;
        }
      }
  }

  /** A connection the gate admitted is one the socket handler can serve:
      it reads back exactly the user the services vouched for, whatever
      `userId` parameter the client itself sent. */
  lemma AdmittedConnectionCarriesUser(urlParams: map<string, seq<string>>, sid: Presence.SessionId, id: Presence.UserId)
    ensures var client := Presence.Client(sid, urlParams[Presence.UserIdParam := [id]]);
            Presence.Admitted(client) && Presence.GetUserId(client.urlParams) == Some(id)
  {
  }

  // ---- the socket server's port ----

  newtype int32 = x: int | -0x8000_0000 <= x < 0x8000_0000

  const DefaultServerPort: int32 := 5000

  /** The socket server listens one above the web server's port, with Java's
      32-bit wrap-around. */
  function SocketPort(serverPort: int32): (p: int32)
    ensures p != serverPort
    ensures (p as int - serverPort as int) % 0x1_0000_0000 == 1
  {
    if serverPort == 0x7fff_ffff then -0x8000_0000 else serverPort + 1
  }

  lemma DefaultSocketPort()
    ensures SocketPort(DefaultServerPort) == 5001
  {
  }
}
