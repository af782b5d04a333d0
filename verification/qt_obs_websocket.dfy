/**
 * The obs-websocket v4 client QtObsWebsocket: random message ids, request
 * bodies, the single reply slot, the authentication handshake and the gate
 * that keeps privileged commands back until the client is authenticated.
 *
 * The transport is abstracted: sending a frame appends the request body to
 * the log `sent`, and "the next text message that arrives" is an argument of
 * every request. The random generator is a supplied sequence of 32-bit draws,
 * and the SHA-256-then-base64 encoder is the function argument `hash`.
 */
module ObsWebsocket {
  import opened Json
  import opened ObsResponse
  import Decimal

  type uint16 = x: int | 0 <= x < 0x1_0000
  type uint32 = x: int | 0 <= x < 0x1_0000_0000

  /** The default length of a message id. */
  const DefaultIdLength: nat := 16

  /** The endpoint used unless a constructor names another one. */
  const DefaultUrl: string := "ws://127.0.0.1:4444"

  const Lowercase: string := "abcdefghijklmnopqrstuvwxyz"
  const Digits: string := "0123456789"
  const Uppercase: string := "ABCDEFGHIJKLMNOPQRSTUVWXYZ"

  /**
   * The 63-slot character array of generateMessageId: the 62-character
   * literal (lower-case letters, digits, upper-case letters) and the NUL that
   * terminates it.
   */
  const Pool: string := Lowercase + Digits + Uppercase + "\0"

  /** The bound passed to the random generator: the array's size minus one. */
  const PoolSize: uint32 := |Pool| - 1

  predicate IsAlphanumeric(c: char)
  {
    'a' <= c <= 'z' || '0' <= c <= '9' || 'A' <= c <= 'Z'
  }

  // ---------------------------------------------------------------------------
  // Message ids

  /**
   * QRandomGenerator::bounded(highest) applied to one 32-bit draw: the draw
   * scaled into [0, highest) by multiplying and dropping the low 32 bits.
   */
  function Bounded(draw: uint32, highest: uint32): (r: uint32)
    ensures highest > 0 ==> r < highest
  {
    BoundedBelow(draw, highest);
    (draw * highest) / 0x1_0000_0000
  }

  lemma BoundedBelow(draw: uint32, highest: uint32)
    ensures (draw * highest) / 0x1_0000_0000 <= highest
    ensures highest > 0 ==> (draw * highest) / 0x1_0000_0000 < highest
  {
  }

  /** Where each character sits in the pool: a-z at 0-25, 0-9 at 26-35, A-Z at 36-61. */
  lemma PoolLayout(i: nat)
    requires i < PoolSize
    ensures i < 26 ==> Pool[i] == ('a' as int + i) as char
    ensures 26 <= i < 36 ==> Pool[i] == ('0' as int + (i - 26)) as char
    ensures 36 <= i ==> Pool[i] == ('A' as int + (i - 36)) as char
  {
  }

  /** The pool entries the generator can reach are letters and digits; the NUL is never drawn. */
  lemma PoolAlphabet()
    ensures |Pool| == 63 && PoolSize == 62 && Pool[PoolSize] == '\0'
    ensures forall i :: 0 <= i < PoolSize ==> IsAlphanumeric(Pool[i])
  {
    forall i | 0 <= i < PoolSize
      ensures IsAlphanumeric(Pool[i])
    {
      PoolLayout(i);
    }
  }

  /** The message id built from a sequence of draws, one character per draw, in order. */
  function IdFromDraws(draws: seq<uint32>): (id: string)
    ensures |id| == |draws|
    ensures forall i :: 0 <= i < |id| ==> IsAlphanumeric(id[i])
  {
    if draws == [] then ""
    else
      PoolAlphabet();
      IdFromDraws(draws[..|draws| - 1]) + [Pool[Bounded(draws[|draws| - 1], PoolSize)]]
  }

  /** The position of an alphanumeric character in the pool. */
  function PoolIndex(c: char): (i: nat)
    requires IsAlphanumeric(c)
    ensures i < PoolSize && Pool[i] == c
  {
    var i := if 'a' <= c <= 'z' then c as int - 'a' as int
      else if '0' <= c <= '9' then 26 + (c as int - '0' as int)
      else 36 + (c as int - 'A' as int);
    PoolLayout(i);
    i
  }

  /** A draw that makes the generator pick pool entry i. */
  function DrawFor(i: nat): (draw: uint32)
    requires i < PoolSize
    ensures Bounded(draw, PoolSize) == i
  {
    (i * 0x1_0000_0000 + PoolSize - 1) / PoolSize
  }

  /**
   * Every alphanumeric string is a message id some draws produce: together
   * with the contract of IdFromDraws, the ids of length n are exactly the
   * alphanumeric strings of length n.
   */
  function DrawsFor(id: string): (draws: seq<uint32>)
    requires forall i :: 0 <= i < |id| ==> IsAlphanumeric(id[i])
    ensures |draws| == |id| && IdFromDraws(draws) == id
  {
    if id == [] then []
    else
      var draws := DrawsFor(id[..|id| - 1]) + [DrawFor(PoolIndex(id[|id| - 1]))];
      assert draws[..|draws| - 1] == DrawsFor(id[..|id| - 1]);
      draws
  }

  // ---------------------------------------------------------------------------
  // Request bodies

  /**
   * The body sendRequest sends: "request-type" and "message-id", then every
   * parameter written at the top level, a parameter replacing a built entry
   * of the same key.
   */
  function Request(requestType: string, messageId: string, parameters: Option<Object>): Object
  {
    var built := map["request-type" := JString(requestType), "message-id" := JString(messageId)];
    if parameters.None? then built else built + parameters.value
  }

  /** Without parameters the body holds exactly the command name and the id. */
  lemma RequestWithoutParameters(requestType: string, messageId: string)
    ensures Request(requestType, messageId, None).Keys == {"request-type", "message-id"}
    ensures Request(requestType, messageId, None)["request-type"] == JString(requestType)
    ensures Request(requestType, messageId, None)["message-id"] == JString(messageId)
  {
  }

  /**
   * With parameters, every parameter is in the body with its value, the built
   * entries survive unless a parameter of the same key replaces them, and no
   * other key appears.
   */
  lemma RequestWithParameters(requestType: string, messageId: string, parameters: Object)
    ensures Request(requestType, messageId, Some(parameters)).Keys
      == {"request-type", "message-id"} + parameters.Keys
    ensures forall k :: k in parameters ==> Request(requestType, messageId, Some(parameters))[k] == parameters[k]
    ensures "request-type" !in parameters
      ==> Request(requestType, messageId, Some(parameters))["request-type"] == JString(requestType)
    ensures "message-id" !in parameters
      ==> Request(requestType, messageId, Some(parameters))["message-id"] == JString(messageId)
  {
  }

  /**
   * The challenge response of the Authenticate request: a function of the
   * password, the salt and the challenge alone.
   */
  function AuthResponse(hash: string -> string, password: string, salt: string, challenge: string): string
  {
    hash(hash(password + salt) + challenge)
  }

  function AuthenticateRequest(messageId: string, hash: string -> string, password: string, authInfo: AuthInfo): Object
  {
    Request("Authenticate", messageId, Some(map["auth" := JString(AuthResponse(hash, password, authInfo.passwordSalt, authInfo.challenge))]))
  }

  /** The Authenticate frame carries the command name, the id and the challenge response, and nothing else. */
  lemma AuthenticateRequestShape(messageId: string, hash: string -> string, password: string, authInfo: AuthInfo)
    ensures var body := AuthenticateRequest(messageId, hash, password, authInfo);
      && body.Keys == {"request-type", "message-id", "auth"}
      && body["request-type"] == JString("Authenticate")
      && body["message-id"] == JString(messageId)
      && body["auth"] == JString(hash(hash(password + authInfo.passwordSalt) + authInfo.challenge))
  {
  }

  /** The id a request takes from the draws it is given: the first DefaultIdLength of them. */
  function RequestId(draws: seq<uint32>): string
    requires DefaultIdLength <= |draws|
  {
    IdFromDraws(draws[..DefaultIdLength])
  }

  /** Whether the handshake leaves the client authenticated, starting from `before`. */
  function HandshakeResult(before: bool, password: Option<string>, authInfoReply: Object, authReply: Object): bool
  {
    if DecodeAuthInfo(authInfoReply).authRequired then
      if password.Some? then DecodeResponse(authReply).status == "ok" else before
    else true
  }

  /** The frames the handshake sends: GetAuthRequired, then Authenticate when a password answers a challenge. */
  function HandshakeFrames(password: Option<string>, hash: string -> string, draws: seq<uint32>, authInfoReply: Object): seq<Object>
    requires 2 * DefaultIdLength <= |draws|
  {
    var authInfo := DecodeAuthInfo(authInfoReply);
    [Request("GetAuthRequired", RequestId(draws), None)]
      + if authInfo.authRequired && password.Some?
        then [AuthenticateRequest(RequestId(draws[DefaultIdLength..]), hash, password.value, authInfo)]
        else []
  }

  /**
   * A client that starts unauthenticated ends the handshake authenticated
   * exactly when the server asks for no authentication, or a password was
   * given and the server accepted its Authenticate request.
   */
  lemma HandshakeAuthenticates(password: Option<string>, authInfoReply: Object, authReply: Object)
    ensures HandshakeResult(false, password, authInfoReply, authReply)
      <==> !ReadsBool(authInfoReply, "authRequired", true)
           || (password.Some? && ReadsString(authReply, "status", "ok"))
  {
  }

  /** A handshake never sends an Authenticate request without a password and a server that asks for one. */
  lemma HandshakeSendsPasswordOnlyWhenAsked(password: Option<string>, hash: string -> string, draws: seq<uint32>,
                                            authInfoReply: Object)
    requires 2 * DefaultIdLength <= |draws|
    ensures var frames := HandshakeFrames(password, hash, draws, authInfoReply);
      && (|frames| == 1 || |frames| == 2)
      && (|frames| == 2 <==> password.Some? && ReadsBool(authInfoReply, "authRequired", true))
      && frames[0] == Request("GetAuthRequired", RequestId(draws), None)
      && frames[0].Keys == {"request-type", "message-id"}
      && frames[0]["request-type"] == JString("GetAuthRequired")
      && (|frames| == 2 ==>
            && frames[1] == AuthenticateRequest(RequestId(draws[DefaultIdLength..]), hash, password.value,
                                                DecodeAuthInfo(authInfoReply))
            && frames[1]["request-type"] == JString("Authenticate")
            && "auth" in frames[1])
  {
    var authInfo := DecodeAuthInfo(authInfoReply);
    RequestWithoutParameters("GetAuthRequired", RequestId(draws));
    if authInfo.authRequired && password.Some? {
      AuthenticateRequestShape(RequestId(draws[DefaultIdLength..]), hash, password.value, authInfo);
    }
  }

  // ---------------------------------------------------------------------------
  // The client

  class QtObsWebsocket {
    /** m_url: the server endpoint. */
    var url: string
    /** m_authenticated: whether privileged commands may be sent. */
    var authenticated: bool
    /** m_response: the last inbound message, empty once a request has read it. */
    var response: Object
    /** The frames handed to the socket, oldest first. */
    var sent: seq<Object>

    /** QtObsWebsocket(): connects to the default endpoint without a password. */
    constructor (hash: string -> string, draws: seq<uint32>, authInfoReply: Object, authReply: Object)
      requires 2 * DefaultIdLength <= |draws|
      ensures url == DefaultUrl && response == map[]
      ensures authenticated == HandshakeResult(false, None, authInfoReply, authReply)
      ensures sent == HandshakeFrames(None, hash, draws, authInfoReply)
    {
      url := DefaultUrl;
      authenticated := false;
      response := map[];
      sent := [];
      new;
      Connect(None, hash, draws, authInfoReply, authReply);
    }

    /** QtObsWebsocket(password): connects to the default endpoint. */
    constructor WithPassword(password: Option<string>, hash: string -> string, draws: seq<uint32>,
                             authInfoReply: Object, authReply: Object)
      requires 2 * DefaultIdLength <= |draws|
      ensures url == DefaultUrl && response == map[]
      ensures authenticated == HandshakeResult(false, password, authInfoReply, authReply)
      ensures sent == HandshakeFrames(password, hash, draws, authInfoReply)
    {
      url := DefaultUrl;
      authenticated := false;
      response := map[];
      sent := [];
      new;
      Connect(password, hash, draws, authInfoReply, authReply);
    }

    /** QtObsWebsocket(url, password): connects to the given endpoint. */
    constructor WithUrl(url: string, password: Option<string>, hash: string -> string, draws: seq<uint32>,
                        authInfoReply: Object, authReply: Object)
      requires 2 * DefaultIdLength <= |draws|
      ensures this.url == url && response == map[]
      ensures authenticated == HandshakeResult(false, password, authInfoReply, authReply)
      ensures sent == HandshakeFrames(password, hash, draws, authInfoReply)
    {
      this.url := url;
      authenticated := false;
      response := map[];
      sent := [];
      new;
      Connect(password, hash, draws, authInfoReply, authReply);
    }

    /** QtObsWebsocket(ip_address, port, password): connects to ws://<ip_address>:<port>. */
    constructor WithAddress(ipAddress: string, port: uint16, password: Option<string>, hash: string -> string,
                            draws: seq<uint32>, authInfoReply: Object, authReply: Object)
      requires 2 * DefaultIdLength <= |draws|
      ensures url == "ws://" + ipAddress + ":" + Decimal.DecimalString(port) && response == map[]
      ensures authenticated == HandshakeResult(false, password, authInfoReply, authReply)
      ensures sent == HandshakeFrames(password, hash, draws, authInfoReply)
    {
      url := "ws://" + ipAddress + ":" + Decimal.DecimalString(port);
      authenticated := false;
      response := map[];
      sent := [];
      new;
      Connect(password, hash, draws, authInfoReply, authReply);
    }

    /**
     * connect(password) after the socket is open: ask whether authentication
     * is required, then authenticate when it is and a password was given.
     * The first DefaultIdLength draws go to GetAuthRequired, the next ones to
     * Authenticate.
     */
    method Connect(password: Option<string>, hash: string -> string, draws: seq<uint32>,
                   authInfoReply: Object, authReply: Object)
      requires 2 * DefaultIdLength <= |draws|
      modifies this
      ensures url == old(url) && response == map[]
      ensures var authInfo := DecodeAuthInfo(authInfoReply);
        var infoRequest := Request("GetAuthRequired", RequestId(draws), None);
        && (!authInfo.authRequired ==> authenticated && sent == old(sent) + [infoRequest])
        && (authInfo.authRequired && password.None? ==>
              authenticated == old(authenticated) && sent == old(sent) + [infoRequest])
        && (authInfo.authRequired && password.Some? ==>
              && authenticated == (DecodeResponse(authReply).status == "ok")
              && sent == old(sent) + [infoRequest,
                   AuthenticateRequest(RequestId(draws[DefaultIdLength..]), hash, password.value, authInfo)])
      ensures authenticated == HandshakeResult(old(authenticated), password, authInfoReply, authReply)
      ensures sent == old(sent) + HandshakeFrames(password, hash, draws, authInfoReply)
    {
      var authInfo := GetAuthInfo(draws, authInfoReply);
      if authInfo.authRequired {
        if password.Some? {
          authenticated := Authenticate(password.value, authInfo, hash, draws[DefaultIdLength..], authReply);
        }
      } else {
        authenticated := true;
      }
    }

    /** getVersion(): needs no authentication. */
    method GetVersion(draws: seq<uint32>, reply: Object) returns (version: Version)
      requires DefaultIdLength <= |draws|
      modifies this
      ensures sent == old(sent) + [Request("GetVersion", RequestId(draws), None)]
      ensures version == DecodeVersion(reply)
      ensures response == map[] && authenticated == old(authenticated) && url == old(url)
    {
      var data := SendRequest("GetVersion", draws, reply);
      version := DecodeVersion(data);
    }

    /** getAuthInfo(): needs no authentication. */
    method GetAuthInfo(draws: seq<uint32>, reply: Object) returns (authInfo: AuthInfo)
      requires DefaultIdLength <= |draws|
      modifies this
      ensures sent == old(sent) + [Request("GetAuthRequired", RequestId(draws), None)]
      ensures authInfo == DecodeAuthInfo(reply)
      ensures response == map[] && authenticated == old(authenticated) && url == old(url)
    {
      var data := SendRequest("GetAuthRequired", draws, reply);
      authInfo := DecodeAuthInfo(data);
    }

    /** authenticate(password, authInfo): true exactly when the server answers with status "ok". */
    method Authenticate(password: string, authInfo: AuthInfo, hash: string -> string,
                        draws: seq<uint32>, reply: Object) returns (ok: bool)
      requires DefaultIdLength <= |draws|
      modifies this
      ensures sent == old(sent) + [AuthenticateRequest(RequestId(draws), hash, password, authInfo)]
      ensures ok <==> ReadsString(reply, "status", "ok")
      ensures response == map[] && authenticated == old(authenticated) && url == old(url)
    {
      var secret := hash(password + authInfo.passwordSalt);
      var authResponse := hash(secret + authInfo.challenge);
      var authRequest := map["auth" := JString(authResponse)];
      var responseJson := SendRequest("Authenticate", draws, reply, Some(authRequest));
      var decoded := DecodeResponse(responseJson);
      ok := decoded.status == "ok";
    }

    method StartRecording(draws: seq<uint32>, reply: Object)
      requires DefaultIdLength <= |draws|
      modifies this
      ensures !old(authenticated) ==> sent == old(sent) && response == old(response)
      ensures old(authenticated) ==>
        sent == old(sent) + [Request("StartRecording", RequestId(draws), None)] && response == map[]
      ensures authenticated == old(authenticated) && url == old(url)
    {
      SendAuthenticatedCommand("StartRecording", draws, reply);
    }

    method StopRecording(draws: seq<uint32>, reply: Object)
      requires DefaultIdLength <= |draws|
      modifies this
      ensures !old(authenticated) ==> sent == old(sent) && response == old(response)
      ensures old(authenticated) ==>
        sent == old(sent) + [Request("StopRecording", RequestId(draws), None)] && response == map[]
      ensures authenticated == old(authenticated) && url == old(url)
    {
      SendAuthenticatedCommand("StopRecording", draws, reply);
    }

    method StartStreaming(draws: seq<uint32>, reply: Object)
      requires DefaultIdLength <= |draws|
      modifies this
      ensures !old(authenticated) ==> sent == old(sent) && response == old(response)
      ensures old(authenticated) ==>
        sent == old(sent) + [Request("StartStreaming", RequestId(draws), None)] && response == map[]
      ensures authenticated == old(authenticated) && url == old(url)
    {
      SendAuthenticatedCommand("StartStreaming", draws, reply);
    }

    method StopStreaming(draws: seq<uint32>, reply: Object)
      requires DefaultIdLength <= |draws|
      modifies this
      ensures !old(authenticated) ==> sent == old(sent) && response == old(response)
      ensures old(authenticated) ==>
        sent == old(sent) + [Request("StopStreaming", RequestId(draws), None)] && response == map[]
      ensures authenticated == old(authenticated) && url == old(url)
    {
      SendAuthenticatedCommand("StopStreaming", draws, reply);
    }

    /** setCurrentProfile(profile): sends the profile name as "profile-name". */
    method SetCurrentProfile(profile: string, draws: seq<uint32>, reply: Object)
      requires DefaultIdLength <= |draws|
      modifies this
      ensures !old(authenticated) ==> sent == old(sent) && response == old(response)
      ensures old(authenticated) ==>
        && response == map[]
        && sent == old(sent)
             + [Request("SetCurrentProfile", RequestId(draws), Some(map["profile-name" := JString(profile)]))]
      ensures authenticated == old(authenticated) && url == old(url)
    {
      var parameters := map["profile-name" := JString(profile)];
      SendAuthenticatedCommand("SetCurrentProfile", draws, reply, Some(parameters));
    }

    /** setCurrentScene(scene): sends the scene name as "scene-name". */
    method SetCurrentScene(scene: string, draws: seq<uint32>, reply: Object)
      requires DefaultIdLength <= |draws|
      modifies this
      ensures !old(authenticated) ==> sent == old(sent) && response == old(response)
      ensures old(authenticated) ==>
        && response == map[]
        && sent == old(sent) + [Request("SetCurrentScene", RequestId(draws), Some(map["scene-name" := JString(scene)]))]
      ensures authenticated == old(authenticated) && url == old(url)
    {
      var parameters := map["scene-name" := JString(scene)];
      SendAuthenticatedCommand("SetCurrentScene", draws, reply, Some(parameters));
    }

    /** generateMessageId(length): one pool character per draw, `length` of them. */
    static method GenerateMessageId(draws: seq<uint32>, length: nat := DefaultIdLength) returns (result: string)
      requires length <= |draws|
      ensures result == IdFromDraws(draws[..length])
      ensures |result| == length
      ensures forall i :: 0 <= i < length ==> IsAlphanumeric(result[i])
    {
      result := "";
      var i := 0;
      while i < length
        invariant 0 <= i <= length
        invariant result == IdFromDraws(draws[..i])
      {
        // Minus one keeps the terminating NUL out of reach.
        var index := Bounded(draws[i], PoolSize);
        result := result + [Pool[index]];
        assert draws[..i + 1][..i] == draws[..i];
        i := i + 1;
      }
    }

    /**
     * The body-building part of sendRequest: the two built entries, then the
     * parameters written one key at a time.
     */
    static method BuildRequestBody(requestType: string, messageId: string, requestParameters: Option<Object>)
      returns (requestBody: Object)
      ensures requestBody == Request(requestType, messageId, requestParameters)
    {
      requestBody := map[];
      requestBody := requestBody["request-type" := JString(requestType)];
      requestBody := requestBody["message-id" := JString(messageId)];
      if requestParameters.Some? {
        var parameters := requestParameters.value;
        ghost var built := requestBody;
        var keys := parameters.Keys;
        while keys != {}
          invariant keys <= parameters.Keys
          invariant requestBody == built + Restrict(parameters, parameters.Keys - keys)
          decreases keys
        {
          var key :| key in keys;
          requestBody := requestBody[key := parameters[key]];
          keys := keys - {key};
        }
        assert Restrict(parameters, parameters.Keys) == parameters;
      }
    }

    /**
     * sendRequest(requestType, requestParameters): send one request and return
     * whatever text message arrives next, whether or not it answers this
     * request; the reply slot is read and then emptied.
     */
    method SendRequest(requestType: string, draws: seq<uint32>, nextMessage: Object,
                       requestParameters: Option<Object> := None) returns (reply: Object)
      requires DefaultIdLength <= |draws|
      modifies this
      ensures sent == old(sent) + [Request(requestType, RequestId(draws), requestParameters)]
      ensures reply == nextMessage
      ensures response == map[]
      ensures authenticated == old(authenticated) && url == old(url)
    {
      var messageId := GenerateMessageId(draws);
      var requestBody := BuildRequestBody(requestType, messageId, requestParameters);
      sent := sent + [requestBody];
      // The event loop returns once the next text message has been stored.
      OnTextMessageReceived(nextMessage);
      reply := response;
      response := map[];
    }

    /** sendAuthenticatedCommand(command, parameters): sends only when authenticated. */
    method SendAuthenticatedCommand(command: string, draws: seq<uint32>, nextMessage: Object,
                                    parameters: Option<Object> := None)
      requires DefaultIdLength <= |draws|
      modifies this
      ensures !old(authenticated) ==> sent == old(sent) && response == old(response)
      ensures old(authenticated) ==>
        sent == old(sent) + [Request(command, RequestId(draws), parameters)] && response == map[]
      ensures authenticated == old(authenticated) && url == old(url)
    {
      if authenticated {
        var responseObject := SendRequest(command, draws, nextMessage, parameters);
      }
    }

    /** onTextMessageReceived(message): every inbound message overwrites the reply slot. */
    method OnTextMessageReceived(message: Object)
      modifies this
      ensures response == message
      ensures sent == old(sent) && authenticated == old(authenticated) && url == old(url)
    {
      response := message;
    }
  }
}
