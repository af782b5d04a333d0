# qt-obs-websocket: a Dafny model of the obs-websocket v4 client core

`QtObsWebsocket` is a Qt client for version 4 of the obs-websocket protocol,
the JSON-over-WebSocket interface used to drive OBS Studio remotely. This
project models the deterministic core of that client and proves what it
promises:

- **Message ids** (`generateMessageId`). An id is built one character per
  random draw. Each character comes from the 62 letters and digits of a
  63-slot array whose last slot is the terminating NUL. Draws are scaled into
  `[0, 62)`, so the NUL is never chosen. The random generator is a supplied
  sequence of 32-bit draws. `Bounded` scales a draw the way
  `QRandomGenerator::bounded` does: multiply, then drop the low 32 bits.
- **Request bodies** (`sendRequest`). The body is a JSON object with
  `request-type` and `message-id`. The optional parameters are then written
  into it at the top level, one key at a time, so a parameter overrides a
  built entry of the same name.
- **Reply slot** (`m_response`). Every inbound message overwrites the single
  slot. `sendRequest` returns whatever message arrives next and then empties
  the slot. Replies are not matched to requests by id.
- **Reply decoding** (`OBSResponse`, `OBSAuthInfo`, `OBSVersion`). Decoding
  is total: an absent or mistyped field reads as `""` or `false`, and unknown
  keys are ignored. `OBSAuthInfo` overwrites its message id with the `status`
  field. The model keeps that behaviour and proves what it implies.
- **Handshake and gating** (`connect`, `authenticate`,
  `sendAuthenticatedCommand`). `m_authenticated` starts false.
  - The handshake sets it to true when the server needs no authentication.
  - Without a password it leaves the flag unchanged.
  - Otherwise the flag becomes the result of `authenticate`. That method
    sends `hash(hash(password + salt) + challenge)` and succeeds exactly
    when the reply's status is `"ok"`.
  - Privileged commands send a frame only while the flag is true.

Files:

- `json.dfy`: the JSON values the protocol uses and Qt's total `toString()`
  and `toBool()` accessors.
- `obs_response.dfy`: the reply records, their decoders and the replies a
  server sends.
- `decimal.dfy`: the port number's decimal text for `ws://host:port`.
- `qt_obs_websocket.dfy`: message ids, request bodies, the handshake, and the
  class `QtObsWebsocket`. Its fields `url`, `authenticated` and `response`
  are `m_url`, `m_authenticated` and `m_response`. `sent` is the log of
  frames handed to the socket.

Each request consumes the first 16 draws it is given. The handshake is given
32: the first 16 go to `GetAuthRequired`, the next 16 to `Authenticate`.

Inbound messages enter the model already decoded, as JSON objects. The two
source files disagree about the slot `m_response`. The header declares it as a
`QJsonObject` (qtobswebsocket.h:54). The implementation stores a `QString` in
it, then reads and clears it as one (qtobswebsocket.cpp:147, 192-193). Under
either reading `sendRequest` returns the next inbound message, parsed into an
object, and that is what the model states. Here the slot holds the decoded
object, and "empty" means the empty object. Parsing text that is not a JSON
object also gives the empty object.

What the client does not do:

- It keeps no pending-request set and matches no reply to a request by id
  (qtobswebsocket.cpp:185-195).
- It puts no timeout on the wait for a reply (qtobswebsocket.cpp:185-190).
- It delivers no events: every inbound message overwrites `m_response`
  (qtobswebsocket.cpp:146-148).
- A failed privileged command only logs a warning
  (qtobswebsocket.cpp:203-204).
- A handshake without a password, against a server that requires one,
  leaves the client unauthenticated (qtobswebsocket.cpp:54-57).

The model does the same.

## Model

| member | source | states |
|---|---|---|
| `Json.StringAt` | qt-obs-websocket-lib/obsresponse.h:11-13 | `toString()` on a key yields the string stored there, or `""` when the key is absent or holds no string |
| `Json.BoolAt` | qt-obs-websocket-lib/obsresponse.h:23 | `toBool()` on a key yields the boolean stored there, or `false` when the key is absent or holds no boolean |
| `ObsResponse.DecodeResponse` | qt-obs-websocket-lib/obsresponse.h:10-14 | message id, status and error are read from `message-id`, `status` and `error`, each defaulting to `""` |
| `ObsResponse.DecodeAuthInfo` | qt-obs-websocket-lib/obsresponse.h:22-27 | `authRequired` is read with default false, `challenge` and `salt` with default `""`; the message id equals the status |
| `ObsResponse.DecodeVersion` | qt-obs-websocket-lib/obsresponse.h:35-39 | the OBSResponse part equals `DecodeResponse` on the same object; the studio version, plugin version and image formats come from their three keys |
| `ObsResponse.ResponseRoundTrip` | qt-obs-websocket-lib/obsresponse.h:10-14 | every reply record a server encodes decodes back to itself |
| `ObsResponse.VersionRoundTrip` | qt-obs-websocket-lib/obsresponse.h:35-39 | every version record a server encodes decodes back to itself |
| `ObsResponse.AuthInfoRoundTrip` | qt-obs-websocket-lib/obsresponse.h:22-27 | an auth-info record decodes back to itself if and only if its message id equals its status |
| `ObsResponse.AuthInfoIgnoresMessageId` | qt-obs-websocket-lib/obsresponse.h:26 | changing the `message-id` key of an auth-info reply never changes its decoding |
| `ObsResponse.AuthInfoMessageIdIsStatus` | qt-obs-websocket-lib/obsresponse.h:10-27 | a reply with `message-id` "42" and `status` "ok" decodes to id "42" as an OBSResponse but to id "ok" as an OBSAuthInfo |
| `ObsResponse.DecodersIgnoreUnknownKeys` | qt-obs-websocket-lib/obsresponse.h:10-39 | each decoder's result depends only on the keys it reads; any other key is ignored |
| `ObsResponse.DecodeEmpty` | qt-obs-websocket-lib/obsresponse.h:10-39 | the empty object decodes without failure to all-empty strings and `authRequired` false |
| `Decimal.DecimalString` | qt-obs-websocket-lib/qtobswebsocket.cpp:23 | the port's text is a non-empty string of decimal digits that starts with `0` only for port 0 |
| `Decimal.DecimalRoundTrip` | qt-obs-websocket-lib/qtobswebsocket.cpp:23 | the port's text reads back as the port number |
| `ObsWebsocket.Bounded` | qt-obs-websocket-lib/qtobswebsocket.cpp:131 | a scaled draw lies below the positive bound it was scaled to |
| `ObsWebsocket.PoolLayout` | qt-obs-websocket-lib/qtobswebsocket.cpp:125-126 | pool slots 0-25 hold a-z, 26-35 hold 0-9 and 36-61 hold A-Z |
| `ObsWebsocket.PoolAlphabet` | qt-obs-websocket-lib/qtobswebsocket.cpp:125-131 | the pool has 63 slots, the bound is 62, slot 62 is the NUL, and every reachable slot holds a letter or digit |
| `ObsWebsocket.IdFromDraws` | qt-obs-websocket-lib/qtobswebsocket.cpp:128-133 | the id has one character per draw, and every character is a letter or a digit |
| `ObsWebsocket.PoolIndex` | qt-obs-websocket-lib/qtobswebsocket.cpp:125-126 | every letter and digit sits in a reachable pool slot |
| `ObsWebsocket.DrawFor` | qt-obs-websocket-lib/qtobswebsocket.cpp:131 | every reachable pool slot is chosen by some 32-bit draw |
| `ObsWebsocket.DrawsFor` | qt-obs-websocket-lib/qtobswebsocket.cpp:124-136 | every alphanumeric string is the id of some draws, so the ids of length n are exactly the alphanumeric strings of length n |
| `ObsWebsocket.RequestWithoutParameters` | qt-obs-websocket-lib/qtobswebsocket.cpp:169-173 | without parameters the body has exactly the keys `request-type` and `message-id`, which hold the command name and the id |
| `ObsWebsocket.RequestWithParameters` | qt-obs-websocket-lib/qtobswebsocket.cpp:169-180 | with parameters the body's keys are the two built keys plus the parameter keys; every parameter keeps its value, and a built entry survives unless a parameter of that name replaces it |
| `ObsWebsocket.AuthenticateRequestShape` | qt-obs-websocket-lib/qtobswebsocket.cpp:79-86 | the Authenticate frame has exactly the keys `request-type`, `message-id` and `auth`; `auth` is `hash(hash(password + salt) + challenge)`, a function of the password, salt and challenge alone |
| `ObsWebsocket.HandshakeAuthenticates` | qt-obs-websocket-lib/qtobswebsocket.cpp:52-60 | starting unauthenticated, the handshake authenticates if and only if the server does not require authentication, or a password was given and the server's status is `ok` |
| `ObsWebsocket.HandshakeSendsPasswordOnlyWhenAsked` | qt-obs-websocket-lib/qtobswebsocket.cpp:52-60 | the handshake sends one or two frames; the first is always the two-key GetAuthRequired request; there is a second frame if and only if a password was given and the server requires authentication, and that frame is the Authenticate request carrying the challenge response for the decoded salt and challenge |
| `ObsWebsocket.QtObsWebsocket.constructor` | qt-obs-websocket-lib/qtobswebsocket.cpp:10-12 | the client uses `ws://127.0.0.1:4444`, starts unauthenticated with an empty slot and no frames, then runs the handshake without a password |
| `ObsWebsocket.QtObsWebsocket.WithPassword` | qt-obs-websocket-lib/qtobswebsocket.cpp:14-16 | the same as the default constructor, with the given optional password |
| `ObsWebsocket.QtObsWebsocket.WithUrl` | qt-obs-websocket-lib/qtobswebsocket.cpp:18-20 | the client uses the given URL, then runs the handshake from the unauthenticated state |
| `ObsWebsocket.QtObsWebsocket.WithAddress` | qt-obs-websocket-lib/qtobswebsocket.cpp:22-25 | the client uses `ws://<address>:<port>`, then runs the handshake from the unauthenticated state |
| `ObsWebsocket.QtObsWebsocket.Connect` | qt-obs-websocket-lib/qtobswebsocket.cpp:52-60 | no authentication required: the flag becomes true; required with no password: the flag is unchanged and only GetAuthRequired is sent; required with a password: the flag becomes whether the Authenticate reply's status is `ok`, after both frames are sent |
| `ObsWebsocket.QtObsWebsocket.GetVersion` | qt-obs-websocket-lib/qtobswebsocket.cpp:67-71 | sends the two-key GetVersion request, with no authentication check, and returns the decoded version of the next message |
| `ObsWebsocket.QtObsWebsocket.GetAuthInfo` | qt-obs-websocket-lib/qtobswebsocket.cpp:73-77 | sends the two-key GetAuthRequired request and returns the decoded auth info of the next message |
| `ObsWebsocket.QtObsWebsocket.Authenticate` | qt-obs-websocket-lib/qtobswebsocket.cpp:79-94 | sends exactly one Authenticate request carrying the challenge response; returns true if and only if the reply's status is exactly `ok`; leaves the flag alone |
| `ObsWebsocket.QtObsWebsocket.StartRecording` | qt-obs-websocket-lib/qtobswebsocket.cpp:96-98 | when unauthenticated, sends nothing and changes nothing; otherwise sends the two-key StartRecording request |
| `ObsWebsocket.QtObsWebsocket.StopRecording` | qt-obs-websocket-lib/qtobswebsocket.cpp:100-102 | when unauthenticated, sends nothing and changes nothing; otherwise sends the two-key StopRecording request |
| `ObsWebsocket.QtObsWebsocket.StartStreaming` | qt-obs-websocket-lib/qtobswebsocket.cpp:104-106 | when unauthenticated, sends nothing and changes nothing; otherwise sends the two-key StartStreaming request |
| `ObsWebsocket.QtObsWebsocket.StopStreaming` | qt-obs-websocket-lib/qtobswebsocket.cpp:108-110 | when unauthenticated, sends nothing and changes nothing; otherwise sends the two-key StopStreaming request |
| `ObsWebsocket.QtObsWebsocket.SetCurrentProfile` | qt-obs-websocket-lib/qtobswebsocket.cpp:112-116 | when authenticated, sends SetCurrentProfile with the profile as `profile-name`; otherwise sends nothing |
| `ObsWebsocket.QtObsWebsocket.SetCurrentScene` | qt-obs-websocket-lib/qtobswebsocket.cpp:118-122 | when authenticated, sends SetCurrentScene with the scene as `scene-name`; otherwise sends nothing |
| `ObsWebsocket.QtObsWebsocket.GenerateMessageId` | qt-obs-websocket-lib/qtobswebsocket.cpp:124-136 | returns exactly `length` characters (16 by default), all letters or digits, character i taken from draw i |
| `ObsWebsocket.QtObsWebsocket.BuildRequestBody` | qt-obs-websocket-lib/qtobswebsocket.cpp:169-180 | writing the built entries and then each parameter key gives the body the `Request` lemmas describe, in whatever order the keys are visited |
| `ObsWebsocket.QtObsWebsocket.SendRequest` | qt-obs-websocket-lib/qtobswebsocket.cpp:167-196 | appends exactly one frame: the body with a fresh 16-character id and the parameters, which default to none; returns the next inbound message whatever its id; leaves the slot empty |
| `ObsWebsocket.QtObsWebsocket.SendAuthenticatedCommand` | qt-obs-websocket-lib/qtobswebsocket.cpp:198-209 | while unauthenticated, sends no frame and leaves the state unchanged; while authenticated, sends exactly one request for the command |
| `ObsWebsocket.QtObsWebsocket.OnTextMessageReceived` | qt-obs-websocket-lib/qtobswebsocket.cpp:146-148 | an inbound message overwrites the reply slot and nothing else |

## Left out

- The WebSocket transport: opening, closing, the `connected`/`disconnected` slots, and the check in `connect` that closes an already-open socket (qtobswebsocket.cpp:31-50, 63-65, 138-144). Sending is modelled as appending the body to `sent`.
- Blocking in `QEventLoop` until a signal fires. The next inbound message is an argument of each request.
- SHA-256 and base64 in `hashEncode`. They are the function argument `hash`.
- JSON text serialisation and parsing (`jsonObjectToString`, `responseToJsonObject`). The model works on JSON values and claims nothing about their text.
- `QUrl` parsing and normalisation of `m_url` (qtobswebsocket.h:52, qtobswebsocket.cpp:18, 23): host case, percent-encoding and repair of malformed input. The model's `url` is the raw string the constructor was given or built.
- `QRandomGenerator` itself. Its draws are a supplied sequence of 32-bit values.
- Logging through `qInfo` and `qWarning`, including the warning when a privileged command's reply has status `error`.
- The destructor, which only closes the socket.
- `m_message_handler`, which is declared but never used (qtobswebsocket.h:55).
- JSON numbers, arrays and null. The protocol fields read here are strings and booleans, and any other kind reads as the default.
