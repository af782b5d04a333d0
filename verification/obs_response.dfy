/**
 * The reply records of obs-websocket v4 (OBSResponse, OBSAuthInfo and
 * OBSVersion) and their decoding from a JSON object. Decoding never fails:
 * every field is read with a default ("" or false) and unknown keys are
 * ignored. OBSAuthInfo and OBSVersion extend OBSResponse; here each record
 * carries the three inherited fields itself and Base() recovers the
 * OBSResponse part.
 */
module ObsResponse {
  import opened Json

  /** The keys every reply decoder reads. */
  const ResponseKeys: set<string> := {"message-id", "status", "error"}
  /** The keys OBSAuthInfo reads. */
  const AuthInfoKeys: set<string> := ResponseKeys + {"authRequired", "challenge", "salt"}
  /** The keys OBSVersion reads. */
  const VersionKeys: set<string> :=
    ResponseKeys + {"obs-studio-version", "obs-websocket-version", "supported-image-export-formats"}

  datatype Response = Response(status: string, messageId: string, error: string)

  datatype AuthInfo = AuthInfo(
    status: string, messageId: string, error: string,
    authRequired: bool, challenge: string, passwordSalt: string)
  {
    function Base(): Response { Response(status, messageId, error) }
  }

  datatype Version = Version(
    status: string, messageId: string, error: string,
    pluginVersion: string, obsStudioVersion: string, supportedImageExportFormats: string)
  {
    function Base(): Response { Response(status, messageId, error) }
  }

  /** OBSResponse(data): message id, status and error message of any reply. */
  function DecodeResponse(data: Object): (r: Response)
    ensures ReadsString(data, "message-id", r.messageId)
    ensures ReadsString(data, "status", r.status)
    ensures ReadsString(data, "error", r.error)
  {
    Response(
      status := StringAt(data, "status"),
      messageId := StringAt(data, "message-id"),
      error := StringAt(data, "error"))
  }

  /**
   * OBSAuthInfo(data): the reply to GetAuthRequired. After the inherited
   * fields are read, the message id is overwritten with the "status" field,
   * so the "message-id" key of the reply is never kept.
   */
  function DecodeAuthInfo(data: Object): (r: AuthInfo)
    ensures ReadsString(data, "status", r.status)
    ensures ReadsString(data, "error", r.error)
    ensures r.messageId == r.status
    ensures ReadsBool(data, "authRequired", r.authRequired)
    ensures ReadsString(data, "challenge", r.challenge)
    ensures ReadsString(data, "salt", r.passwordSalt)
  {
    var base := DecodeResponse(data);
    AuthInfo(
      status := base.status,
      messageId := StringAt(data, "status"),
      error := base.error,
      authRequired := BoolAt(data, "authRequired"),
      challenge := StringAt(data, "challenge"),
      passwordSalt := StringAt(data, "salt"))
  }

  /** OBSVersion(data): the reply to GetVersion; its OBSResponse part is the plain decoding. */
  function DecodeVersion(data: Object): (r: Version)
    ensures r.Base() == DecodeResponse(data)
    ensures ReadsString(data, "obs-studio-version", r.obsStudioVersion)
    ensures ReadsString(data, "obs-websocket-version", r.pluginVersion)
    ensures ReadsString(data, "supported-image-export-formats", r.supportedImageExportFormats)
  {
    var base := DecodeResponse(data);
    Version(
      status := base.status,
      messageId := base.messageId,
      error := base.error,
      pluginVersion := StringAt(data, "obs-websocket-version"),
      obsStudioVersion := StringAt(data, "obs-studio-version"),
      supportedImageExportFormats := StringAt(data, "supported-image-export-formats"))
  }

  // The replies a server sends, as JSON objects: the partners of the decoders.

  function EncodeResponse(r: Response): Object
  {
    map["message-id" := JString(r.messageId), "status" := JString(r.status), "error" := JString(r.error)]
  }

  function EncodeAuthInfo(a: AuthInfo): Object
  {
    EncodeResponse(a.Base())["authRequired" := JBool(a.authRequired)]
      ["challenge" := JString(a.challenge)]["salt" := JString(a.passwordSalt)]
  }

  function EncodeVersion(v: Version): Object
  {
    EncodeResponse(v.Base())["obs-studio-version" := JString(v.obsStudioVersion)]
      ["obs-websocket-version" := JString(v.pluginVersion)]
      ["supported-image-export-formats" := JString(v.supportedImageExportFormats)]
  }

  /** Every reply record survives being sent and decoded. */
  lemma ResponseRoundTrip(r: Response)
    ensures DecodeResponse(EncodeResponse(r)) == r
  {
  }

  /** Every version record survives being sent and decoded. */
  lemma VersionRoundTrip(v: Version)
    ensures DecodeVersion(EncodeVersion(v)) == v
  {
  }

  /**
   * An auth-info record survives being sent and decoded exactly when its
   * message id equals its status: the decoder keeps the status in both.
   */
  lemma AuthInfoRoundTrip(a: AuthInfo)
    ensures DecodeAuthInfo(EncodeAuthInfo(a)) == a <==> a.messageId == a.status
  {
  }

  /** The "message-id" key of an auth-info reply has no influence on its decoding. */
  lemma AuthInfoIgnoresMessageId(data: Object, id: Value)
    ensures DecodeAuthInfo(data["message-id" := id]) == DecodeAuthInfo(data)
  {
  }

  /** A GetAuthRequired reply that echoes its id: OBSAuthInfo reports the status as the id. */
  lemma AuthInfoMessageIdIsStatus()
    ensures var data := map["message-id" := JString("42"), "status" := JString("ok")];
      && DecodeResponse(data).messageId == "42"
      && DecodeAuthInfo(data).messageId == "ok"
  {
  }

  /**
   * Decoding is forward compatible: each decoder sees only the keys it reads,
   * so keys it does not know change nothing.
   */
  lemma DecodersIgnoreUnknownKeys(data: Object)
    ensures DecodeResponse(data) == DecodeResponse(Restrict(data, ResponseKeys))
    ensures DecodeAuthInfo(data) == DecodeAuthInfo(Restrict(data, AuthInfoKeys))
    ensures DecodeVersion(data) == DecodeVersion(Restrict(data, VersionKeys))
  {
  }

  /** The empty object decodes to the defaults: empty strings and no authentication required. */
  lemma DecodeEmpty()
    ensures DecodeResponse(map[]) == Response("", "", "")
    ensures DecodeAuthInfo(map[]) == AuthInfo("", "", "", false, "", "")
    ensures DecodeVersion(map[]) == Version("", "", "", "", "", "")
  {
  }
}
