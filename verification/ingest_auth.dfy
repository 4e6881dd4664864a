/** The API-key gate in front of log ingestion: the key comes from the
    `X-API-Key` header, or from an `Authorization: Bearer` header when it
    carries the project-key marker; a missing key and every validation failure
    become an HTTP status with a stable code. */
module IngestAuth {
  import opened Wrappers
  import opened Text
  import opened Bytes
  import ProjectDomain
  import ProjectService

  /** The two headers the gate reads; `None` stands for a header that is absent
      or whose value is not visible ASCII (`to_str` fails). */
  datatype Headers = Headers(xApiKey: Option<string>, authorization: Option<string>)

  const BearerPrefix: string := "Bearer "

  /** `extract_api_key`. */
  function ExtractApiKey(h: Headers): (r: Option<string>)
    ensures h.xApiKey.Some? ==> r == h.xApiKey
    ensures h.xApiKey.None? ==>
      (r.Some? <==> h.authorization.Some? && StartsWith(h.authorization.value, BearerPrefix + ProjectDomain.ApiKeyMarker))
    ensures h.xApiKey.None? && r.Some? ==> BearerPrefix + r.value == h.authorization.value
    ensures h.xApiKey.None? && r.Some? ==> StartsWith(r.value, ProjectDomain.ApiKeyMarker)
  {
    if h.xApiKey.Some? then h.xApiKey
    else if h.authorization.None? then None
    else
      match StripPrefix(h.authorization.value, BearerPrefix)
      case None => None
      case Some(key) =>
        SharedPrefix(BearerPrefix, key, ProjectDomain.ApiKeyMarker);
        if StartsWith(key, ProjectDomain.ApiKeyMarker) then Some(key) else None
  }

  /** Behind a common prefix, one string starts with another exactly when the
      rests do. */
  lemma SharedPrefix(p: string, k: string, m: string)
    ensures StartsWith(p + k, p + m) <==> StartsWith(k, m)
  {
    if |m| <= |k| {
      assert (p + k)[..|p + m|] == p + k[..|m|];
      if (p + k)[..|p + m|] == p + m {
        assert k[..|m|] == (p + k)[..|p + m|][|p|..];
      }
    }
  }

  datatype Status = Unauthorized | Forbidden | InternalServerError

  function StatusCode(s: Status): nat {
    match s
    case Unauthorized => 401
    case Forbidden => 403
    case InternalServerError => 500
  }

  /** The JSON body of a refusal: a message and a machine-readable code. */
  datatype Rejection = Rejection(status: Status, error: string, code: string)

  const MissingKey: Rejection :=
    Rejection(Unauthorized, "Missing API key. Provide via X-API-Key header or Authorization: Bearer", "MISSING_API_KEY")

  /** The mapping from a validation error to the response. */
  function RejectionFor(e: ProjectDomain.ProjectError): (r: Rejection)
    ensures r.status == Unauthorized <==> e == ProjectDomain.ApiKeyInvalid || e == ProjectDomain.ApiKeyRevoked || e == ProjectDomain.ApiKeyExpired
    ensures r.status == Forbidden <==> e == ProjectDomain.ProjectNotFound
    ensures r.code != MissingKey.code
  {
    match e
    case ApiKeyInvalid => Rejection(Unauthorized, "Invalid API key", "INVALID_API_KEY")
    case ApiKeyRevoked => Rejection(Unauthorized, "API key has been revoked", "API_KEY_REVOKED")
    case ApiKeyExpired => Rejection(Unauthorized, "API key has expired", "API_KEY_EXPIRED")
    case ProjectNotFound => Rejection(Forbidden, "Project not found or deleted", "PROJECT_NOT_FOUND")
    case _ => Rejection(InternalServerError, "Internal error", "INTERNAL_ERROR")
  }

  /** What the gate does with a request: pass it on with the key's project, or
      answer it. */
  datatype Gate = Admitted(project: ProjectDomain.Project) | Refused(rejection: Rejection)

  /** `api_key_middleware`. */
  function ApiKeyGate(s: ProjectService.ProjectStore, h: Headers, hash: string -> string, now: int): (g: Gate)
    ensures ExtractApiKey(h).None? <==> g == Refused(MissingKey)
    ensures g.Admitted? <==> ExtractApiKey(h).Some? && ProjectService.ValidateApiKey(s, ExtractApiKey(h).value, hash, now).Ok?
    ensures g.Admitted? ==> g.project == ProjectService.ValidateApiKey(s, ExtractApiKey(h).value, hash, now).value
    ensures g.Refused? ==> g.rejection.status == Unauthorized || g.rejection.status == Forbidden
  {
    match ExtractApiKey(h)
    case None => Refused(MissingKey)
    case Some(key) =>
      match ProjectService.ValidateApiKey(s, key, hash, now)
      case Ok(p) => Admitted(p)
      case Err(e) => Refused(RejectionFor(e))
  }

  /** A key with the marker sent as a bearer token is the key the gate reads. */
  lemma BearerKeyIsExtracted(key: string)
    requires StartsWith(key, ProjectDomain.ApiKeyMarker)
    ensures ExtractApiKey(Headers(None, Some(BearerPrefix + key))) == Some(key)
  {
    var a := BearerPrefix + key;
    assert a[..|BearerPrefix|] == BearerPrefix;
    assert a[|BearerPrefix|..] == key;
  }

  /** A bearer token without the marker (a user's access token, say) is not a
      key: the request is answered 401 MISSING_API_KEY, whatever the store. */
  lemma OtherBearerTokenIsMissingKey(s: ProjectService.ProjectStore, token: string, hash: string -> string, now: int)
    requires !StartsWith(token, ProjectDomain.ApiKeyMarker)
    ensures ApiKeyGate(s, Headers(None, Some(BearerPrefix + token)), hash, now) == Refused(MissingKey)
  {
    SharedPrefix(BearerPrefix, token, ProjectDomain.ApiKeyMarker);
  }

  /** A key the project service has just generated is admitted when sent as a
      bearer token, and lets the request through to the key's project. */
  lemma CreatedKeyPassesGate(s: ProjectService.ProjectStore, projectId: string, userId: string, rawName: string,
                             expiresInDays: Option<int>, bytes: seq<byte>, hash: string -> string, keyId: string, now: int)
    requires |bytes| == ProjectService.KeyBytes
    requires ProjectService.CreateApiKey(s, projectId, userId, rawName, expiresInDays, bytes, hash, keyId, now).result.Ok?
    requires expiresInDays.Some? ==> expiresInDays.value >= 0
    requires forall k :: k in s.keys && k.keyHash == hash(ProjectService.GenerateApiKey(bytes)) ==> ProjectDomain.IsRevoked(k)
    ensures var s' := ProjectService.CreateApiKey(s, projectId, userId, rawName, expiresInDays, bytes, hash, keyId, now).store;
      ApiKeyGate(s', Headers(None, Some(BearerPrefix + ProjectService.GenerateApiKey(bytes))), hash, now)
        == Admitted(s.projects[projectId])
  {
    var key := ProjectService.GenerateApiKey(bytes);
    BearerKeyIsExtracted(key);
    ProjectService.CreatedKeyValidates(s, projectId, userId, rawName, expiresInDays, bytes, hash, keyId, now);
  }
}
