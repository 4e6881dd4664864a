/** Domain of the projects module: the validated project name and retention
    periods, the project aggregate with its partial update and soft delete, and
    the API key with its display prefix, expiry and revocation. */
module ProjectDomain {
  import opened Wrappers
  import opened Text

  datatype ProjectError =
    | InvalidProjectName(nameError: NameError)
    | InvalidRetentionDays
    | InvalidApiKeyName(keyNameError: NameError)
    | ProjectNotFound
    | ProjectAlreadyExists
    | ProjectAlreadyDeleted
    | ApiKeyNotFound
    | ApiKeyRevoked
    | ApiKeyExpired
    | ApiKeyInvalid
    | InsufficientPermissions
    | NotOrgMember

  const NanosPerDay: int := 86_400_000_000_000

  // ---------------------------------------------------------------------------
  // value objects

  /** `ProjectName::new`: the shared name rule (trimmed, 1 to 100 bytes). */
  function NewProjectName(raw: string): (r: Result<string, ProjectError>)
    ensures r.Ok? <==> ValidateName(raw).Ok?
    ensures r.Ok? ==> r.value == Trim(raw) && 1 <= |r.value| && ByteLen(r.value) <= MaxNameBytes
    ensures r.Err? ==> r.error == InvalidProjectName(ValidateName(raw).error)
  {
    ValidateNameSpec(raw);
    match ValidateName(raw)
    case Ok(name) => Ok(name)
    case Err(e) => Err(InvalidProjectName(e))
  }

  /** A project name that was accepted is accepted again, unchanged. */
  lemma ProjectNameIsStable(raw: string)
    requires NewProjectName(raw).Ok?
    ensures NewProjectName(NewProjectName(raw).value) == NewProjectName(raw)
  {
    ValidateNameSpec(raw);
  }

  /** `ApiKeyName::new`: the same rule, reported as an API key name error. */
  function NewApiKeyName(raw: string): (r: Result<string, ProjectError>)
    ensures r.Ok? <==> ValidateName(raw).Ok?
    ensures r.Ok? ==> r.value == Trim(raw) && 1 <= |r.value| && ByteLen(r.value) <= MaxNameBytes
    ensures r.Err? ==> r.error == InvalidApiKeyName(ValidateName(raw).error)
  {
    ValidateNameSpec(raw);
    match ValidateName(raw)
    case Ok(name) => Ok(name)
    case Err(e) => Err(InvalidApiKeyName(e))
  }

  /** The three retention periods a project keeps. */
  datatype RetentionKind = LogRetention | MetricsRetention | TracesRetention

  function MaxRetentionDays(k: RetentionKind): int {
    match k
    case LogRetention => 365
    case MetricsRetention => 365
    case TracesRetention => 90
  }

  function DefaultRetentionDays(k: RetentionKind): int {
    match k
    case LogRetention => 30
    case MetricsRetention => 90
    case TracesRetention => 14
  }

  /** `RetentionDays::new`, `MetricsRetentionDays::new` and
      `TracesRetentionDays::new`: the number itself when it lies in 1 to the
      kind's maximum; `value()` gives back exactly what was accepted. */
  function NewRetentionDays(k: RetentionKind, days: int): (r: Result<int, ProjectError>)
    ensures r.Ok? <==> 1 <= days <= MaxRetentionDays(k)
    ensures r.Ok? ==> r.value == days
    ensures r.Err? ==> r.error == InvalidRetentionDays
  {
    if days < 1 || days > MaxRetentionDays(k) then Err(InvalidRetentionDays) else Ok(days)
  }

  /** Each default passes its own validation, so the defaults are legal values;
      log and metrics retention reach a year, traces only 90 days. */
  lemma RetentionDefaults(k: RetentionKind)
    ensures NewRetentionDays(k, DefaultRetentionDays(k)) == Ok(DefaultRetentionDays(k))
    ensures NewRetentionDays(LogRetention, 30) == Ok(30)
    ensures NewRetentionDays(MetricsRetention, 90) == Ok(90)
    ensures NewRetentionDays(TracesRetention, 14) == Ok(14)
    ensures NewRetentionDays(k, 0).Err? && NewRetentionDays(k, -1).Err?
    ensures NewRetentionDays(LogRetention, 365).Ok? && NewRetentionDays(LogRetention, 366).Err?
    ensures NewRetentionDays(TracesRetention, 90).Ok? && NewRetentionDays(TracesRetention, 91).Err?
  {
  }

  predicate ValidRetention(k: RetentionKind, days: int) { 1 <= days <= MaxRetentionDays(k) }

  // ---------------------------------------------------------------------------
  // project

  datatype Project = Project(
    id: string,
    organizationId: string,
    name: string,
    description: Option<string>,
    retentionDays: int,
    metricsRetentionDays: int,
    tracesRetentionDays: int,
    createdAt: int,
    updatedAt: int,
    deletedAt: Option<int>)

  predicate IsProjectDeleted(p: Project) { p.deletedAt.Some? }

  /** A project whose name and retention periods passed their validation. */
  predicate WellFormedProject(p: Project) {
    NewProjectName(p.name) == Ok(p.name)
    && ValidRetention(LogRetention, p.retentionDays)
    && ValidRetention(MetricsRetention, p.metricsRetentionDays)
    && ValidRetention(TracesRetention, p.tracesRetentionDays)
  }

  /** `Project::new`: not deleted, created and updated at the same instant. */
  function NewProject(id: string, organizationId: string, name: string, description: Option<string>,
                      retentionDays: int, metricsRetentionDays: int, tracesRetentionDays: int, now: int): (p: Project)
    ensures !IsProjectDeleted(p) && p.createdAt == p.updatedAt == now
    ensures p.id == id && p.organizationId == organizationId && p.name == name && p.description == description
    ensures p.retentionDays == retentionDays && p.metricsRetentionDays == metricsRetentionDays
    ensures p.tracesRetentionDays == tracesRetentionDays
  {
    Project(id, organizationId, name, description, retentionDays, metricsRetentionDays, tracesRetentionDays, now, now, None)
  }

  /** The arguments of `Project::update`: None keeps a field, Some replaces it;
      for the description, Some(None) clears it. */
  datatype ProjectPatch = ProjectPatch(
    name: Option<string>,
    description: Option<Option<string>>,
    retentionDays: Option<int>,
    metricsRetentionDays: Option<int>,
    tracesRetentionDays: Option<int>)

  const NoChange: ProjectPatch := ProjectPatch(None, None, None, None, None)

  /** `Project::update`: every field the patch names is replaced, every other
      field keeps its value, and the update time always moves to now. */
  function UpdateProject(p: Project, patch: ProjectPatch, now: int): (p': Project)
    ensures p'.id == p.id && p'.organizationId == p.organizationId
    ensures p'.createdAt == p.createdAt && p'.deletedAt == p.deletedAt && p'.updatedAt == now
    ensures p'.name == patch.name.GetOr(p.name)
    ensures p'.description == patch.description.GetOr(p.description)
    ensures p'.retentionDays == patch.retentionDays.GetOr(p.retentionDays)
    ensures p'.metricsRetentionDays == patch.metricsRetentionDays.GetOr(p.metricsRetentionDays)
    ensures p'.tracesRetentionDays == patch.tracesRetentionDays.GetOr(p.tracesRetentionDays)
  {
    p.(name := patch.name.GetOr(p.name),
       description := patch.description.GetOr(p.description),
       retentionDays := patch.retentionDays.GetOr(p.retentionDays),
       metricsRetentionDays := patch.metricsRetentionDays.GetOr(p.metricsRetentionDays),
       tracesRetentionDays := patch.tracesRetentionDays.GetOr(p.tracesRetentionDays),
       updatedAt := now)
  }

  /** Two patches in a row: the later one wins on every field it names. */
  function ThenPatch(first: ProjectPatch, second: ProjectPatch): ProjectPatch {
    ProjectPatch(
      if second.name.Some? then second.name else first.name,
      if second.description.Some? then second.description else first.description,
      if second.retentionDays.Some? then second.retentionDays else first.retentionDays,
      if second.metricsRetentionDays.Some? then second.metricsRetentionDays else first.metricsRetentionDays,
      if second.tracesRetentionDays.Some? then second.tracesRetentionDays else first.tracesRetentionDays)
  }

  /** Updates compose: two updates equal one update with the combined patch; an
      empty patch only touches the update time; applying a patch twice is the
      same as once; and a well-formed project stays well-formed under a patch of
      validated values. */
  lemma UpdatesCompose(p: Project, a: ProjectPatch, b: ProjectPatch, t1: int, t2: int)
    ensures UpdateProject(UpdateProject(p, a, t1), b, t2) == UpdateProject(p, ThenPatch(a, b), t2)
    ensures UpdateProject(p, NoChange, t1) == p.(updatedAt := t1)
    ensures UpdateProject(UpdateProject(p, a, t1), a, t2) == UpdateProject(p, a, t2)
    ensures WellFormedProject(p)
      && (a.name.Some? ==> NewProjectName(a.name.value) == Ok(a.name.value))
      && (a.retentionDays.Some? ==> ValidRetention(LogRetention, a.retentionDays.value))
      && (a.metricsRetentionDays.Some? ==> ValidRetention(MetricsRetention, a.metricsRetentionDays.value))
      && (a.tracesRetentionDays.Some? ==> ValidRetention(TracesRetention, a.tracesRetentionDays.value))
      ==> WellFormedProject(UpdateProject(p, a, t1))
  {
  }

  /** `Project::soft_delete`: the first call stamps the deletion and update
      time; a deleted project refuses with `ProjectAlreadyDeleted`. */
  function SoftDeleteProject(p: Project, now: int): (r: Result<Project, ProjectError>)
    ensures r.Ok? <==> !IsProjectDeleted(p)
    ensures r.Err? ==> r.error == ProjectAlreadyDeleted
    ensures r.Ok? ==> IsProjectDeleted(r.value) && r.value.deletedAt == Some(now) && r.value.updatedAt == now
    ensures r.Ok? ==> r.value.(deletedAt := p.deletedAt, updatedAt := p.updatedAt) == p
  {
    if p.deletedAt.Some? then Err(ProjectAlreadyDeleted)
    else Ok(p.(deletedAt := Some(now), updatedAt := now))
  }

  /** A new project can be deleted exactly once. */
  lemma ProjectDeletesOnce(id: string, org: string, name: string, d: Option<string>,
                           r: int, m: int, tr: int, t0: int, t1: int, t2: int)
    ensures var p := NewProject(id, org, name, d, r, m, tr, t0);
      SoftDeleteProject(p, t1).Ok?
      && SoftDeleteProject(SoftDeleteProject(p, t1).value, t2) == Err(ProjectAlreadyDeleted)
  {
  }

  // ---------------------------------------------------------------------------
  // API key

  const ApiKeyMarker: string := "alt_pk_"

  /** How many characters of the secret part the display prefix keeps. */
  const PrefixChars: nat := 8

  /** `ApiKeyPrefix::from_key`: drop the "alt_pk_" marker when the key starts
      with it, keep at most eight characters of what remains, and put the marker
      back in front. */
  function PrefixFromKey(fullKey: string): (prefix: string)
    ensures StartsWith(prefix, ApiKeyMarker) && |prefix| <= |ApiKeyMarker| + PrefixChars
    ensures |prefix| - |ApiKeyMarker| == if StartsWith(fullKey, ApiKeyMarker)
                                       then Min(|fullKey| - |ApiKeyMarker|, PrefixChars)
                                       else Min(|fullKey|, PrefixChars)
  {
    var keyPart := StripPrefix(fullKey, ApiKeyMarker).GetOr(fullKey);
    var taken := if |keyPart| <= PrefixChars then keyPart else keyPart[..PrefixChars];
    assert (ApiKeyMarker + taken)[..|ApiKeyMarker|] == ApiKeyMarker;
    ApiKeyMarker + taken
  }

  /** A key that carries the marker keeps the first eight characters of its
      secret part; a prefix is its own prefix, so deriving it twice changes
      nothing; and the two test vectors of the source. */
  lemma PrefixFromKeySpec(secret: string)
    ensures PrefixFromKey(ApiKeyMarker + secret) == ApiKeyMarker + secret[..Min(|secret|, PrefixChars)]
    ensures PrefixFromKey(PrefixFromKey(ApiKeyMarker + secret)) == PrefixFromKey(ApiKeyMarker + secret)
  {
    var full := ApiKeyMarker + secret;
    assert full[..|ApiKeyMarker|] == ApiKeyMarker;
    assert full[|ApiKeyMarker|..] == secret;
    var p := PrefixFromKey(full);
    var taken := secret[..Min(|secret|, PrefixChars)];
    assert p == ApiKeyMarker + taken;
    assert p[..|ApiKeyMarker|] == ApiKeyMarker;
    assert p[|ApiKeyMarker|..] == taken;
  }

  lemma PrefixVectors()
    ensures PrefixFromKey("alt_pk_abcdefghijklmnop1234567890") == "alt_pk_abcdefgh"
    ensures PrefixFromKey("alt_pk_abc") == "alt_pk_abc"
  {
    LongKeyVector();
    ShortKeyVector();
  }

  lemma LongKeyVector()
    ensures PrefixFromKey("alt_pk_abcdefghijklmnop1234567890") == "alt_pk_abcdefgh"
  {
    var full := "alt_pk_abcdefghijklmnop1234567890";
    assert full[..|ApiKeyMarker|] == ApiKeyMarker;
    LongMarkedKeyPrefix(full);
    assert full[..|ApiKeyMarker| + PrefixChars] == "alt_pk_abcdefgh";
  }

  /** A key that starts with the marker and has eight more characters keeps
      exactly the marker and those eight. */
  lemma LongMarkedKeyPrefix(full: string)
    requires StartsWith(full, ApiKeyMarker) && |full| >= |ApiKeyMarker| + PrefixChars
    ensures PrefixFromKey(full) == full[..|ApiKeyMarker| + PrefixChars]
  {
    var keyPart := full[|ApiKeyMarker|..];
    assert StripPrefix(full, ApiKeyMarker) == Some(keyPart);
    assert ApiKeyMarker + keyPart[..PrefixChars] == full[..|ApiKeyMarker| + PrefixChars];
  }

  lemma ShortKeyVector()
    ensures PrefixFromKey("alt_pk_abc") == "alt_pk_abc"
  {
    PrefixFromKeySpec("abc");
    assert ApiKeyMarker + "abc" == "alt_pk_abc";
    assert "abc"[..Min(3, PrefixChars)] == "abc";
  }

  /** A marked key with at least eight characters after the marker has the
      marker and those eight characters as its prefix. */
  lemma PrefixOfMarkedKey(body: string)
    requires |body| >= PrefixChars
    ensures PrefixFromKey(ApiKeyMarker + body) == (ApiKeyMarker + body)[..|ApiKeyMarker| + PrefixChars]
  {
    PrefixFromKeySpec(body);
    assert (ApiKeyMarker + body)[..|ApiKeyMarker| + PrefixChars] == ApiKeyMarker + body[..PrefixChars];
  }

  datatype ApiKey = ApiKey(
    id: string,
    projectId: string,
    name: string,
    keyPrefix: string,
    keyHash: string,
    createdAt: int,
    expiresAt: Option<int>,
    revokedAt: Option<int>)

  /** `ApiKey::new`: created now and never revoked. */
  function NewApiKey(id: string, projectId: string, name: string, keyPrefix: string, keyHash: string,
                     expiresAt: Option<int>, now: int): (k: ApiKey)
    ensures !IsRevoked(k) && k.createdAt == now && k.expiresAt == expiresAt
    ensures k.id == id && k.projectId == projectId && k.name == name
    ensures k.keyPrefix == keyPrefix && k.keyHash == keyHash
  {
    ApiKey(id, projectId, name, keyPrefix, keyHash, now, expiresAt, None)
  }

  /** `is_expired`: a key without expiry never expires; otherwise it is
      expired strictly after the expiry instant. */
  predicate IsExpired(k: ApiKey, now: int) {
    match k.expiresAt
    case None => false
    case Some(exp) => now > exp
  }

  predicate IsRevoked(k: ApiKey) { k.revokedAt.Some? }

  /** `is_valid`: usable when neither expired nor revoked. */
  predicate IsValidKey(k: ApiKey, now: int) { !IsExpired(k, now) && !IsRevoked(k) }

  /** `revoke`: stamps the revocation time only the first time. */
  function RevokeKey(k: ApiKey, now: int): (k': ApiKey)
    ensures IsRevoked(k') && !IsValidKey(k', now)
    ensures IsRevoked(k) ==> k' == k
    ensures !IsRevoked(k) ==> k'.revokedAt == Some(now)
    ensures k'.(revokedAt := k.revokedAt) == k
  {
    if k.revokedAt.None? then k.(revokedAt := Some(now)) else k
  }

  /** Revocation is idempotent: a second call keeps the first time. Expiry is
      monotone in time, a key is still usable at its expiry instant, and a new
      key without expiry is valid at any time. */
  lemma ApiKeyLifecycle(k: ApiKey, t1: int, t2: int, now: int, later: int)
    requires now <= later
    ensures RevokeKey(RevokeKey(k, t1), t2) == RevokeKey(k, t1)
    ensures RevokeKey(k, t1).revokedAt == if IsRevoked(k) then k.revokedAt else Some(t1)
    ensures IsExpired(k, now) ==> IsExpired(k, later)
    ensures k.expiresAt.Some? ==> !IsExpired(k, k.expiresAt.value)
    ensures IsValidKey(NewApiKey(k.id, k.projectId, k.name, k.keyPrefix, k.keyHash, None, t1), now)
    ensures IsValidKey(k, now) <==> !IsRevoked(k) && (k.expiresAt.None? || now <= k.expiresAt.value)
  {
  }
}
