/** The project service over an abstract store: membership checks against the
    organisations, project creation with the per-organisation unique name, the
    read paths that hide deleted projects, partial update, soft delete, and the
    API key use cases (creation, listing, revocation and validation at
    ingestion). The random bytes of a new key, the hash function, the id
    generator and the clock are parameters. */
module ProjectService {
  import opened Wrappers
  import opened Text
  import opened Bytes
  import opened ProjectDomain
  import OrgValues
  import OrgService

  // ---------------------------------------------------------------------------
  // store

  /** The organisations and memberships (read only here), the projects by id,
      and the API key rows in storage order. */
  datatype ProjectStore = ProjectStore(
    orgs: OrgService.OrgStore,
    projects: map<string, Project>,
    keys: seq<ApiKey>)

  datatype ProjectOutcome<T> = ProjectOutcome(store: ProjectStore, result: Result<T, ProjectError>)

  /** `ApiKeyRepository::find_by_id`: the first row with that id. */
  function FindKeyById(keys: seq<ApiKey>, id: string): (r: Option<ApiKey>)
    ensures r.Some? ==> r.value in keys && r.value.id == id
    ensures r.None? <==> forall k :: k in keys ==> k.id != id
    ensures r.Some? && keys[0].id == id ==> r.value == keys[0]
  {
    if |keys| == 0 then None
    else if keys[0].id == id then Some(keys[0])
    else FindKeyById(keys[1..], id)
  }

  /** `ApiKeyRepository::find_by_hash`: the first row with that hash whose
      revocation time is unset; revoked rows are never returned. */
  function FindKeyByHash(keys: seq<ApiKey>, hash: string): (r: Option<ApiKey>)
    ensures r.Some? ==> r.value in keys && r.value.keyHash == hash && !IsRevoked(r.value)
    ensures r.None? <==> forall k :: k in keys && k.keyHash == hash ==> IsRevoked(k)
  {
    if |keys| == 0 then None
    else if keys[0].keyHash == hash && keys[0].revokedAt.None? then Some(keys[0])
    else FindKeyByHash(keys[1..], hash)
  }

  /** `ApiKeyRepository::save`, an upsert on the id: the row with that id is
      replaced, or the key is appended when there is none. */
  function SaveKey(keys: seq<ApiKey>, k: ApiKey): (r: seq<ApiKey>)
    ensures k in r
    ensures forall j :: j in r ==> j == k || j in keys
    ensures forall j :: j in r && j.id == k.id ==> j == k
    ensures forall j :: j in keys && j.id != k.id ==> j in r
  {
    if exists i :: 0 <= i < |keys| && keys[i].id == k.id then
      var r := seq(|keys|, i requires 0 <= i < |keys| => if keys[i].id == k.id then k else keys[i]);
      var w :| 0 <= w < |keys| && keys[w].id == k.id;
      assert r[w] == k;
      assert forall j :: j in keys && j.id != k.id ==> j in r by {
        forall j | j in keys && j.id != k.id ensures j in r {
          var i :| 0 <= i < |keys| && keys[i] == j;
          assert r[i] == j;
        }
      }
      r
    else keys + [k]
  }

  /** Saving a row that is already stored as the only row with its id changes nothing. */
  lemma SaveStoredKey(keys: seq<ApiKey>, k: ApiKey)
    requires k in keys
    requires forall j :: j in keys && j.id == k.id ==> j == k
    ensures SaveKey(keys, k) == keys
  {
    var i :| 0 <= i < |keys| && keys[i] == k;
    assert exists i :: 0 <= i < |keys| && keys[i].id == k.id;
  }

  // ---------------------------------------------------------------------------
  // access checks

  predicate IsLiveProject(s: ProjectStore, projectId: string) {
    projectId in s.projects && !IsProjectDeleted(s.projects[projectId])
  }

  /** `verify_org_membership`: a missing or deleted organisation and a missing
      membership are all `NotOrgMember`; with `requireAdmin`, a role that cannot
      update the organisation (a plain Member) is `InsufficientPermissions`. */
  function VerifyOrgMembership(s: ProjectStore, orgId: string, userId: string, requireAdmin: bool): (r: Result<OrgValues.OrgRole, ProjectError>)
    ensures r.Ok? <==>
      && OrgService.IsLiveOrg(s.orgs, orgId) && OrgService.IsMember(s.orgs, orgId, userId)
      && (requireAdmin ==> OrgValues.CanUpdateOrg(OrgService.RoleOf(s.orgs, orgId, userId)))
    ensures r.Ok? ==> r.value == OrgService.RoleOf(s.orgs, orgId, userId)
    ensures r.Err? ==> r.error in {NotOrgMember, InsufficientPermissions}
    ensures r == Err(InsufficientPermissions) <==>
      && OrgService.IsLiveOrg(s.orgs, orgId) && OrgService.IsMember(s.orgs, orgId, userId)
      && requireAdmin && OrgService.RoleOf(s.orgs, orgId, userId) == OrgValues.Member
  {
    if !OrgService.IsLiveOrg(s.orgs, orgId) then Err(NotOrgMember)
    else if !OrgService.IsMember(s.orgs, orgId, userId) then Err(NotOrgMember)
    else
      var role := OrgService.RoleOf(s.orgs, orgId, userId);
      if requireAdmin && !OrgValues.CanUpdateOrg(role) then Err(InsufficientPermissions)
      else Ok(role)
  }

  /** An admin check that passes implies the plain membership check passes with
      the same role; a plain member passes only the latter. */
  lemma AdminAccessImpliesMemberAccess(s: ProjectStore, orgId: string, userId: string)
    ensures VerifyOrgMembership(s, orgId, userId, true).Ok? ==>
      VerifyOrgMembership(s, orgId, userId, false) == VerifyOrgMembership(s, orgId, userId, true)
    ensures VerifyOrgMembership(s, orgId, userId, false) == Ok(OrgValues.Member) ==>
      VerifyOrgMembership(s, orgId, userId, true) == Err(InsufficientPermissions)
  {
  }

  /** `verify_project_access`: a missing or deleted project is
      `ProjectNotFound`, before the membership of its organisation is checked. */
  function VerifyProjectAccess(s: ProjectStore, projectId: string, userId: string, requireAdmin: bool): (r: Result<Project, ProjectError>)
    ensures !IsLiveProject(s, projectId) ==> r == Err(ProjectNotFound)
    ensures IsLiveProject(s, projectId) ==>
      var m := VerifyOrgMembership(s, s.projects[projectId].organizationId, userId, requireAdmin);
      (m.Err? ==> r == Err(m.error)) && (m.Ok? ==> r == Ok(s.projects[projectId]))
  {
    if !IsLiveProject(s, projectId) then Err(ProjectNotFound)
    else
      var p := s.projects[projectId];
      match VerifyOrgMembership(s, p.organizationId, userId, requireAdmin)
      case Err(e) => Err(e)
      case Ok(_) => Ok(p)
  }

  // ---------------------------------------------------------------------------
  // projects

  /** `exists_by_name_and_org(_excluding)`: a live project of the organisation
      whose name equals the given one ignoring case, other than the excluded id. */
  predicate NameTaken(s: ProjectStore, orgId: string, name: string, excluding: Option<string>) {
    exists id :: id in s.projects && ClashesWith(s.projects[id], orgId, name) && excluding != Some(id)
  }

  predicate ClashesWith(p: Project, orgId: string, name: string) {
    p.organizationId == orgId && !IsProjectDeleted(p) && ToLower(p.name) == ToLower(name)
  }

  /** The guards of `create_project` in order: admin membership, the name, its
      uniqueness in the organisation, then the optional log retention. */
  predicate CreateGuardsPass(s: ProjectStore, orgId: string, userId: string, rawName: string, retentionDays: Option<int>) {
    && VerifyOrgMembership(s, orgId, userId, true).Ok?
    && NewProjectName(rawName).Ok?
    && !NameTaken(s, orgId, NewProjectName(rawName).value, None)
    && (retentionDays.Some? ==> ValidRetention(LogRetention, retentionDays.value))
  }

  /** `create_project`. The log retention falls back to its default of 30 days;
      metrics and traces retention take their defaults. */
  function CreateProject(s: ProjectStore, orgId: string, userId: string, rawName: string, description: Option<string>,
                         retentionDays: Option<int>, projectId: string, now: int): (o: ProjectOutcome<Project>)
    ensures o.result.Ok? <==> CreateGuardsPass(s, orgId, userId, rawName, retentionDays)
    ensures o.result.Err? ==> o.store == s
    ensures VerifyOrgMembership(s, orgId, userId, true).Err? ==>
      o.result == Err(VerifyOrgMembership(s, orgId, userId, true).error)
    ensures VerifyOrgMembership(s, orgId, userId, true).Ok? && NewProjectName(rawName).Err? ==>
      o.result == Err(NewProjectName(rawName).error)
    ensures (VerifyOrgMembership(s, orgId, userId, true).Ok? && NewProjectName(rawName).Ok?
      && NameTaken(s, orgId, NewProjectName(rawName).value, None)) ==> o.result == Err(ProjectAlreadyExists)
    ensures o.result.Ok? ==>
      var p := o.result.value;
      && o.store == s.(projects := s.projects[projectId := p])
      && p.id == projectId && p.organizationId == orgId && p.name == Trim(rawName) && p.description == description
      && p.retentionDays == retentionDays.GetOr(DefaultRetentionDays(LogRetention))
      && p.metricsRetentionDays == DefaultRetentionDays(MetricsRetention)
      && p.tracesRetentionDays == DefaultRetentionDays(TracesRetention)
      && !IsProjectDeleted(p) && p.createdAt == now && WellFormedProject(p)
  {
    match VerifyOrgMembership(s, orgId, userId, true)
    case Err(e) => ProjectOutcome(s, Err(e))
    case Ok(_) =>
      match NewProjectName(rawName)
      case Err(e) => ProjectOutcome(s, Err(e))
      case Ok(name) =>
        if NameTaken(s, orgId, name, None) then ProjectOutcome(s, Err(ProjectAlreadyExists))
        else
          var retention := if retentionDays.Some? then NewRetentionDays(LogRetention, retentionDays.value)
                           else Ok(DefaultRetentionDays(LogRetention));
          match retention
          case Err(e) => ProjectOutcome(s, Err(e))
          case Ok(days) =>
            ProjectNameIsStable(rawName);
            var p := NewProject(projectId, orgId, name, description, days,
                                DefaultRetentionDays(MetricsRetention), DefaultRetentionDays(TracesRetention), now);
            ProjectOutcome(s.(projects := s.projects[projectId := p]), Ok(p))
  }

  /** Once a project exists, a second one whose name differs only in letter
      case is refused in the same organisation. */
  lemma DuplicateNameIsRefused(s: ProjectStore, orgId: string, userId: string, rawName: string, rawName2: string,
                               description: Option<string>, retentionDays: Option<int>,
                               projectId: string, projectId2: string, now: int, later: int)
    requires CreateProject(s, orgId, userId, rawName, description, retentionDays, projectId, now).result.Ok?
    requires NewProjectName(rawName2).Ok? && ToLower(Trim(rawName2)) == ToLower(Trim(rawName))
    ensures var s' := CreateProject(s, orgId, userId, rawName, description, retentionDays, projectId, now).store;
      CreateProject(s', orgId, userId, rawName2, description, retentionDays, projectId2, later).result
        == Err(ProjectAlreadyExists)
  {
    var o := CreateProject(s, orgId, userId, rawName, description, retentionDays, projectId, now);
    assert ClashesWith(o.store.projects[projectId], orgId, NewProjectName(rawName2).value);
    assert o.store.orgs == s.orgs;
  }

  /** `list_projects`: any member sees the live projects of the organisation. */
  function ListProjects(s: ProjectStore, orgId: string, userId: string): (r: Result<set<Project>, ProjectError>)
    ensures r.Ok? <==> VerifyOrgMembership(s, orgId, userId, false).Ok?
    ensures r.Err? ==> r.error == NotOrgMember
    ensures r.Ok? ==> forall p :: p in r.value <==>
      p in s.projects.Values && p.organizationId == orgId && !IsProjectDeleted(p)
  {
    match VerifyOrgMembership(s, orgId, userId, false)
    case Err(e) => Err(e)
    case Ok(_) =>
      Ok(set id | id in s.projects && s.projects[id].organizationId == orgId && !IsProjectDeleted(s.projects[id])
           :: s.projects[id])
  }

  /** `get_project`: any member of the project's organisation. */
  function GetProject(s: ProjectStore, projectId: string, userId: string): (r: Result<Project, ProjectError>)
    ensures r.Ok? ==> IsLiveProject(s, projectId) && r.value == s.projects[projectId]
    ensures r.Ok? <==>
      && IsLiveProject(s, projectId)
      && VerifyOrgMembership(s, s.projects[projectId].organizationId, userId, false).Ok?
  {
    VerifyProjectAccess(s, projectId, userId, false)
  }

  /** The guards of `update_project` in order: admin access, then a new name is
      validated and checked against the other live projects, then a new log
      retention is validated. */
  predicate UpdateGuardsPass(s: ProjectStore, projectId: string, userId: string, name: Option<string>, retentionDays: Option<int>) {
    && VerifyProjectAccess(s, projectId, userId, true).Ok?
    && (name.Some? ==>
          && NewProjectName(name.value).Ok?
          && !NameTaken(s, s.projects[projectId].organizationId, NewProjectName(name.value).value, Some(projectId)))
    && (retentionDays.Some? ==> ValidRetention(LogRetention, retentionDays.value))
  }

  /** `update_project`: a partial update of name, description and log
      retention; the metrics and traces retention are left as they are. */
  function UpdateProjectCmd(s: ProjectStore, projectId: string, userId: string, name: Option<string>,
                            description: Option<Option<string>>, retentionDays: Option<int>, now: int): (o: ProjectOutcome<Project>)
    ensures o.result.Ok? <==> UpdateGuardsPass(s, projectId, userId, name, retentionDays)
    ensures o.result.Err? ==> o.store == s
    ensures VerifyProjectAccess(s, projectId, userId, true).Err? ==>
      o.result == Err(VerifyProjectAccess(s, projectId, userId, true).error)
    ensures VerifyProjectAccess(s, projectId, userId, true).Ok? && name.Some? && NewProjectName(name.value).Ok?
      && NameTaken(s, s.projects[projectId].organizationId, NewProjectName(name.value).value, Some(projectId))
      ==> o.result == Err(ProjectAlreadyExists)
    ensures o.result.Ok? ==>
      var p := s.projects[projectId];
      && o.result.value == UpdateProject(p, ProjectPatch(if name.Some? then Some(Trim(name.value)) else None,
                                                         description, retentionDays, None, None), now)
      && o.store == s.(projects := s.projects[projectId := o.result.value])
  {
    match VerifyProjectAccess(s, projectId, userId, true)
    case Err(e) => ProjectOutcome(s, Err(e))
    case Ok(p) =>
      var newName :=
        if name.None? then Ok(None)
        else match NewProjectName(name.value)
          case Err(e) => Err(e)
          case Ok(n) => if NameTaken(s, p.organizationId, n, Some(projectId)) then Err(ProjectAlreadyExists) else Ok(Some(n));
      match newName
      case Err(e) => ProjectOutcome(s, Err(e))
      case Ok(n) =>
        var retention := if retentionDays.None? then Ok(None)
                         else match NewRetentionDays(LogRetention, retentionDays.value)
                           case Err(e) => Err(e)
                           case Ok(d) => Ok(Some(d));
        match retention
        case Err(e) => ProjectOutcome(s, Err(e))
        case Ok(r) =>
          var p' := UpdateProject(p, ProjectPatch(n, description, r, None, None), now);
          ProjectOutcome(s.(projects := s.projects[projectId := p']), Ok(p'))
  }

  /** Keeping one's own name is never a clash, because the project itself is
      excluded from the uniqueness check. */
  lemma RenameToOwnNameIsAllowed(s: ProjectStore, projectId: string, userId: string, now: int)
    requires VerifyProjectAccess(s, projectId, userId, true).Ok?
    requires WellFormedProject(s.projects[projectId])
    requires forall id :: id in s.projects && id != projectId ==>
      !ClashesWith(s.projects[id], s.projects[projectId].organizationId, s.projects[projectId].name)
    ensures UpdateProjectCmd(s, projectId, userId, Some(s.projects[projectId].name), None, None, now).result.Ok?
  {
  }

  /** `delete_project`: admin access, then the soft delete, which cannot fail
      because access already required a live project. */
  function DeleteProjectCmd(s: ProjectStore, projectId: string, userId: string, now: int): (o: ProjectOutcome<()>)
    ensures o.result.Ok? <==> VerifyProjectAccess(s, projectId, userId, true).Ok?
    ensures o.result.Err? ==> o.store == s && o.result.error == VerifyProjectAccess(s, projectId, userId, true).error
    ensures o.result.Ok? ==>
      && projectId in o.store.projects && IsProjectDeleted(o.store.projects[projectId])
      && o.store == s.(projects := s.projects[projectId := SoftDeleteProject(s.projects[projectId], now).value])
  {
    match VerifyProjectAccess(s, projectId, userId, true)
    case Err(e) => ProjectOutcome(s, Err(e))
    case Ok(p) =>
      match SoftDeleteProject(p, now)
      case Err(e) => ProjectOutcome(s, Err(e))
      case Ok(p') => ProjectOutcome(s.(projects := s.projects[projectId := p']), Ok(()))
  }

  // ---------------------------------------------------------------------------
  // API keys

  /** The number of random bytes behind a generated key. */
  const KeyBytes: nat := 32

  /** `generate_api_key`: the marker followed by the unpadded URL-safe base64
      text of the random bytes (given here as a parameter). The key is 50
      characters long, carries the marker the ingestion middleware looks for,
      and its display prefix is its first 15 characters. */
  function GenerateApiKey(bytes: seq<byte>): (key: string)
    requires |bytes| == KeyBytes
    ensures StartsWith(key, ApiKeyMarker) && |key| == |ApiKeyMarker| + 43
    ensures forall i :: |ApiKeyMarker| <= i < |key| ==> IsBase64Char(key[i])
    ensures PrefixFromKey(key) == key[..|ApiKeyMarker| + PrefixChars]
  {
    var body := EncodeBase64Url(bytes);
    EncodeBase64UrlShape(bytes);
    var key := ApiKeyMarker + body;
    assert key[..|ApiKeyMarker|] == ApiKeyMarker;
    assert forall i :: |ApiKeyMarker| <= i < |key| ==> key[i] == body[i - |ApiKeyMarker|];
    PrefixOfMarkedKey(body);
    key
  }

  /** `create_api_key`: admin access, then the name; the plain key is returned
      once, only its hash and display prefix are stored. A key with an expiry
      in days expires that many whole days after now. */
  function CreateApiKey(s: ProjectStore, projectId: string, userId: string, rawName: string, expiresInDays: Option<int>,
                        bytes: seq<byte>, hash: string -> string, keyId: string, now: int): (o: ProjectOutcome<(ApiKey, string)>)
    requires |bytes| == KeyBytes
    ensures o.result.Ok? <==> VerifyProjectAccess(s, projectId, userId, true).Ok? && NewApiKeyName(rawName).Ok?
    ensures o.result.Err? ==> o.store == s
    ensures VerifyProjectAccess(s, projectId, userId, true).Err? ==>
      o.result == Err(VerifyProjectAccess(s, projectId, userId, true).error)
    ensures o.result.Ok? ==>
      var (k, plain) := o.result.value;
      && plain == GenerateApiKey(bytes) && k.keyHash == hash(plain) && k.keyPrefix == PrefixFromKey(plain)
      && k.id == keyId && k.projectId == projectId && k.name == Trim(rawName) && !IsRevoked(k)
      && k.createdAt == now
      && k.expiresAt == (if expiresInDays.Some? then Some(now + expiresInDays.value * NanosPerDay) else None)
      && o.store == s.(keys := SaveKey(s.keys, k))
  {
    match VerifyProjectAccess(s, projectId, userId, true)
    case Err(e) => ProjectOutcome(s, Err(e))
    case Ok(p) =>
      match NewApiKeyName(rawName)
      case Err(e) => ProjectOutcome(s, Err(e))
      case Ok(name) =>
        var plain := GenerateApiKey(bytes);
        var expiresAt := if expiresInDays.Some? then Some(now + expiresInDays.value * NanosPerDay) else None;
        var k := NewApiKey(keyId, projectId, name, PrefixFromKey(plain), hash(plain), expiresAt, now);
        ProjectOutcome(s.(keys := SaveKey(s.keys, k)), Ok((k, plain)))
  }

  /** `list_api_keys`: any member sees every key of the project, revoked and
      expired ones included, each with whether it is still active. */
  function ListApiKeys(s: ProjectStore, projectId: string, userId: string, now: int): (r: Result<seq<(ApiKey, bool)>, ProjectError>)
    ensures r.Ok? <==> VerifyProjectAccess(s, projectId, userId, false).Ok?
    ensures r.Err? ==> r.error == VerifyProjectAccess(s, projectId, userId, false).error
    ensures r.Ok? ==> forall k, active :: (k, active) in r.value <==>
      k in s.keys && k.projectId == projectId && active == IsValidKey(k, now)
  {
    match VerifyProjectAccess(s, projectId, userId, false)
    case Err(e) => Err(e)
    case Ok(_) => Ok(KeysOfProject(s.keys, projectId, now))
  }

  function KeysOfProject(keys: seq<ApiKey>, projectId: string, now: int): (r: seq<(ApiKey, bool)>)
    ensures forall k, active :: (k, active) in r <==> k in keys && k.projectId == projectId && active == IsValidKey(k, now)
  {
    if |keys| == 0 then []
    else
      var rest := KeysOfProject(keys[1..], projectId, now);
      assert forall k :: k in keys <==> k == keys[0] || k in keys[1..];
      if keys[0].projectId == projectId then [(keys[0], IsValidKey(keys[0], now))] + rest else rest
  }

  /** `revoke_api_key`: admin access to the project named in the request; a
      missing key and a key of another project are both `ApiKeyNotFound`. */
  function RevokeApiKey(s: ProjectStore, projectId: string, userId: string, keyId: string, now: int): (o: ProjectOutcome<()>)
    ensures o.result.Err? ==> o.store == s
    ensures VerifyProjectAccess(s, projectId, userId, true).Err? ==>
      o.result == Err(VerifyProjectAccess(s, projectId, userId, true).error)
    ensures VerifyProjectAccess(s, projectId, userId, true).Ok? ==>
      match FindKeyById(s.keys, keyId)
      case None => o.result == Err(ApiKeyNotFound)
      case Some(k) =>
        && (k.projectId != projectId ==> o.result == Err(ApiKeyNotFound))
        && (k.projectId == projectId ==> o.result.Ok? && o.store == s.(keys := SaveKey(s.keys, RevokeKey(k, now))))
  {
    match VerifyProjectAccess(s, projectId, userId, true)
    case Err(e) => ProjectOutcome(s, Err(e))
    case Ok(_) =>
      match FindKeyById(s.keys, keyId)
      case None => ProjectOutcome(s, Err(ApiKeyNotFound))
      case Some(k) =>
        if k.projectId != projectId then ProjectOutcome(s, Err(ApiKeyNotFound))
        else ProjectOutcome(s.(keys := SaveKey(s.keys, RevokeKey(k, now))), Ok(()))
  }

  /** Revoking twice succeeds and the second call changes nothing: the first
      revocation time is kept. */
  lemma RevokeTwiceKeepsFirst(s: ProjectStore, projectId: string, userId: string, keyId: string, t1: int, t2: int)
    requires RevokeApiKey(s, projectId, userId, keyId, t1).result.Ok?
    ensures var s1 := RevokeApiKey(s, projectId, userId, keyId, t1).store;
      RevokeApiKey(s1, projectId, userId, keyId, t2) == ProjectOutcome(s1, Ok(()))
  {
    var k := FindKeyById(s.keys, keyId).value;
    var k1 := RevokeKey(k, t1);
    var s1 := RevokeApiKey(s, projectId, userId, keyId, t1).store;
    assert s1.keys == SaveKey(s.keys, k1);
    var found := FindKeyById(s1.keys, keyId);
    assert found == Some(k1);
    SaveStoredKey(s1.keys, k1);
  }

  /** What `validate_api_key` does with the row the hash lookup returned: no
      row is `ApiKeyInvalid`; then a revoked key, an expired key, and a missing
      or deleted project are reported, in that order. */
  function ValidateFoundKey(s: ProjectStore, found: Option<ApiKey>, now: int): (r: Result<Project, ProjectError>)
    ensures found.None? ==> r == Err(ApiKeyInvalid)
    ensures found.Some? && IsRevoked(found.value) ==> r == Err(ApiKeyRevoked)
    ensures found.Some? && !IsRevoked(found.value) && IsExpired(found.value, now) ==> r == Err(ApiKeyExpired)
    ensures found.Some? && IsValidKey(found.value, now) && !IsLiveProject(s, found.value.projectId)
      ==> r == Err(ProjectNotFound)
    ensures r.Ok? <==> found.Some? && IsValidKey(found.value, now) && IsLiveProject(s, found.value.projectId)
    ensures r.Ok? ==> r.value == s.projects[found.value.projectId]
  {
    match found
    case None => Err(ApiKeyInvalid)
    case Some(k) =>
      if IsRevoked(k) then Err(ApiKeyRevoked)
      else if IsExpired(k, now) then Err(ApiKeyExpired)
      else if !IsLiveProject(s, k.projectId) then Err(ProjectNotFound)
      else Ok(s.projects[k.projectId])
  }

  /** `validate_api_key`: hash the plain key, look it up, then check it. */
  function ValidateApiKey(s: ProjectStore, plainKey: string, hash: string -> string, now: int): (r: Result<Project, ProjectError>)
    ensures r.Ok? ==> exists k :: (k in s.keys && k.keyHash == hash(plainKey) && IsValidKey(k, now)
      && IsLiveProject(s, k.projectId) && r.value == s.projects[k.projectId])
    ensures r.Err? ==> r.error in {ApiKeyInvalid, ApiKeyExpired, ProjectNotFound}
    ensures r == Err(ApiKeyInvalid) <==> forall k :: k in s.keys && k.keyHash == hash(plainKey) ==> IsRevoked(k)
  {
    var found := FindKeyByHash(s.keys, hash(plainKey));
    ValidateFoundKey(s, found, now)
  }

  /** A key just created validates to its project at creation time, provided no
      other unrevoked key shares its hash and its lifetime is not negative. */
  lemma CreatedKeyValidates(s: ProjectStore, projectId: string, userId: string, rawName: string, expiresInDays: Option<int>,
                            bytes: seq<byte>, hash: string -> string, keyId: string, now: int)
    requires |bytes| == KeyBytes
    requires CreateApiKey(s, projectId, userId, rawName, expiresInDays, bytes, hash, keyId, now).result.Ok?
    requires expiresInDays.Some? ==> expiresInDays.value >= 0
    requires forall k :: k in s.keys && k.keyHash == hash(GenerateApiKey(bytes)) ==> IsRevoked(k)
    ensures var s' := CreateApiKey(s, projectId, userId, rawName, expiresInDays, bytes, hash, keyId, now).store;
      ValidateApiKey(s', GenerateApiKey(bytes), hash, now) == Ok(s.projects[projectId])
  {
    var o := CreateApiKey(s, projectId, userId, rawName, expiresInDays, bytes, hash, keyId, now);
    var k := o.result.value.0;
    var found := FindKeyByHash(o.store.keys, hash(GenerateApiKey(bytes)));
    assert found == Some(k);
    if expiresInDays.Some? {
      assert expiresInDays.value * NanosPerDay >= 0;
    }
  }

  /** With the Postgres lookup, which skips revoked rows, a revoked key is never
      reported as `ApiKeyRevoked`: its plain key is refused as `ApiKeyInvalid`
      when no other live key shares the hash. */
  lemma RevokedKeyIsInvalid(s: ProjectStore, projectId: string, userId: string, keyId: string, now: int,
                            plainKey: string, hash: string -> string, later: int)
    requires RevokeApiKey(s, projectId, userId, keyId, now).result.Ok?
    requires forall k :: k in s.keys && k.keyHash == hash(plainKey) ==> k.id == keyId
    ensures ValidateApiKey(RevokeApiKey(s, projectId, userId, keyId, now).store, plainKey, hash, later)
      == Err(ApiKeyInvalid)
  {
    var k := FindKeyById(s.keys, keyId).value;
    var s1 := RevokeApiKey(s, projectId, userId, keyId, now).store;
    assert s1.keys == SaveKey(s.keys, RevokeKey(k, now));
  }

  /** After a project is deleted, it is gone for every path: reads, updates, a
      second delete, new keys, and ingestion with any of its keys. */
  lemma DeletedProjectIsGone(s: ProjectStore, projectId: string, userId: string, now: int,
                             other: string, plainKey: string, hash: string -> string, later: int)
    requires DeleteProjectCmd(s, projectId, userId, now).result.Ok?
    requires forall k :: k in s.keys && k.keyHash == hash(plainKey) && !IsRevoked(k) ==> k.projectId == projectId
    ensures var s' := DeleteProjectCmd(s, projectId, userId, now).store;
      && GetProject(s', projectId, other) == Err(ProjectNotFound)
      && DeleteProjectCmd(s', projectId, other, later).result == Err(ProjectNotFound)
      && UpdateProjectCmd(s', projectId, other, None, None, None, later).result == Err(ProjectNotFound)
      && ValidateApiKey(s', plainKey, hash, later).Err?
  {
  }
}
