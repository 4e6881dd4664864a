/** The filter preset service: saved log filters per project and user, with a
    case-insensitive unique name and at most one default. The preset table is a
    map by id; saving is the repository's upsert, which keeps the project, user
    and creation time of an existing row. */
module PresetService {
  import opened Wrappers
  import opened Text
  import opened Json
  import opened LogValues
  import opened PresetValues
  import opened LogEntities
  import LogService
  import ProjectService

  datatype PresetWorld = PresetWorld(projects: ProjectService.ProjectStore, presets: map<string, FilterPreset>)

  datatype PresetOutcome<T> = PresetOutcome(world: PresetWorld, result: Result<T, LogError>)

  // ---------------------------------------------------------------------------
  // the configuration as the API carries it

  datatype FilterConfigDto = FilterConfigDto(
    levels: Option<seq<string>>,
    startTime: Option<int>,
    endTime: Option<int>,
    source: Option<string>,
    search: Option<string>,
    traceId: Option<string>,
    metadataFilters: seq<LogService.MetadataFilterInput>,
    sort: Option<string>)

  /** `convert_filter_config_dto`: every level must parse and every metadata
      filter convert, levels first; the sort is ascending only for exactly "asc"
      or "ascending". */
  function ConvertFilterConfig(dto: FilterConfigDto): (r: Result<FilterConfig, LogError>)
    ensures r.Ok? <==>
      && (dto.levels.Some? ==> forall k :: 0 <= k < |dto.levels.value| ==> LevelFromStr(dto.levels.value[k]).Ok?)
      && forall k :: 0 <= k < |dto.metadataFilters| ==> LogService.ConvertMetadataFilter(dto.metadataFilters[k]).Ok?
    ensures r.Ok? ==>
      && r.value.sortOrder == LogService.RequestSort(dto.sort)
      && (r.value.levels.Some? <==> dto.levels.Some?)
      && r.value.startTime == dto.startTime && r.value.endTime == dto.endTime
      && r.value.source == dto.source && r.value.search == dto.search && r.value.traceId == dto.traceId
      && |r.value.metadataFilters| == |dto.metadataFilters|
  {
    var levels := if dto.levels.None? then Ok(None) else
      (match CollectAll(dto.levels.value, LevelFromStr) case Err(e) => Err(e) case Ok(ls) => Ok(Some(ls)));
    match levels
    case Err(e) => Err(e)
    case Ok(ls) =>
      match CollectAll(dto.metadataFilters, LogService.ConvertMetadataFilter)
      case Err(e) => Err(e)
      case Ok(mfs) =>
        Ok(FilterConfig(ls, dto.startTime, dto.endTime, dto.source, dto.search, dto.traceId, mfs,
                        LogService.RequestSort(dto.sort)))
  }

  function SortName(o: SortOrder): string {
    match o
    case Ascending => "asc"
    case Descending => "desc"
  }

  function FilterToDto(f: MetadataFilter): LogService.MetadataFilterInput {
    LogService.MetadataFilterInput(f.key, OperatorName(f.op), f.value)
  }

  function LevelNames(ls: seq<LogLevel>): seq<string> {
    seq(|ls|, k requires 0 <= k < |ls| => LevelName(ls[k]))
  }

  function FilterDtos(fs: seq<MetadataFilter>): seq<LogService.MetadataFilterInput> {
    seq(|fs|, k requires 0 <= k < |fs| => FilterToDto(fs[k]))
  }

  /** The configuration part of `to_response`: levels and operators by name, the
      sort as "asc" or "desc". */
  function ConfigToDto(c: FilterConfig): (dto: FilterConfigDto)
    ensures dto.sort.Some? && |dto.metadataFilters| == |c.metadataFilters|
  {
    FilterConfigDto(
      if c.levels.None? then None else Some(LevelNames(c.levels.value)),
      c.startTime, c.endTime, c.source, c.search, c.traceId,
      FilterDtos(c.metadataFilters),
      Some(SortName(c.sortOrder)))
  }

  /** The rendered sort reads back as the same order. */
  lemma SortRoundTrip(o: SortOrder)
    ensures LogService.RequestSort(Some(SortName(o))) == o
  {
  }

  /** Level names read back as the same levels. */
  lemma LevelsRoundTrip(ls: seq<LogLevel>)
    ensures CollectAll(LevelNames(ls), LevelFromStr) == Ok(ls)
  {
    var names := LevelNames(ls);
    forall k | 0 <= k < |ls| ensures LevelFromStr(names[k]) == Ok(ls[k]) {
      LevelRoundTrip(ls[k]);
    }
    var r := CollectAll(names, LevelFromStr);
    assert r.Ok?;
    assert r.value == ls;
  }

  /** A well-formed metadata filter, rendered, converts back to itself. */
  lemma FilterRoundTrip(f: MetadataFilter)
    requires WellFormedFilter(f)
    ensures LogService.ConvertMetadataFilter(FilterToDto(f)) == Ok(f)
  {
    OperatorRoundTrip(f.op);
  }

  lemma FiltersRoundTrip(fs: seq<MetadataFilter>)
    requires forall k :: 0 <= k < |fs| ==> WellFormedFilter(fs[k])
    ensures CollectAll(FilterDtos(fs), LogService.ConvertMetadataFilter) == Ok(fs)
  {
    var dtos := FilterDtos(fs);
    forall k | 0 <= k < |fs| ensures LogService.ConvertMetadataFilter(dtos[k]) == Ok(fs[k]) {
      FilterRoundTrip(fs[k]);
    }
    var r := CollectAll(dtos, LogService.ConvertMetadataFilter);
    assert r.Ok?;
    assert r.value == fs;
  }

  /** A configuration shown to the client and sent back unchanged is the same
      configuration, as long as its metadata filters are ones the service itself
      could have built. */
  lemma ConfigRoundTrip(c: FilterConfig)
    requires forall k :: 0 <= k < |c.metadataFilters| ==> WellFormedFilter(c.metadataFilters[k])
    ensures ConvertFilterConfig(ConfigToDto(c)) == Ok(c)
  {
    if c.levels.Some? {
      LevelsRoundTrip(c.levels.value);
    }
    FiltersRoundTrip(c.metadataFilters);
    SortRoundTrip(c.sortOrder);
  }

  // ---------------------------------------------------------------------------
  // the table

  predicate Owns(p: FilterPreset, projectId: string, userId: string) {
    p.projectId == projectId && p.userId == userId
  }

  /** `exists_by_name` and `exists_by_name_excluding`: a preset of the same
      project and user whose name equals this one ignoring case. */
  predicate NameTaken(presets: map<string, FilterPreset>, projectId: string, userId: string, name: string, excluding: Option<string>) {
    exists id :: id in presets && Owns(presets[id], projectId, userId) && ToLower(presets[id].name) == ToLower(name)
      && excluding != Some(id)
  }

  /** At most one default preset per project and user. */
  predicate OneDefaultEach(presets: map<string, FilterPreset>) {
    forall i, j ::
      (i in presets && j in presets && presets[i].isDefault && presets[j].isDefault
       && presets[i].projectId == presets[j].projectId && presets[i].userId == presets[j].userId) ==> i == j
  }

  /** Each row is stored under its own id. */
  predicate Keyed(presets: map<string, FilterPreset>) {
    forall id :: id in presets ==> presets[id].id == id
  }

  /** What the table keeps true: rows under their ids, one default per pair. */
  predicate Consistent(presets: map<string, FilterPreset>) {
    Keyed(presets) && OneDefaultEach(presets)
  }

  /** `clear_default`: every default preset of the project and user loses the flag. */
  function ClearDefault(presets: map<string, FilterPreset>, projectId: string, userId: string, now: int): (r: map<string, FilterPreset>)
    ensures r.Keys == presets.Keys
    ensures forall id :: id in r ==> !(r[id].isDefault && Owns(r[id], projectId, userId))
    ensures forall id :: id in r && !(presets[id].isDefault && Owns(presets[id], projectId, userId)) ==> r[id] == presets[id]
    ensures forall id :: id in r ==> r[id].id == presets[id].id && r[id].projectId == presets[id].projectId
                                     && r[id].userId == presets[id].userId
  {
    map id | id in presets :: if presets[id].isDefault && Owns(presets[id], projectId, userId) then UnsetDefault(presets[id], now) else presets[id]
  }

  /** `save`: inserts a new row, or for an existing id replaces name,
      configuration, default flag and update time only. */
  function SavePreset(presets: map<string, FilterPreset>, p: FilterPreset): (r: map<string, FilterPreset>)
    ensures r.Keys == presets.Keys + {p.id}
    ensures p.id !in presets ==> r == presets[p.id := p]
    ensures p.id in presets ==> r[p.id] == presets[p.id].(name := p.name, config := p.config, isDefault := p.isDefault, updatedAt := p.updatedAt)
    ensures forall id :: id in presets && id != p.id ==> r[id] == presets[id]
  {
    if p.id in presets then
      presets[p.id := presets[p.id].(name := p.name, config := p.config, isDefault := p.isDefault, updatedAt := p.updatedAt)]
    else presets[p.id := p]
  }

  /** The preset of this id, if it belongs to the project and the user: another
      project's or user's preset is `FilterPresetNotFound` like a missing one. */
  function OwnedPreset(w: PresetWorld, projectId: string, presetId: string, userId: string): (r: Result<FilterPreset, LogError>)
    ensures r.Ok? <==> presetId in w.presets && Owns(w.presets[presetId], projectId, userId)
    ensures r.Ok? ==> r.value == w.presets[presetId]
    ensures r.Err? ==> r.error == FilterPresetNotFound
  {
    if presetId !in w.presets then Err(FilterPresetNotFound)
    else if w.presets[presetId].projectId != projectId then Err(FilterPresetNotFound)
    else if w.presets[presetId].userId != userId then Err(FilterPresetNotFound)
    else Ok(w.presets[presetId])
  }

  // ---------------------------------------------------------------------------
  // operations

  /** `create_preset`: access, name, uniqueness, configuration, in that order;
      a default preset first clears the user's other defaults. */
  function CreatePreset(w: PresetWorld, projectId: string, userId: string, rawName: string, dto: FilterConfigDto,
                        isDefault: bool, presetId: string, now: int): (o: PresetOutcome<FilterPreset>)
    ensures o.result.Err? ==> o.world == w
    ensures LogService.VerifyLogAccess(w.projects, projectId, userId).Err? ==>
      o.result == Err(LogService.VerifyLogAccess(w.projects, projectId, userId).error)
    ensures LogService.VerifyLogAccess(w.projects, projectId, userId).Ok? && NewPresetName(rawName).Err? ==>
      o.result == Err(NewPresetName(rawName).error)
    ensures (LogService.VerifyLogAccess(w.projects, projectId, userId).Ok? && NewPresetName(rawName).Ok?
      && NameTaken(w.presets, projectId, userId, NewPresetName(rawName).value, None)) ==> o.result == Err(FilterPresetNameExists)
    ensures o.result.Ok? <==>
      && LogService.VerifyLogAccess(w.projects, projectId, userId).Ok?
      && NewPresetName(rawName).Ok?
      && !NameTaken(w.presets, projectId, userId, NewPresetName(rawName).value, None)
      && ConvertFilterConfig(dto).Ok?
    ensures o.result.Ok? ==>
      && o.result.value == NewFilterPreset(presetId, projectId, userId, NewPresetName(rawName).value, ConvertFilterConfig(dto).value, isDefault, now)
      && o.world.projects == w.projects
      && o.world.presets == SavePreset(if isDefault then ClearDefault(w.presets, projectId, userId, now) else w.presets, o.result.value)
  {
    match LogService.VerifyLogAccess(w.projects, projectId, userId)
    case Err(e) => PresetOutcome(w, Err(e))
    case Ok(_) =>
      match NewPresetName(rawName)
      case Err(e) => PresetOutcome(w, Err(e))
      case Ok(name) =>
        if NameTaken(w.presets, projectId, userId, name, None) then PresetOutcome(w, Err(FilterPresetNameExists))
        else
          match ConvertFilterConfig(dto)
          case Err(e) => PresetOutcome(w, Err(e))
          case Ok(config) =>
            var cleared := if isDefault then ClearDefault(w.presets, projectId, userId, now) else w.presets;
            var p := NewFilterPreset(presetId, projectId, userId, name, config, isDefault, now);
            PresetOutcome(w.(presets := SavePreset(cleared, p)), Ok(p))
  }

  /** `list_presets`: the presets of the project and user. */
  function ListPresets(w: PresetWorld, projectId: string, userId: string): (r: Result<set<FilterPreset>, LogError>)
    ensures r.Ok? <==> LogService.VerifyLogAccess(w.projects, projectId, userId).Ok?
    ensures r.Ok? ==> forall p :: p in r.value <==> p in w.presets.Values && Owns(p, projectId, userId)
  {
    match LogService.VerifyLogAccess(w.projects, projectId, userId)
    case Err(e) => Err(e)
    case Ok(_) => Ok(set id | id in w.presets && Owns(w.presets[id], projectId, userId) :: w.presets[id])
  }

  /** `get_preset`. */
  function GetPreset(w: PresetWorld, projectId: string, presetId: string, userId: string): (r: Result<FilterPreset, LogError>)
    ensures LogService.VerifyLogAccess(w.projects, projectId, userId).Err? ==>
      r == Err(LogService.VerifyLogAccess(w.projects, projectId, userId).error)
    ensures LogService.VerifyLogAccess(w.projects, projectId, userId).Ok? ==> r == OwnedPreset(w, projectId, presetId, userId)
  {
    match LogService.VerifyLogAccess(w.projects, projectId, userId)
    case Err(e) => Err(e)
    case Ok(_) => OwnedPreset(w, projectId, presetId, userId)
  }

  /** `get_default_preset`: the default presets of the project and user, which
      are at most one while `OneDefaultEach` holds. */
  function DefaultPresets(w: PresetWorld, projectId: string, userId: string): (r: Result<set<FilterPreset>, LogError>)
    ensures r.Ok? <==> LogService.VerifyLogAccess(w.projects, projectId, userId).Ok?
    ensures r.Ok? ==> forall p :: p in r.value <==> p in w.presets.Values && Owns(p, projectId, userId) && p.isDefault
  {
    match LogService.VerifyLogAccess(w.projects, projectId, userId)
    case Err(e) => Err(e)
    case Ok(_) => Ok(set id | id in w.presets && Owns(w.presets[id], projectId, userId) && w.presets[id].isDefault :: w.presets[id])
  }

  /** The renaming step of `update_preset`: a new name must be valid and not
      used by the user's other presets in the project; no name keeps the old one. */
  function RenamePreset(presets: map<string, FilterPreset>, projectId: string, presetId: string, userId: string,
                        p0: FilterPreset, name: Option<string>, now: int): (r: Result<FilterPreset, LogError>)
    ensures r.Ok? <==> (name.Some? ==> (NewPresetName(name.value).Ok?
                          && !NameTaken(presets, projectId, userId, NewPresetName(name.value).value, Some(presetId))))
    ensures r.Ok? ==> r.value.name == (if name.Some? then NewPresetName(name.value).value else p0.name)
                      && r.value.(name := p0.name, updatedAt := p0.updatedAt) == p0
  {
    if name.None? then Ok(p0) else
      match NewPresetName(name.value)
      case Err(e) => Err(e)
      case Ok(n) => if NameTaken(presets, projectId, userId, n, Some(presetId)) then Err(FilterPresetNameExists)
                    else Ok(UpdatePresetName(p0, n, now))
  }

  /** The configuration step of `update_preset`: a new configuration must convert. */
  function ReconfigurePreset(p1: FilterPreset, dto: Option<FilterConfigDto>, now: int): (r: Result<FilterPreset, LogError>)
    ensures r.Ok? <==> (dto.Some? ==> ConvertFilterConfig(dto.value).Ok?)
    ensures r.Ok? ==> r.value.config == (if dto.Some? then ConvertFilterConfig(dto.value).value else p1.config)
                      && r.value.(config := p1.config, updatedAt := p1.updatedAt) == p1
  {
    if dto.None? then Ok(p1) else
      match ConvertFilterConfig(dto.value)
      case Err(e) => Err(e)
      case Ok(c) => Ok(UpdatePresetConfig(p1, c, now))
  }

  /** The steps of `update_preset` after the preset was found: rename,
      reconfigure, then set or drop the default flag, and save. */
  function UpdateFound(w: PresetWorld, projectId: string, presetId: string, userId: string, before: FilterPreset,
                       name: Option<string>, dto: Option<FilterConfigDto>, isDefault: Option<bool>, now: int): (o: PresetOutcome<FilterPreset>)
    ensures o.result.Err? ==> o.world == w
    ensures o.result.Ok? <==>
      && (name.Some? ==> NewPresetName(name.value).Ok? && !NameTaken(w.presets, projectId, userId, NewPresetName(name.value).value, Some(presetId)))
      && (dto.Some? ==> ConvertFilterConfig(dto.value).Ok?)
    ensures o.result.Ok? ==>
      var p := o.result.value;
      && p.id == before.id && p.projectId == before.projectId && p.userId == before.userId && p.createdAt == before.createdAt
      && p.name == (if name.Some? then NewPresetName(name.value).value else before.name)
      && p.config == (if dto.Some? then ConvertFilterConfig(dto.value).value else before.config)
      && p.isDefault == isDefault.GetOr(before.isDefault)
      && o.world.projects == w.projects
      && o.world.presets == SavePreset(if isDefault == Some(true) && !before.isDefault then ClearDefault(w.presets, projectId, userId, now)
                                       else w.presets, p)
  {
    match RenamePreset(w.presets, projectId, presetId, userId, before, name, now)
    case Err(e) => PresetOutcome(w, Err(e))
    case Ok(p1) =>
      match ReconfigurePreset(p1, dto, now)
      case Err(e) => PresetOutcome(w, Err(e))
      case Ok(p2) =>
        assert p2.isDefault == before.isDefault;
        if isDefault == Some(true) && !p2.isDefault then
          var p3 := SetAsDefault(p2, now);
          PresetOutcome(w.(presets := SavePreset(ClearDefault(w.presets, projectId, userId, now), p3)), Ok(p3))
        else if isDefault == Some(false) && p2.isDefault then
          var p3 := UnsetDefault(p2, now);
          PresetOutcome(w.(presets := SavePreset(w.presets, p3)), Ok(p3))
        else PresetOutcome(w.(presets := SavePreset(w.presets, p2)), Ok(p2))
  }

  /** `update_preset`: the owned preset, a valid name unused by the user's other
      presets, a valid configuration; asking for the default on a preset that is
      not one clears the others first, and dropping it only flips the flag. */
  function UpdatePreset(w: PresetWorld, projectId: string, presetId: string, userId: string, name: Option<string>,
                        dto: Option<FilterConfigDto>, isDefault: Option<bool>, now: int): (o: PresetOutcome<FilterPreset>)
    ensures o.result.Err? ==> o.world == w
    ensures GetPreset(w, projectId, presetId, userId).Err? ==> o.result == Err(GetPreset(w, projectId, presetId, userId).error)
    ensures o.result.Ok? <==>
      && GetPreset(w, projectId, presetId, userId).Ok?
      && (name.Some? ==> NewPresetName(name.value).Ok? && !NameTaken(w.presets, projectId, userId, NewPresetName(name.value).value, Some(presetId)))
      && (dto.Some? ==> ConvertFilterConfig(dto.value).Ok?)
    ensures o.result.Ok? ==>
      var before := w.presets[presetId];
      var p := o.result.value;
      && p.id == before.id && p.projectId == before.projectId && p.userId == before.userId && p.createdAt == before.createdAt
      && p.name == (if name.Some? then NewPresetName(name.value).value else before.name)
      && p.config == (if dto.Some? then ConvertFilterConfig(dto.value).value else before.config)
      && p.isDefault == isDefault.GetOr(before.isDefault)
      && o.world.projects == w.projects
      && o.world.presets == SavePreset(if isDefault == Some(true) && !before.isDefault then ClearDefault(w.presets, projectId, userId, now)
                                       else w.presets, p)
  {
    match GetPreset(w, projectId, presetId, userId)
    case Err(e) => PresetOutcome(w, Err(e))
    case Ok(p0) =>
      assert presetId in w.presets && p0 == w.presets[presetId];
      UpdateFound(w, projectId, presetId, userId, p0, name, dto, isDefault, now)
  }

  /** `delete_preset`. */
  function DeletePreset(w: PresetWorld, projectId: string, presetId: string, userId: string): (o: PresetOutcome<()>)
    ensures o.result.Ok? <==> GetPreset(w, projectId, presetId, userId).Ok?
    ensures o.result.Err? ==> o.world == w && o.result.error == GetPreset(w, projectId, presetId, userId).error
    ensures o.result.Ok? ==> o.world == w.(presets := w.presets - {presetId})
  {
    match GetPreset(w, projectId, presetId, userId)
    case Err(e) => PresetOutcome(w, Err(e))
    case Ok(_) => PresetOutcome(w.(presets := w.presets - {presetId}), Ok(()))
  }

  // ---------------------------------------------------------------------------
  // the default flag

  /** Clearing keeps rows under their ids and at most one default per pair. */
  lemma ClearKeepsConsistent(presets: map<string, FilterPreset>, projectId: string, userId: string, now: int)
    requires Consistent(presets)
    ensures Consistent(ClearDefault(presets, projectId, userId, now))
  {
    var r := ClearDefault(presets, projectId, userId, now);
    forall i, j | i in r && j in r && r[i].isDefault && r[j].isDefault
      && r[i].projectId == r[j].projectId && r[i].userId == r[j].userId
      ensures i == j
    {
      assert r[i] == presets[i] && r[j] == presets[j];
    }
  }

  /** Saving a row whose id matches its key, for the same project and user as
      any row it replaces, keeps the table consistent when the row is not a
      default or its pair has no other default. */
  lemma SaveKeepsConsistent(presets: map<string, FilterPreset>, p: FilterPreset)
    requires Consistent(presets)
    requires p.id in presets ==> Owns(presets[p.id], p.projectId, p.userId)
    requires p.isDefault ==> forall id :: id in presets && id != p.id && Owns(presets[id], p.projectId, p.userId) ==> !presets[id].isDefault
    ensures Consistent(SavePreset(presets, p))
  {
    var r := SavePreset(presets, p);
    forall i, j | i in r && j in r && r[i].isDefault && r[j].isDefault
      && r[i].projectId == r[j].projectId && r[i].userId == r[j].userId
      ensures i == j
    {
      if i != p.id && j != p.id {
        assert r[i] == presets[i] && r[j] == presets[j];
      }
    }
  }

  /** Creating a preset under a fresh id keeps the table consistent. */
  lemma CreateKeepsConsistent(w: PresetWorld, projectId: string, userId: string, rawName: string, dto: FilterConfigDto,
                              isDefault: bool, presetId: string, now: int)
    requires Consistent(w.presets)
    requires presetId !in w.presets
    ensures Consistent(CreatePreset(w, projectId, userId, rawName, dto, isDefault, presetId, now).world.presets)
  {
    var o := CreatePreset(w, projectId, userId, rawName, dto, isDefault, presetId, now);
    if o.result.Ok? {
      var cleared := if isDefault then ClearDefault(w.presets, projectId, userId, now) else w.presets;
      ClearKeepsConsistent(w.presets, projectId, userId, now);
      SaveKeepsConsistent(cleared, o.result.value);
    }
  }

  /** Updating a preset keeps the table consistent. */
  lemma UpdateKeepsConsistent(w: PresetWorld, projectId: string, presetId: string, userId: string, name: Option<string>,
                              dto: Option<FilterConfigDto>, isDefault: Option<bool>, now: int)
    requires Consistent(w.presets)
    ensures Consistent(UpdatePreset(w, projectId, presetId, userId, name, dto, isDefault, now).world.presets)
  {
    var o := UpdatePreset(w, projectId, presetId, userId, name, dto, isDefault, now);
    if o.result.Ok? {
      var before := w.presets[presetId];
      var p := o.result.value;
      assert p.id == presetId;
      if isDefault == Some(true) && !before.isDefault {
        var cleared := ClearDefault(w.presets, projectId, userId, now);
        ClearKeepsConsistent(w.presets, projectId, userId, now);
        SaveKeepsConsistent(cleared, p);
      } else {
        if p.isDefault {
          forall id | id in w.presets && id != p.id && Owns(w.presets[id], p.projectId, p.userId)
            ensures !w.presets[id].isDefault
          {
            assert before.isDefault && Owns(before, p.projectId, p.userId);
          }
        }
        SaveKeepsConsistent(w.presets, p);
      }
    }
  }

  /** Deleting a preset keeps the table consistent. */
  lemma DeleteKeepsConsistent(w: PresetWorld, projectId: string, presetId: string, userId: string)
    requires Consistent(w.presets)
    ensures Consistent(DeletePreset(w, projectId, presetId, userId).world.presets)
  {
  }

  /** With one default per pair, the default lookup finds at most one preset. */
  lemma DefaultIsUnique(w: PresetWorld, projectId: string, userId: string)
    requires OneDefaultEach(w.presets)
    requires DefaultPresets(w, projectId, userId).Ok?
    ensures forall p, q :: p in DefaultPresets(w, projectId, userId).value && q in DefaultPresets(w, projectId, userId).value ==> p == q
  {
    var r := DefaultPresets(w, projectId, userId).value;
    forall p, q | p in r && q in r ensures p == q {
      var i :| i in w.presets && w.presets[i] == p;
      var j :| j in w.presets && w.presets[j] == q;
    }
  }
}
