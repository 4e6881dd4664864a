/** The alert and alert rule services: the project access check, alert
    listing with its page window, single-alert reads and resolution, and rule
    creation and update with the rule type, operator, name and channel checks.
    The alert tables are the evaluator's store; projects and memberships come
    from the project store. Ids and the clock are parameters. */
module AlertServices {
  import opened Wrappers
  import opened Text
  import opened Json
  import opened AlertValues
  import opened AlertEntities
  import opened AlertEvaluator
  import OrgService
  import ProjectService
  import Ordering

  datatype AlertWorld = AlertWorld(projects: ProjectService.ProjectStore, alerting: AlertStore)

  datatype ServiceOutcome<T> = ServiceOutcome(world: AlertWorld, result: Result<T, AlertError>)

  /** `verify_project_access` of both services: a missing or deleted project
      is `ProjectNotFound`; a user without a membership in the project's
      organisation is `NotAuthorized`. Any role will do, and the organisation's
      own deletion is not looked at. */
  function VerifyAlertAccess(w: AlertWorld, projectId: string, userId: string): (r: Result<(), AlertError>)
    ensures r.Ok? <==>
      && ProjectService.IsLiveProject(w.projects, projectId)
      && OrgService.IsMember(w.projects.orgs, w.projects.projects[projectId].organizationId, userId)
    ensures !ProjectService.IsLiveProject(w.projects, projectId) ==> r == Err(ProjectNotFound)
    ensures r.Err? ==> r.error in {ProjectNotFound, NotAuthorized}
  {
    if !ProjectService.IsLiveProject(w.projects, projectId) then Err(ProjectNotFound)
    else if !OrgService.IsMember(w.projects.orgs, w.projects.projects[projectId].organizationId, userId) then Err(NotAuthorized)
    else Ok(())
  }

  // ---------------------------------------------------------------------------
  // reading alerts

  /** The alerts matching `keep`, in storage order. */
  function Kept(alerts: seq<Alert>, keep: Alert -> bool): (r: seq<Alert>)
    ensures forall a :: a in r <==> a in alerts && keep(a)
    ensures |r| <= |alerts|
    decreases |alerts|
  {
    if |alerts| == 0 then []
    else
      assert forall a :: a in alerts <==> a == alerts[0] || a in alerts[1..];
      (if keep(alerts[0]) then [alerts[0]] else []) + Kept(alerts[1..], keep)
  }

  function NegatedTrigger(a: Alert): int {
    -a.triggeredAt
  }

  /** The alerts matching `keep`, `ORDER BY triggered_at DESC`; the order
      among alerts triggered at the same instant is not modelled. */
  function NewestFirst(alerts: seq<Alert>, keep: Alert -> bool): (r: seq<Alert>)
    ensures forall a :: a in r <==> a in alerts && keep(a)
    ensures |r| <= |alerts|
    ensures forall i, j :: 0 <= i < j < |r| ==> r[i].triggeredAt >= r[j].triggeredAt
  {
    var kept := Kept(alerts, keep);
    Ordering.SortedMembers(kept, NegatedTrigger);
    var r := Ordering.SortBy(kept, NegatedTrigger);
    assert forall i, j :: 0 <= i < j < |r| ==> NegatedTrigger(r[i]) <= NegatedTrigger(r[j]);
    r
  }

  function ProjectAlerts(alerts: seq<Alert>, projectId: string): seq<Alert> {
    NewestFirst(alerts, (a: Alert) => a.projectId == projectId)
  }

  /** `AlertRepository::find_by_id`: the first stored alert with that id. */
  function FindAlertById(alerts: seq<Alert>, id: string): (r: Option<Alert>)
    ensures r.Some? ==> r.value in alerts && r.value.id == id
    ensures r.None? <==> forall a :: a in alerts ==> a.id != id
  {
    if |alerts| == 0 then None
    else if alerts[0].id == id then Some(alerts[0])
    else FindAlertById(alerts[1..], id)
  }

  datatype AlertPage = AlertPage(alerts: seq<Alert>, total: nat, hasMore: bool)

  /** The page size `list_alerts` uses: 50 when absent, at most 100. As
      written nothing keeps it positive; the corrected size is at least 1. */
  function PageLimit(limit: Option<int>, asWritten: bool): int {
    var l := Min(limit.GetOr(50), 100);
    if asWritten then l else Max(l, 1)
  }

  /** `LIMIT n OFFSET k` over the rows; the database refuses a negative limit
      or offset. */
  function Window(rows: seq<Alert>, offset: int, n: int): (r: Result<seq<Alert>, AlertError>)
    ensures r.Ok? <==> offset >= 0 && n >= 0
    ensures r.Ok? ==> r.value == rows[Min(offset, |rows|)..Min(offset + n, |rows|)]
  {
    if offset < 0 || n < 0 then Err(InternalError)
    else Ok(rows[Min(offset, |rows|)..Min(offset + n, |rows|)])
  }

  /** The page: fetch one row more than the limit, report `hasMore` when more
      than `limit` came back, and keep the first `limit` rows. Rust's
      `take(limit as usize)` turns -1 into a huge count, so it keeps them all. */
  function Page(rows: seq<Alert>, limit: int, offset: int): (r: Result<AlertPage, AlertError>)
    ensures r.Ok? <==> offset >= 0 && limit + 1 >= 0
    ensures r.Ok? ==> r.value.total == |rows| && forall a :: a in r.value.alerts ==> a in rows
  {
    match Window(rows, offset, limit + 1)
    case Err(e) => Err(e)
    case Ok(fetched) =>
      var kept := if limit < 0 || |fetched| <= limit then fetched else fetched[..limit];
      Ok(AlertPage(kept, |rows|, |fetched| > limit))
  }

  function ListAlertsWith(w: AlertWorld, projectId: string, limit: Option<int>, offset: Option<int>, userId: string,
                          asWritten: bool): (r: Result<AlertPage, AlertError>)
    ensures VerifyAlertAccess(w, projectId, userId).Err? ==> r == Err(VerifyAlertAccess(w, projectId, userId).error)
    ensures r.Ok? ==> forall a :: a in r.value.alerts ==> a in w.alerting.alerts && a.projectId == projectId
    ensures r.Ok? ==> r.value.total == |ProjectAlerts(w.alerting.alerts, projectId)|
  {
    match VerifyAlertAccess(w, projectId, userId)
    case Err(e) => Err(e)
    case Ok(_) => Page(ProjectAlerts(w.alerting.alerts, projectId), PageLimit(limit, asWritten), offset.GetOr(0))
  }

  /** `list_alerts` as written: a limit of -1 is passed through. */
  function ListAlertsAsWritten(w: AlertWorld, projectId: string, limit: Option<int>, offset: Option<int>, userId: string): (r: Result<AlertPage, AlertError>)
    ensures VerifyAlertAccess(w, projectId, userId).Err? ==> r == Err(VerifyAlertAccess(w, projectId, userId).error)
  {
    ListAlertsWith(w, projectId, limit, offset, userId, true)
  }

  /** `list_alerts` with the page size kept in 1 to 100. */
  function ListAlerts(w: AlertWorld, projectId: string, limit: Option<int>, offset: Option<int>, userId: string): (r: Result<AlertPage, AlertError>)
    ensures VerifyAlertAccess(w, projectId, userId).Err? ==> r == Err(VerifyAlertAccess(w, projectId, userId).error)
    ensures r.Ok? <==> VerifyAlertAccess(w, projectId, userId).Ok? && offset.GetOr(0) >= 0
  {
    ListAlertsWith(w, projectId, limit, offset, userId, false)
  }

  /** A page with a positive limit: the rows from the offset on, in order,
      at most the limit of them, and `hasMore` exactly when rows remain. */
  lemma PositivePage(rows: seq<Alert>, l: int, o: int)
    requires l >= 1 && o >= 0
    ensures Page(rows, l, o).Ok?
    ensures var page := Page(rows, l, o).value;
      && |page.alerts| <= l
      && page.total == |rows|
      && (o <= |rows| ==> page.alerts == rows[o..o + |page.alerts|])
      && (o > |rows| ==> page.alerts == [])
      && (page.hasMore <==> o + |page.alerts| < |rows|)
      && (page.hasMore ==> |page.alerts| == l)
  {
    var fetched := Window(rows, o, l + 1).value;
    assert fetched == rows[Min(o, |rows|)..Min(o + l + 1, |rows|)];
    var kept := if |fetched| <= l then fetched else fetched[..l];
    assert Page(rows, l, o).value == AlertPage(kept, |rows|, |fetched| > l);
    if o <= |rows| {
      assert fetched == rows[o..Min(o + l + 1, |rows|)];
      if |fetched| > l {
        assert kept == rows[o..o + l];
      }
    }
  }

  /** The corrected page: at most `limit` alerts, the default 50 and the cap
      100, the rows of the project from the offset on, newest first, the total
      count, and `hasMore` exactly when rows remain after the page. */
  lemma ListAlertsPage(w: AlertWorld, projectId: string, limit: Option<int>, offset: Option<int>, userId: string)
    requires ListAlerts(w, projectId, limit, offset, userId).Ok?
    ensures var page := ListAlerts(w, projectId, limit, offset, userId).value;
      var rows := ProjectAlerts(w.alerting.alerts, projectId);
      var o := offset.GetOr(0);
      && |page.alerts| <= PageLimit(limit, false) <= 100
      && (limit.None? ==> PageLimit(limit, false) == 50)
      && page.total == |rows|
      && (o <= |rows| ==> page.alerts == rows[o..o + |page.alerts|])
      && (o > |rows| ==> page.alerts == [])
      && (page.hasMore <==> o + |page.alerts| < |rows|)
      && (page.hasMore ==> |page.alerts| == PageLimit(limit, false))
      && (forall i, j :: 0 <= i < j < |page.alerts| ==> page.alerts[i].triggeredAt >= page.alerts[j].triggeredAt)
  {
    var rows := ProjectAlerts(w.alerting.alerts, projectId);
    var o := offset.GetOr(0);
    var l := PageLimit(limit, false);
    assert 1 <= l <= 100;
    assert ListAlerts(w, projectId, limit, offset, userId) == Page(rows, l, o);
    PositivePage(rows, l, o);
    NewestFirstPage(rows, l, o);
  }

  /** A page cut from rows newest first is newest first. */
  lemma NewestFirstPage(rows: seq<Alert>, l: int, o: int)
    requires l >= 1 && o >= 0
    requires forall i, j :: 0 <= i < j < |rows| ==> rows[i].triggeredAt >= rows[j].triggeredAt
    ensures Page(rows, l, o).Ok?
    ensures var page := Page(rows, l, o).value.alerts;
      forall i, j :: 0 <= i < j < |page| ==> page[i].triggeredAt >= page[j].triggeredAt
  {
    PositivePage(rows, l, o);
    var page := Page(rows, l, o).value.alerts;
    if o <= |rows| {
      forall i, j | 0 <= i < j < |page| ensures page[i].triggeredAt >= page[j].triggeredAt {
        assert page[i] == rows[o + i] && page[j] == rows[o + j];
      }
    }
  }

  /** As written, a limit of -1 asks the database for no rows yet reports more
      to come, even when the project has no alerts at all. */
  lemma NegativeLimitClaimsMore(w: AlertWorld, projectId: string, userId: string)
    requires VerifyAlertAccess(w, projectId, userId).Ok?
    requires ProjectAlerts(w.alerting.alerts, projectId) == []
    ensures ListAlertsAsWritten(w, projectId, Some(-1), None, userId) == Ok(AlertPage([], 0, true))
    ensures ListAlerts(w, projectId, Some(-1), None, userId) == Ok(AlertPage([], 0, false))
  {
  }

  /** `get_alert`: an alert of another project is `AlertNotFound`, like a missing one. */
  function GetAlert(w: AlertWorld, projectId: string, alertId: string, userId: string): (r: Result<Alert, AlertError>)
    ensures VerifyAlertAccess(w, projectId, userId).Err? ==> r == Err(VerifyAlertAccess(w, projectId, userId).error)
    ensures r.Ok? <==>
      && VerifyAlertAccess(w, projectId, userId).Ok?
      && FindAlertById(w.alerting.alerts, alertId).Some?
      && FindAlertById(w.alerting.alerts, alertId).value.projectId == projectId
    ensures VerifyAlertAccess(w, projectId, userId).Ok? && r.Err? ==> r.error == AlertNotFound
    ensures r.Ok? ==> r.value in w.alerting.alerts && r.value.id == alertId && r.value.projectId == projectId
  {
    match VerifyAlertAccess(w, projectId, userId)
    case Err(e) => Err(e)
    case Ok(_) =>
      match FindAlertById(w.alerting.alerts, alertId)
      case None => Err(AlertNotFound)
      case Some(a) => if a.projectId != projectId then Err(AlertNotFound) else Ok(a)
  }

  /** `get_alerts_by_rule`: the rule must exist and belong to the project; then
      its newest alerts, at most the limit (50 when absent, at most 100). */
  function GetAlertsByRule(w: AlertWorld, projectId: string, ruleId: string, limit: Option<int>, userId: string): (r: Result<seq<Alert>, AlertError>)
    ensures VerifyAlertAccess(w, projectId, userId).Err? ==> r == Err(VerifyAlertAccess(w, projectId, userId).error)
    ensures VerifyAlertAccess(w, projectId, userId).Ok? ==>
      (ruleId !in w.alerting.rules || w.alerting.rules[ruleId].projectId != projectId) ==> r == Err(RuleNotFound)
    ensures r.Ok? ==>
      var all := NewestFirst(w.alerting.alerts, (a: Alert) => a.ruleId == ruleId);
      && |r.value| <= Min(limit.GetOr(50), 100)
      && |r.value| <= |all|
      && r.value == all[..|r.value|]
      && (|r.value| < Min(limit.GetOr(50), 100) ==> r.value == all)
  {
    match VerifyAlertAccess(w, projectId, userId)
    case Err(e) => Err(e)
    case Ok(_) =>
      if ruleId !in w.alerting.rules || w.alerting.rules[ruleId].projectId != projectId then Err(RuleNotFound)
      else
        var n := Min(limit.GetOr(50), 100);
        var all := NewestFirst(w.alerting.alerts, (a: Alert) => a.ruleId == ruleId);
        if n < 0 then Err(InternalError)
        else Ok(all[..Min(n, |all|)])
  }

  /** `resolve_alert`: only a Firing alert of the project can be resolved; a
      resolved one gives `AlertAlreadyResolved` and nothing is written. */
  function ResolveAlert(w: AlertWorld, projectId: string, alertId: string, userId: string, now: int): (o: ServiceOutcome<Alert>)
    ensures o.result.Err? ==> o.world == w
    ensures o.result.Err? ==> o.result.error == (match GetAlert(w, projectId, alertId, userId)
                                                case Err(e) => e
                                                case Ok(_) => AlertAlreadyResolved)
    ensures o.result.Ok? <==> GetAlert(w, projectId, alertId, userId).Ok? && IsFiring(GetAlert(w, projectId, alertId, userId).value)
    ensures o.result.Ok? ==>
      && o.result.value == Resolve(GetAlert(w, projectId, alertId, userId).value, now)
      && o.world == w.(alerting := w.alerting.(alerts := ReplaceAlert(w.alerting.alerts, o.result.value)))
  {
    match GetAlert(w, projectId, alertId, userId)
    case Err(e) => ServiceOutcome(w, Err(e))
    case Ok(a) =>
      if !IsFiring(a) then ServiceOutcome(w, Err(AlertAlreadyResolved))
      else
        var a' := Resolve(a, now);
        ServiceOutcome(w.(alerting := w.alerting.(alerts := ReplaceAlert(w.alerting.alerts, a'))), Ok(a'))
  }

  /** After the replacement, looking the id up finds the replacement. */
  lemma {:induction false} FindAfterReplace(alerts: seq<Alert>, a: Alert)
    requires exists k :: 0 <= k < |alerts| && alerts[k].id == a.id
    ensures FindAlertById(ReplaceAlert(alerts, a), a.id) == Some(a)
    decreases |alerts|
  {
    var r := ReplaceAlert(alerts, a);
    if alerts[0].id != a.id {
      var k :| 0 <= k < |alerts| && alerts[k].id == a.id;
      assert alerts[1..][k - 1].id == a.id;
      FindAfterReplace(alerts[1..], a);
      assert ReplaceAlert(alerts[1..], a) == r[1..];
    }
  }

  /** Resolving is once only: a second call reports `AlertAlreadyResolved`.
      Resolving never adds a Firing alert, so at most one Firing alert per rule
      stays true. */
  lemma ResolveOnce(w: AlertWorld, projectId: string, alertId: string, userId: string, t1: int, t2: int)
    requires ResolveAlert(w, projectId, alertId, userId, t1).result.Ok?
    ensures var w1 := ResolveAlert(w, projectId, alertId, userId, t1).world;
      ResolveAlert(w1, projectId, alertId, userId, t2) == ServiceOutcome(w1, Err(AlertAlreadyResolved))
    ensures AtMostOneFiring(w.alerting.alerts) ==>
      AtMostOneFiring(ResolveAlert(w, projectId, alertId, userId, t1).world.alerting.alerts)
  {
    var o := ResolveAlert(w, projectId, alertId, userId, t1);
    var a := FindAlertById(w.alerting.alerts, alertId).value;
    var k :| 0 <= k < |w.alerting.alerts| && w.alerting.alerts[k] == a;
    FindAfterReplace(w.alerting.alerts, o.result.value);
  }

  // ---------------------------------------------------------------------------
  // channel validation

  predicate UniqueChannelIds(channels: seq<AlertChannel>) {
    forall i, j :: 0 <= i < j < |channels| ==> channels[i].id != channels[j].id
  }

  predicate Distinct(ids: seq<string>) {
    forall i, j :: 0 <= i < j < |ids| ==> ids[i] != ids[j]
  }

  /** The channel check of `create_rule` and `update_rule`: an empty list is
      fine; otherwise every enabled channel `find_by_ids` returns must belong to
      the project, and as many must come back as ids were given. */
  predicate ChannelsAccepted(channels: seq<AlertChannel>, projectId: string, ids: seq<string>) {
    ids == [] ||
    (var found := ChannelsByIds(channels, ids);
     (forall c :: c in found ==> c.projectId == projectId) && |found| == |ids|)
  }

  /** What the check is meant to establish: the ids are distinct and each names
      an enabled channel of the project. */
  predicate ChannelsUsable(channels: seq<AlertChannel>, projectId: string, ids: seq<string>) {
    Distinct(ids)
    && forall id :: id in ids ==> exists c :: c in channels && c.id == id && c.isEnabled && c.projectId == projectId
  }

  function IdSet(ids: seq<string>): set<string> { set id | id in ids }

  function ChannelIdSet(cs: seq<AlertChannel>): set<string> { set c | c in cs :: c.id }

  lemma {:induction false} IdSetSize(ids: seq<string>)
    ensures |IdSet(ids)| <= |ids|
    ensures |IdSet(ids)| == |ids| <==> Distinct(ids)
    decreases |ids|
  {
    if |ids| > 0 {
      var rest := ids[1..];
      IdSetSize(rest);
      assert IdSet(ids) == {ids[0]} + IdSet(rest);
      if ids[0] in rest {
        assert IdSet(ids) == IdSet(rest);
        var j :| 0 <= j < |rest| && rest[j] == ids[0];
        assert ids[0] == ids[j + 1];
      } else {
        assert Distinct(ids) <==> Distinct(rest) by {
          if Distinct(rest) {
            forall i, j | 0 <= i < j < |ids| ensures ids[i] != ids[j] {
              if i > 0 { assert ids[i] == rest[i - 1] && ids[j] == rest[j - 1]; }
              else { assert ids[j] == rest[j - 1]; }
            }
          }
          if Distinct(ids) {
            forall i, j | 0 <= i < j < |rest| ensures rest[i] != rest[j] {
              assert rest[i] == ids[i + 1] && rest[j] == ids[j + 1];
            }
          }
        }
      }
    } else {
      assert IdSet(ids) == {};
    }
  }

  lemma {:induction false} ChannelIdSetSize(cs: seq<AlertChannel>)
    requires UniqueChannelIds(cs)
    ensures |ChannelIdSet(cs)| == |cs|
    decreases |cs|
  {
    if |cs| > 0 {
      var rest := cs[1..];
      assert UniqueChannelIds(rest) by {
        forall i, j | 0 <= i < j < |rest| ensures rest[i].id != rest[j].id {
          assert rest[i] == cs[i + 1] && rest[j] == cs[j + 1];
        }
      }
      ChannelIdSetSize(rest);
      assert ChannelIdSet(cs) == {cs[0].id} + ChannelIdSet(rest);
      forall j | 0 <= j < |rest| ensures rest[j].id != cs[0].id {
        assert rest[j] == cs[j + 1];
      }
    } else {
      assert ChannelIdSet(cs) == {};
    }
  }

  /** Filtering keeps the order, so it keeps unique ids unique. */
  lemma {:induction false} FoundChannelsAreUnique(channels: seq<AlertChannel>, ids: seq<string>)
    requires UniqueChannelIds(channels)
    ensures UniqueChannelIds(ChannelsByIds(channels, ids))
    decreases |channels|
  {
    if |channels| > 0 {
      var rest := channels[1..];
      assert UniqueChannelIds(rest) by {
        forall i, j | 0 <= i < j < |rest| ensures rest[i].id != rest[j].id {
          assert rest[i] == channels[i + 1] && rest[j] == channels[j + 1];
        }
      }
      FoundChannelsAreUnique(rest, ids);
      var tail := ChannelsByIds(rest, ids);
      var head: seq<AlertChannel> := if channels[0].id in ids && channels[0].isEnabled then [channels[0]] else [];
      assert ChannelsByIds(channels, ids) == head + tail;
      forall c | c in tail ensures c.id != channels[0].id {
        var j :| 0 <= j < |rest| && rest[j] == c;
        assert channels[j + 1] == c;
      }
    }
  }

  /** With unique channel ids in the table, the check passes exactly when the
      ids are distinct and each names an enabled channel of the project: a
      repeated id, a disabled channel, a missing one and one of another project
      are all refused. */
  lemma ChannelCheckMeaning(channels: seq<AlertChannel>, projectId: string, ids: seq<string>)
    requires UniqueChannelIds(channels)
    ensures ChannelsAccepted(channels, projectId, ids) <==> ChannelsUsable(channels, projectId, ids)
  {
    var found := ChannelsByIds(channels, ids);
    FoundChannelsAreUnique(channels, ids);
    ChannelIdSetSize(found);
    IdSetSize(ids);
    assert ChannelIdSet(found) <= IdSet(ids);
    if ids == [] {
      assert Distinct(ids);
    } else if ChannelsAccepted(channels, projectId, ids) {
      assert |ChannelIdSet(found)| == |ids|;
      assert |IdSet(ids) - ChannelIdSet(found)| == 0;
      assert IdSet(ids) == ChannelIdSet(found);
      forall id | id in ids
        ensures exists c :: c in channels && c.id == id && c.isEnabled && c.projectId == projectId
      {
        assert id in ChannelIdSet(found);
        var c :| c in found && c.id == id;
      }
    }
    if ids != [] && ChannelsUsable(channels, projectId, ids) {
      forall c | c in found ensures c.projectId == projectId {
        var c' :| c' in channels && c'.id == c.id && c'.isEnabled && c'.projectId == projectId;
        var i :| 0 <= i < |channels| && channels[i] == c;
        var j :| 0 <= j < |channels| && channels[j] == c';
        assert i == j;
      }
      forall id | id in IdSet(ids) ensures id in ChannelIdSet(found) {
        var c :| c in channels && c.id == id && c.isEnabled && c.projectId == projectId;
        assert c in found;
      }
      assert IdSet(ids) == ChannelIdSet(found);
    }
  }

  // ---------------------------------------------------------------------------
  // rules

  /** `name_exists`: another rule of the project with exactly this name. */
  predicate RuleNameTaken(rules: map<string, AlertRule>, projectId: string, name: string, excluding: Option<string>) {
    exists id :: id in rules && rules[id].projectId == projectId && rules[id].name == name && excluding != Some(id)
  }

  datatype RuleRequest = RuleRequest(
    name: string,
    description: Option<string>,
    ruleType: string,
    config: Json,
    thresholdValue: real,
    thresholdOperator: string,
    timeWindowSeconds: int,
    channelIds: seq<string>)

  /** The checks of `create_rule` in order: access, rule type, operator, name
      uniqueness in the project, then the channels. */
  predicate CreateRuleGuardsPass(w: AlertWorld, projectId: string, req: RuleRequest, userId: string) {
    && VerifyAlertAccess(w, projectId, userId).Ok?
    && RuleTypeFromStr(req.ruleType).Ok?
    && ThresholdOperatorFromStr(req.thresholdOperator).Ok?
    && !RuleNameTaken(w.alerting.rules, projectId, req.name, None)
    && ChannelsAccepted(w.alerting.channels, projectId, req.channelIds)
  }

  /** `create_rule`: a new enabled rule with the parsed type and operator and
      the listed channels, stored under its id. */
  function CreateRule(w: AlertWorld, projectId: string, req: RuleRequest, userId: string, ruleId: string, now: int): (o: ServiceOutcome<AlertRule>)
    ensures o.result.Ok? <==> CreateRuleGuardsPass(w, projectId, req, userId)
    ensures o.result.Err? ==> o.world == w
    ensures VerifyAlertAccess(w, projectId, userId).Err? ==> o.result == Err(VerifyAlertAccess(w, projectId, userId).error)
    ensures VerifyAlertAccess(w, projectId, userId).Ok? && RuleTypeFromStr(req.ruleType).Err? ==>
      o.result == Err(InvalidRuleType(req.ruleType))
    ensures (VerifyAlertAccess(w, projectId, userId).Ok? && RuleTypeFromStr(req.ruleType).Ok?
      && ThresholdOperatorFromStr(req.thresholdOperator).Err?) ==> o.result == Err(InvalidThresholdOperator(req.thresholdOperator))
    ensures (VerifyAlertAccess(w, projectId, userId).Ok? && RuleTypeFromStr(req.ruleType).Ok?
      && ThresholdOperatorFromStr(req.thresholdOperator).Ok? && RuleNameTaken(w.alerting.rules, projectId, req.name, None))
      ==> o.result == Err(RuleNameExists(req.name))
    ensures o.result.Ok? ==>
      var r := o.result.value;
      && r.id == ruleId && r.projectId == projectId && r.name == req.name && r.createdBy == userId
      && r.ruleType == RuleTypeFromStr(req.ruleType).value
      && r.thresholdOperator == ThresholdOperatorFromStr(req.thresholdOperator).value
      && r.thresholdValue == req.thresholdValue && r.channelIds == req.channelIds
      && r.isEnabled && r.lastEvaluatedAt.None? && r.lastTriggeredAt.None?
      && o.world == w.(alerting := w.alerting.(rules := w.alerting.rules[ruleId := r]))
  {
    match VerifyAlertAccess(w, projectId, userId)
    case Err(e) => ServiceOutcome(w, Err(e))
    case Ok(_) =>
      match RuleTypeFromStr(req.ruleType)
      case Err(e) => ServiceOutcome(w, Err(e))
      case Ok(ruleType) =>
        match ThresholdOperatorFromStr(req.thresholdOperator)
        case Err(e) => ServiceOutcome(w, Err(e))
        case Ok(op) =>
          if RuleNameTaken(w.alerting.rules, projectId, req.name, None) then ServiceOutcome(w, Err(RuleNameExists(req.name)))
          else if !ChannelsAccepted(w.alerting.channels, projectId, req.channelIds) then ServiceOutcome(w, Err(ChannelNotFound))
          else
            var r := NewAlertRule(ruleId, projectId, req.name, req.description, ruleType, req.config,
                                  req.thresholdValue, op, req.timeWindowSeconds, userId, now);
            var r' := if req.channelIds == [] then r else SetChannelIds(r, req.channelIds, now);
            ServiceOutcome(w.(alerting := w.alerting.(rules := w.alerting.rules[ruleId := r'])), Ok(r'))
  }

  /** Only the rule type and the operator are checked before the name: an
      unknown type is reported even when the name is taken as well. */
  lemma CreateRuleChecksTypeBeforeName(w: AlertWorld, projectId: string, req: RuleRequest, userId: string, ruleId: string, now: int)
    requires VerifyAlertAccess(w, projectId, userId).Ok?
    requires RuleNameTaken(w.alerting.rules, projectId, req.name, None)
    ensures RuleTypeFromStr(req.ruleType).Err? ==> CreateRule(w, projectId, req, userId, ruleId, now).result == Err(InvalidRuleType(req.ruleType))
    ensures RuleTypeFromStr(req.ruleType).Ok? && ThresholdOperatorFromStr(req.thresholdOperator).Ok? ==>
      CreateRule(w, projectId, req, userId, ruleId, now).result == Err(RuleNameExists(req.name))
  {
  }

  /** `get_rule`: a rule of another project is `RuleNotFound`. */
  function GetRule(w: AlertWorld, projectId: string, ruleId: string, userId: string): (r: Result<AlertRule, AlertError>)
    ensures VerifyAlertAccess(w, projectId, userId).Err? ==> r == Err(VerifyAlertAccess(w, projectId, userId).error)
    ensures r.Ok? <==>
      && VerifyAlertAccess(w, projectId, userId).Ok? && ruleId in w.alerting.rules
      && w.alerting.rules[ruleId].projectId == projectId
    ensures VerifyAlertAccess(w, projectId, userId).Ok? && r.Err? ==> r.error == RuleNotFound
    ensures r.Ok? ==> r.value == w.alerting.rules[ruleId]
  {
    match VerifyAlertAccess(w, projectId, userId)
    case Err(e) => Err(e)
    case Ok(_) =>
      if ruleId !in w.alerting.rules || w.alerting.rules[ruleId].projectId != projectId then Err(RuleNotFound)
      else Ok(w.alerting.rules[ruleId])
  }

  /** `list_rules`: the rules of the project. */
  function ListRules(w: AlertWorld, projectId: string, userId: string): (r: Result<set<AlertRule>, AlertError>)
    ensures r.Ok? <==> VerifyAlertAccess(w, projectId, userId).Ok?
    ensures r.Ok? ==> forall x :: x in r.value <==> x in w.alerting.rules.Values && x.projectId == projectId
  {
    match VerifyAlertAccess(w, projectId, userId)
    case Err(e) => Err(e)
    case Ok(_) => Ok(set id | id in w.alerting.rules && w.alerting.rules[id].projectId == projectId :: w.alerting.rules[id])
  }

  /** `delete_rule`: the rule of the project is removed. */
  function DeleteRule(w: AlertWorld, projectId: string, ruleId: string, userId: string): (o: ServiceOutcome<()>)
    ensures o.result.Ok? <==> GetRule(w, projectId, ruleId, userId).Ok?
    ensures o.result.Err? ==> o.world == w && o.result.error == GetRule(w, projectId, ruleId, userId).error
    ensures o.result.Ok? ==>
      && o.world == w.(alerting := w.alerting.(rules := w.alerting.rules - {ruleId}))
      && GetRule(o.world, projectId, ruleId, userId) == Err(RuleNotFound)
  {
    match GetRule(w, projectId, ruleId, userId)
    case Err(e) => ServiceOutcome(w, Err(e))
    case Ok(_) => ServiceOutcome(w.(alerting := w.alerting.(rules := w.alerting.rules - {ruleId})), Ok(()))
  }

  datatype RuleUpdate = RuleUpdate(
    name: Option<string>,
    description: Option<string>,
    config: Option<Json>,
    thresholdValue: Option<real>,
    thresholdOperator: Option<string>,
    timeWindowSeconds: Option<int>,
    isEnabled: Option<bool>,
    channelIds: Option<seq<string>>)

  /** The threshold merge of `update_rule`: a value alone keeps the old
      operator, an operator alone keeps the old value, both replace both. */
  function MergeThreshold(r: AlertRule, value: Option<real>, op: Option<string>, now: int): (res: Result<AlertRule, AlertError>)
    ensures value.None? && op.None? ==> res == Ok(r)
    ensures op.Some? && ThresholdOperatorFromStr(op.value).Err? ==> res == Err(InvalidThresholdOperator(op.value))
    ensures res.Ok? && (value.Some? || op.Some?) ==>
      && res.value == UpdateThreshold(r, value.GetOr(r.thresholdValue),
                                      if op.Some? then ThresholdOperatorFromStr(op.value).value else r.thresholdOperator, now)
    ensures res.Ok? <==> op.None? || ThresholdOperatorFromStr(op.value).Ok?
  {
    if value.Some? then
      var o := if op.Some? then ThresholdOperatorFromStr(op.value) else Ok(r.thresholdOperator);
      match o
      case Err(e) => Err(e)
      case Ok(operator) => Ok(UpdateThreshold(r, value.value, operator, now))
    else if op.Some? then
      match ThresholdOperatorFromStr(op.value)
      case Err(e) => Err(e)
      case Ok(operator) => Ok(UpdateThreshold(r, r.thresholdValue, operator, now))
    else Ok(r)
  }

  /** The guards of `update_rule`: the rule of the project, a new name unused by
      the project's other rules, a parsable operator, and accepted channels. */
  predicate UpdateRuleGuardsPass(w: AlertWorld, projectId: string, ruleId: string, req: RuleUpdate, userId: string) {
    && GetRule(w, projectId, ruleId, userId).Ok?
    && (req.name.Some? ==> !RuleNameTaken(w.alerting.rules, projectId, req.name.value, Some(ruleId)))
    && (req.thresholdOperator.Some? ==> ThresholdOperatorFromStr(req.thresholdOperator.value).Ok?)
    && (req.channelIds.Some? ==> ChannelsAccepted(w.alerting.channels, projectId, req.channelIds.value))
  }

  /** The fields no update touches. */
  predicate SameIdentity(a: AlertRule, b: AlertRule) {
    && a.id == b.id && a.projectId == b.projectId && a.ruleType == b.ruleType
    && a.createdBy == b.createdBy && a.createdAt == b.createdAt
    && a.lastEvaluatedAt == b.lastEvaluatedAt && a.lastTriggeredAt == b.lastTriggeredAt
  }

  /** The first three edits of `update_rule`: name, description and config. */
  function EditText(r: AlertRule, req: RuleUpdate, now: int): (r': AlertRule)
    ensures SameIdentity(r', r)
    ensures r'.name == req.name.GetOr(r.name)
    ensures r'.description == (if req.description.Some? then req.description else r.description)
    ensures r'.config == req.config.GetOr(r.config)
    ensures r'.thresholdValue == r.thresholdValue && r'.thresholdOperator == r.thresholdOperator
    ensures r'.timeWindowSeconds == r.timeWindowSeconds && r'.isEnabled == r.isEnabled && r'.channelIds == r.channelIds
  {
    var r1 := if req.name.Some? then UpdateRuleName(r, req.name.value, now) else r;
    var r2 := if req.description.Some? then UpdateRuleDescription(r1, req.description, now) else r1;
    if req.config.Some? then UpdateRuleConfig(r2, req.config.value, now) else r2
  }

  /** The last three edits of `update_rule`: time window, enabled flag, channels. */
  function EditSettings(r: AlertRule, req: RuleUpdate, now: int): (r': AlertRule)
    ensures SameIdentity(r', r)
    ensures r'.timeWindowSeconds == req.timeWindowSeconds.GetOr(r.timeWindowSeconds)
    ensures r'.isEnabled == req.isEnabled.GetOr(r.isEnabled)
    ensures r'.channelIds == req.channelIds.GetOr(r.channelIds)
    ensures r'.name == r.name && r'.description == r.description && r'.config == r.config
    ensures r'.thresholdValue == r.thresholdValue && r'.thresholdOperator == r.thresholdOperator
  {
    var r5 := if req.timeWindowSeconds.Some? then UpdateTimeWindow(r, req.timeWindowSeconds.value, now) else r;
    var r6 := if req.isEnabled.Some? then (if req.isEnabled.value then EnableRule(r5, now) else DisableRule(r5, now)) else r5;
    if req.channelIds.Some? then SetChannelIds(r6, req.channelIds.value, now) else r6
  }

  /** The mutators `update_rule` applies, in its order, for the fields given. */
  function ApplyRuleUpdate(r: AlertRule, req: RuleUpdate, now: int): Result<AlertRule, AlertError> {
    match MergeThreshold(EditText(r, req, now), req.thresholdValue, req.thresholdOperator, now)
    case Err(e) => Err(e)
    case Ok(r4) => Ok(EditSettings(r4, req, now))
  }

  /** `update_rule`. Nothing is written unless every check passes. */
  function UpdateRule(w: AlertWorld, projectId: string, ruleId: string, req: RuleUpdate, userId: string, now: int): (o: ServiceOutcome<AlertRule>)
    ensures o.result.Ok? <==> UpdateRuleGuardsPass(w, projectId, ruleId, req, userId)
    ensures o.result.Err? ==> o.world == w
    ensures GetRule(w, projectId, ruleId, userId).Err? ==> o.result == Err(GetRule(w, projectId, ruleId, userId).error)
    ensures (GetRule(w, projectId, ruleId, userId).Ok? && req.name.Some?
      && RuleNameTaken(w.alerting.rules, projectId, req.name.value, Some(ruleId))) ==> o.result == Err(RuleNameExists(req.name.value))
    ensures o.result.Ok? ==>
      && ApplyRuleUpdate(w.alerting.rules[ruleId], req, now) == Ok(o.result.value)
      && o.world == w.(alerting := w.alerting.(rules := w.alerting.rules[ruleId := o.result.value]))
  {
    match GetRule(w, projectId, ruleId, userId)
    case Err(e) => ServiceOutcome(w, Err(e))
    case Ok(r) =>
      if req.name.Some? && RuleNameTaken(w.alerting.rules, projectId, req.name.value, Some(ruleId)) then
        ServiceOutcome(w, Err(RuleNameExists(req.name.value)))
      else
        match ApplyRuleUpdate(r, req, now)
        case Err(e) => ServiceOutcome(w, Err(e))
        case Ok(r') =>
          if req.channelIds.Some? && !ChannelsAccepted(w.alerting.channels, projectId, req.channelIds.value) then
            ServiceOutcome(w, Err(ChannelNotFound))
          else ServiceOutcome(w.(alerting := w.alerting.(rules := w.alerting.rules[ruleId := r'])), Ok(r'))
  }

  /** The mutators applied by `update_rule` change exactly the fields given. */
  lemma ApplyRuleUpdateFields(before: AlertRule, req: RuleUpdate, now: int)
    requires ApplyRuleUpdate(before, req, now).Ok?
    ensures var r := ApplyRuleUpdate(before, req, now).value;
      && SameIdentity(r, before)
      && r.name == req.name.GetOr(before.name)
      && r.description == (if req.description.Some? then req.description else before.description)
      && r.config == req.config.GetOr(before.config)
      && r.thresholdValue == req.thresholdValue.GetOr(before.thresholdValue)
      && r.thresholdOperator == (if req.thresholdOperator.Some? then ThresholdOperatorFromStr(req.thresholdOperator.value).value
                                 else before.thresholdOperator)
      && r.timeWindowSeconds == req.timeWindowSeconds.GetOr(before.timeWindowSeconds)
      && r.isEnabled == req.isEnabled.GetOr(before.isEnabled)
      && r.channelIds == req.channelIds.GetOr(before.channelIds)
  {
    var r3 := EditText(before, req, now);
    var r4 := MergeThreshold(r3, req.thresholdValue, req.thresholdOperator, now).value;
    assert SameIdentity(r4, r3) && r4.name == r3.name && r4.description == r3.description && r4.config == r3.config;
    assert r4.timeWindowSeconds == r3.timeWindowSeconds && r4.isEnabled == r3.isEnabled;
    assert r4.channelIds == r3.channelIds;
    assert ApplyRuleUpdate(before, req, now) == Ok(EditSettings(r4, req, now));
  }

  /** The field merge of `update_rule`: every absent field is kept; the given
      ones replace theirs; `isEnabled` maps to enable or disable; and identity,
      project, type, creator and evaluation times never change. */
  lemma UpdateRuleMerge(w: AlertWorld, projectId: string, ruleId: string, req: RuleUpdate, userId: string, now: int)
    requires UpdateRule(w, projectId, ruleId, req, userId, now).result.Ok?
    ensures var before := w.alerting.rules[ruleId];
      var r := UpdateRule(w, projectId, ruleId, req, userId, now).result.value;
      && SameIdentity(r, before)
      && r.name == req.name.GetOr(before.name)
      && r.description == (if req.description.Some? then req.description else before.description)
      && r.config == req.config.GetOr(before.config)
      && r.thresholdValue == req.thresholdValue.GetOr(before.thresholdValue)
      && r.thresholdOperator == (if req.thresholdOperator.Some? then ThresholdOperatorFromStr(req.thresholdOperator.value).value
                                 else before.thresholdOperator)
      && r.timeWindowSeconds == req.timeWindowSeconds.GetOr(before.timeWindowSeconds)
      && r.isEnabled == req.isEnabled.GetOr(before.isEnabled)
      && r.channelIds == req.channelIds.GetOr(before.channelIds)
      && (req == RuleUpdate(None, None, None, None, None, None, None, None) ==> r == before)
  {
    ApplyRuleUpdateFields(w.alerting.rules[ruleId], req, now);
  }
}
