/** Entities of the alerting module: an alert rule with its mutators, an alert
    with its Firing to Resolved lifecycle, and a notification channel. */
module AlertEntities {
  import opened Wrappers
  import opened Json
  import opened AlertValues

  datatype AlertRule = AlertRule(
    id: string,
    projectId: string,
    name: string,
    description: Option<string>,
    ruleType: RuleType,
    config: Json,
    thresholdValue: real,
    thresholdOperator: ThresholdOperator,
    timeWindowSeconds: int,
    isEnabled: bool,
    lastEvaluatedAt: Option<int>,
    lastTriggeredAt: Option<int>,
    createdAt: int,
    updatedAt: int,
    createdBy: string,
    channelIds: seq<string>)

  /** `AlertRule::new`: enabled, never evaluated or triggered, no channels. */
  function NewAlertRule(
    id: string, projectId: string, name: string, description: Option<string>, ruleType: RuleType,
    config: Json, thresholdValue: real, thresholdOperator: ThresholdOperator, timeWindowSeconds: int,
    createdBy: string, now: int): (r: AlertRule)
    ensures r.isEnabled && r.lastEvaluatedAt.None? && r.lastTriggeredAt.None? && r.channelIds == []
    ensures r.createdAt == r.updatedAt == now
    ensures r.id == id && r.projectId == projectId && r.name == name && r.description == description
    ensures r.ruleType == ruleType && r.config == config && r.createdBy == createdBy
    ensures r.thresholdValue == thresholdValue && r.thresholdOperator == thresholdOperator
    ensures r.timeWindowSeconds == timeWindowSeconds
  {
    AlertRule(id, projectId, name, description, ruleType, config, thresholdValue, thresholdOperator,
              timeWindowSeconds, true, None, None, now, now, createdBy, [])
  }

  function UpdateRuleName(r: AlertRule, name: string, now: int): (r': AlertRule)
    ensures r'.name == name && r'.updatedAt == now
    ensures r'.(name := r.name, updatedAt := r.updatedAt) == r
  {
    r.(name := name, updatedAt := now)
  }

  function UpdateRuleDescription(r: AlertRule, description: Option<string>, now: int): (r': AlertRule)
    ensures r'.description == description && r'.updatedAt == now
    ensures r'.(description := r.description, updatedAt := r.updatedAt) == r
  {
    r.(description := description, updatedAt := now)
  }

  function UpdateRuleConfig(r: AlertRule, config: Json, now: int): (r': AlertRule)
    ensures r'.config == config && r'.updatedAt == now
    ensures r'.(config := r.config, updatedAt := r.updatedAt) == r
  {
    r.(config := config, updatedAt := now)
  }

  /** `update_threshold`: value and operator are replaced together. */
  function UpdateThreshold(r: AlertRule, value: real, op: ThresholdOperator, now: int): (r': AlertRule)
    ensures r'.thresholdValue == value && r'.thresholdOperator == op && r'.updatedAt == now
    ensures r'.(thresholdValue := r.thresholdValue, thresholdOperator := r.thresholdOperator, updatedAt := r.updatedAt) == r
  {
    r.(thresholdValue := value, thresholdOperator := op, updatedAt := now)
  }

  function UpdateTimeWindow(r: AlertRule, seconds: int, now: int): (r': AlertRule)
    ensures r'.timeWindowSeconds == seconds && r'.updatedAt == now
    ensures r'.(timeWindowSeconds := r.timeWindowSeconds, updatedAt := r.updatedAt) == r
  {
    r.(timeWindowSeconds := seconds, updatedAt := now)
  }

  function EnableRule(r: AlertRule, now: int): (r': AlertRule)
    ensures r'.isEnabled && r'.updatedAt == now
    ensures r'.(isEnabled := r.isEnabled, updatedAt := r.updatedAt) == r
  {
    r.(isEnabled := true, updatedAt := now)
  }

  function DisableRule(r: AlertRule, now: int): (r': AlertRule)
    ensures !r'.isEnabled && r'.updatedAt == now
    ensures r'.(isEnabled := r.isEnabled, updatedAt := r.updatedAt) == r
  {
    r.(isEnabled := false, updatedAt := now)
  }

  /** Enabling or disabling twice gives what doing it once gives. */
  lemma EnableDisableIdempotent(r: AlertRule, t1: int, t2: int)
    ensures EnableRule(EnableRule(r, t1), t2) == EnableRule(r, t2)
    ensures DisableRule(DisableRule(r, t1), t2) == DisableRule(r, t2)
  {
  }

  /** `mark_evaluated`: sets only the evaluation time; `updated_at` is untouched. */
  function MarkEvaluated(r: AlertRule, now: int): (r': AlertRule)
    ensures r'.lastEvaluatedAt == Some(now)
    ensures r'.(lastEvaluatedAt := r.lastEvaluatedAt) == r
  {
    r.(lastEvaluatedAt := Some(now))
  }

  /** `mark_triggered`: sets only the trigger time; `updated_at` is untouched. */
  function MarkTriggered(r: AlertRule, now: int): (r': AlertRule)
    ensures r'.lastTriggeredAt == Some(now)
    ensures r'.(lastTriggeredAt := r.lastTriggeredAt) == r
  {
    r.(lastTriggeredAt := Some(now))
  }

  /** `set_channel_ids`: the whole list is replaced. */
  function SetChannelIds(r: AlertRule, channelIds: seq<string>, now: int): (r': AlertRule)
    ensures r'.channelIds == channelIds && r'.updatedAt == now
    ensures r'.(channelIds := r.channelIds, updatedAt := r.updatedAt) == r
  {
    r.(channelIds := channelIds, updatedAt := now)
  }

  /** `AlertRule::evaluate`: the rule's operator applied to the value and the rule's threshold. */
  predicate RuleEvaluate(r: AlertRule, actual: real) {
    Evaluate(r.thresholdOperator, actual, r.thresholdValue)
  }

  // ---------------------------------------------------------------------------
  // alert

  datatype Alert = Alert(
    id: string,
    ruleId: string,
    projectId: string,
    status: AlertStatus,
    triggeredAt: int,
    resolvedAt: Option<int>,
    triggerValue: Option<real>,
    message: Option<string>,
    metadata: Option<Json>)

  /** `Alert::new`: a Firing alert stamped with the current time. */
  function NewAlert(id: string, ruleId: string, projectId: string, triggerValue: real, message: string,
                    metadata: Option<Json>, now: int): (a: Alert)
    ensures IsFiring(a) && a.resolvedAt.None? && a.triggeredAt == now
    ensures a.triggerValue == Some(triggerValue) && a.message == Some(message)
    ensures a.id == id && a.ruleId == ruleId && a.projectId == projectId && a.metadata == metadata
  {
    Alert(id, ruleId, projectId, Firing, now, None, Some(triggerValue), Some(message), metadata)
  }

  /** `is_firing`. */
  predicate IsFiring(a: Alert) {
    a.status == Firing
  }

  /** `resolve`: Resolved with a resolution time; nothing else changes. */
  function Resolve(a: Alert, now: int): (a': Alert)
    ensures !IsFiring(a') && a'.status == Resolved && a'.resolvedAt == Some(now)
    ensures a'.id == a.id && a'.ruleId == a.ruleId && a'.projectId == a.projectId
    ensures a'.triggeredAt == a.triggeredAt && a'.triggerValue == a.triggerValue
    ensures a'.message == a.message && a'.metadata == a.metadata
  {
    a.(status := Resolved, resolvedAt := Some(now))
  }

  // ---------------------------------------------------------------------------
  // channel

  datatype AlertChannel = AlertChannel(
    id: string,
    projectId: string,
    name: string,
    channelType: ChannelType,
    config: Json,
    isEnabled: bool,
    createdAt: int,
    updatedAt: int)
}
