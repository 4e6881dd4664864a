/** The periodic alert rule evaluator: for each enabled rule it counts logs in
    the rule's time window, compares the value with the rule's threshold, and
    then fires a new alert, leaves an open one alone, resolves an open one, or
    does nothing. Firing stores the alert, stamps the rule and produces one
    webhook notification per enabled channel of the rule.

    The log store is a counter over count statements (the clause and binds
    `count` would run); the alert tables are values threaded through each step.
    Repository writes cannot fail here, and nothing is rolled back: a step that
    fails after writing keeps what it wrote. */
module AlertEvaluator {
  import opened Wrappers
  import opened Text
  import opened Json
  import opened LogValues
  import opened LogEntities
  import opened LogSql
  import opened AlertValues
  import opened AlertEntities

  const NanosPerSecond: int := 1_000_000_000

  /** The tables the evaluator touches. `alerts` is in insertion order,
      `channels` in table order, and `projectNames` maps a project id to its name. */
  datatype AlertStore = AlertStore(
    rules: map<string, AlertRule>,
    alerts: seq<Alert>,
    channels: seq<AlertChannel>,
    projectNames: map<string, string>)

  /** The log store as the evaluator sees it: the row count of a count statement. */
  type LogCounter = Statement -> nat

  /** The evaluator's filters have no metadata filters, so no JSON value is
      ever rendered into a bind; this renderer stands in for serde_json. */
  function NoRender(v: Json): string { "" }

  function CountLogs(counter: LogCounter, projectId: string, f: LogFilters): nat {
    counter(CountStatement(projectId, f, NoRender))
  }

  /** The logs received since `start`: only a lower time bound. */
  function WindowFilters(start: int): LogFilters {
    NoFilters.(startTime := Some(start))
  }

  /** The string elements of the array under `key` of the rule configuration,
      or nothing when the key is absent or not an array. */
  function ConfigStrings(config: Json, key: string): Option<seq<string>> {
    match Get(config, key)
    case None => None
    case Some(v) => match AsArray(v)
      case None => None
      case Some(items) => Some(StringElements(items))
  }

  function ConfigString(config: Json, key: string): Option<string> {
    match Get(config, key)
    case None => None
    case Some(v) => AsStr(v)
  }

  const DefaultErrorLevels: seq<string> := ["error", "fatal"]

  /** What one evaluation measured and whether the threshold condition holds. */
  datatype Reading = Reading(value: real, trigger: bool)

  /** `compare_threshold`. */
  function CompareThreshold(value: real, threshold: real, o: ThresholdOperator): bool {
    match o
    case GreaterThan => value > threshold
    case GreaterThanOrEqual => value >= threshold
    case LessThan => value < threshold
    case LessThanOrEqual => value <= threshold
  }

  /** The evaluator's comparison is the rule's own `evaluate`. */
  lemma CompareThresholdIsEvaluate(rule: AlertRule, value: real)
    ensures CompareThreshold(value, rule.thresholdValue, rule.thresholdOperator) == RuleEvaluate(rule, value)
    ensures forall o: ThresholdOperator, t: real :: CompareThreshold(value, t, o) == Evaluate(o, value, t)
  {
  }

  function ErrorLevelNames(config: Json): seq<string> {
    ConfigStrings(config, "levels").GetOr(DefaultErrorLevels)
  }

  /** The filters of the error count: the window and the configured levels that parse. */
  function ErrorFilters(rule: AlertRule, start: int): LogFilters {
    WindowFilters(start).(levels := Some(ParsedLevels(ErrorLevelNames(rule.config))))
  }

  /** `evaluate_error_rate`, as written: no logs in the window reads as 0 and
      never triggers; otherwise the rate is errors / total · 100. */
  function ErrorRateReadingAsWritten(rule: AlertRule, start: int, counter: LogCounter): Reading {
    var total := CountLogs(counter, rule.projectId, WindowFilters(start));
    if total == 0 then Reading(0.0, false)
    else
      var errors := CountLogs(counter, rule.projectId, ErrorFilters(rule, start));
      var rate := (errors as real / total as real) * 100.0;
      Reading(rate, CompareThreshold(rate, rule.thresholdValue, rule.thresholdOperator))
  }

  /** The error rate with no level to count: when none of the configured levels
      parses, the rate is 0 rather than the share of all logs. */
  function ErrorRateReading(rule: AlertRule, start: int, counter: LogCounter): (r: Reading)
    ensures ParsedLevels(ErrorLevelNames(rule.config)) != [] ==> r == ErrorRateReadingAsWritten(rule, start, counter)
  {
    var total := CountLogs(counter, rule.projectId, WindowFilters(start));
    if total > 0 && ParsedLevels(ErrorLevelNames(rule.config)) == [] then
      Reading(0.0, CompareThreshold(0.0, rule.thresholdValue, rule.thresholdOperator))
    else ErrorRateReadingAsWritten(rule, start, counter)
  }

  /** `evaluate_log_count`: the configured levels that parse (no level filter
      when "levels" is absent) and the configured source. */
  function LogCountFilters(rule: AlertRule, start: int): LogFilters {
    var levels := match ConfigStrings(rule.config, "levels")
      case None => None
      case Some(names) => Some(ParsedLevels(names));
    WindowFilters(start).(levels := levels, source := ConfigString(rule.config, "source"))
  }

  function LogCountReading(rule: AlertRule, start: int, counter: LogCounter): Reading {
    var count := CountLogs(counter, rule.projectId, LogCountFilters(rule, start)) as real;
    Reading(count, CompareThreshold(count, rule.thresholdValue, rule.thresholdOperator))
  }

  /** `evaluate_pattern_match`: an absent or empty pattern reads as 0 and never
      triggers; otherwise the logs whose message contains the pattern are counted. */
  function PatternReading(rule: AlertRule, start: int, counter: LogCounter): Reading {
    var pattern := ConfigString(rule.config, "pattern").GetOr("");
    if pattern == "" then Reading(0.0, false)
    else
      var count := CountLogs(counter, rule.projectId, WindowFilters(start).(search := Some(pattern))) as real;
      Reading(count, CompareThreshold(count, rule.thresholdValue, rule.thresholdOperator))
  }

  /** The start of the rule's window: `now` minus the window length. */
  function WindowStart(rule: AlertRule, now: int): int {
    now - rule.timeWindowSeconds * NanosPerSecond
  }

  function ReadingAsWritten(rule: AlertRule, now: int, counter: LogCounter): Reading {
    var start := WindowStart(rule, now);
    match rule.ruleType
    case ErrorRate => ErrorRateReadingAsWritten(rule, start, counter)
    case LogCount => LogCountReading(rule, start, counter)
    case PatternMatch => PatternReading(rule, start, counter)
  }

  function RuleReading(rule: AlertRule, now: int, counter: LogCounter): Reading {
    var start := WindowStart(rule, now);
    match rule.ruleType
    case ErrorRate => ErrorRateReading(rule, start, counter)
    case LogCount => LogCountReading(rule, start, counter)
    case PatternMatch => PatternReading(rule, start, counter)
  }

  /** The error rate, whichever counter the log store is: a window without
      logs reads as 0 and never triggers; otherwise, with some level to count,
      the rate is the error count's share of the total in percent, and it
      triggers only when the rule's threshold test holds on it. */
  lemma ErrorRateSpec(rule: AlertRule, start: int, counter: LogCounter)
    ensures var total := CountLogs(counter, rule.projectId, WindowFilters(start));
      var r := ErrorRateReading(rule, start, counter);
      (total == 0 ==> r == Reading(0.0, false))
      && (total > 0 && ParsedLevels(ErrorLevelNames(rule.config)) != [] ==>
            r.value * (total as real) == (CountLogs(counter, rule.projectId, ErrorFilters(rule, start)) as real) * 100.0)
      && (r.trigger ==> RuleEvaluate(rule, r.value))
  {
    var total := CountLogs(counter, rule.projectId, WindowFilters(start));
    if total > 0 && ParsedLevels(ErrorLevelNames(rule.config)) != [] {
      ErrorRateIsShare(rule, start, counter);
    }
    ErrorRateTrigger(rule, start, counter);
  }

  lemma ErrorRateIsShare(rule: AlertRule, start: int, counter: LogCounter)
    requires CountLogs(counter, rule.projectId, WindowFilters(start)) > 0
    requires ParsedLevels(ErrorLevelNames(rule.config)) != []
    ensures ErrorRateReading(rule, start, counter).value * (CountLogs(counter, rule.projectId, WindowFilters(start)) as real)
      == (CountLogs(counter, rule.projectId, ErrorFilters(rule, start)) as real) * 100.0
  {
    AsWrittenIsShare(rule, start, counter);
  }

  /** The as-written rate over a window with logs is the error share in percent. */
  lemma AsWrittenIsShare(rule: AlertRule, start: int, counter: LogCounter)
    requires CountLogs(counter, rule.projectId, WindowFilters(start)) > 0
    ensures ErrorRateReadingAsWritten(rule, start, counter).value * (CountLogs(counter, rule.projectId, WindowFilters(start)) as real)
      == (CountLogs(counter, rule.projectId, ErrorFilters(rule, start)) as real) * 100.0
  {
    var total := CountLogs(counter, rule.projectId, WindowFilters(start));
    var errors := CountLogs(counter, rule.projectId, ErrorFilters(rule, start));
    ShareTimesWhole(ErrorRateReadingAsWritten(rule, start, counter).value, errors as real, total as real);
  }

  lemma ErrorRateTrigger(rule: AlertRule, start: int, counter: LogCounter)
    ensures ErrorRateReading(rule, start, counter).trigger ==> RuleEvaluate(rule, ErrorRateReading(rule, start, counter).value)
  {
    CompareThresholdIsEvaluate(rule, ErrorRateReading(rule, start, counter).value);
  }

  /** A percentage share times the whole is a hundred times the part. */
  lemma ShareTimesWhole(rate: real, part: real, whole: real)
    requires whole > 0.0 && rate == (part / whole) * 100.0
    ensures rate * whole == part * 100.0
  {
  }

  /** Without a "levels" list the error count counts the levels Error and Fatal. */
  lemma DefaultErrorLevelsAreErrorAndFatal(rule: AlertRule, start: int)
    requires ConfigStrings(rule.config, "levels").None?
    ensures ErrorFilters(rule, start).levels == Some([Error, Fatal])
  {
    assert ErrorLevelNames(rule.config) == ["error", "fatal"];
    LevelRoundTrip(Error);
    LevelRoundTrip(Fatal);
    assert LevelFromStr("error") == Ok(Error) && LevelFromStr("fatal") == Ok(Fatal);
    assert ["error", "fatal"][1..] == ["fatal"] && ["fatal"][1..] == [];
    assert ParsedLevels(["fatal"]) == [Fatal] + ParsedLevels([]);
    assert ParsedLevels(["error", "fatal"]) == [Error] + ParsedLevels(["fatal"]);
    assert ParsedLevels(ErrorLevelNames(rule.config)) == [Error, Fatal];
  }

  /** Log-count and pattern readings: an empty pattern never triggers, and
      otherwise the trigger is the rule's threshold test on the count read. */
  lemma CountReadingsSpec(rule: AlertRule, start: int, counter: LogCounter)
    ensures LogCountReading(rule, start, counter).trigger == RuleEvaluate(rule, LogCountReading(rule, start, counter).value)
    ensures ConfigString(rule.config, "pattern").GetOr("") == "" ==> PatternReading(rule, start, counter) == Reading(0.0, false)
    ensures ConfigString(rule.config, "pattern").GetOr("") != "" ==>
      PatternReading(rule, start, counter).trigger == RuleEvaluate(rule, PatternReading(rule, start, counter).value)
  {
  }

  // ---------------------------------------------------------------------------
  // the alert tables

  /** `find_firing_by_rule`: the most recently stored Firing alert of the rule. */
  function FindFiring(alerts: seq<Alert>, ruleId: string): (r: Option<Alert>)
    ensures r.Some? ==> r.value in alerts && IsFiring(r.value) && r.value.ruleId == ruleId
    ensures r.None? <==> forall k :: 0 <= k < |alerts| ==> !(IsFiring(alerts[k]) && alerts[k].ruleId == ruleId)
    decreases |alerts|
  {
    if |alerts| == 0 then None
    else
      var last := alerts[|alerts| - 1];
      if IsFiring(last) && last.ruleId == ruleId then Some(last)
      else
        var r := FindFiring(alerts[..|alerts| - 1], ruleId);
        assert forall k :: 0 <= k < |alerts| - 1 ==> alerts[k] == alerts[..|alerts| - 1][k];
        r
  }

  /** The alert repository's `update`: every stored alert with the same id is replaced. */
  function ReplaceAlert(alerts: seq<Alert>, a: Alert): (r: seq<Alert>)
    ensures |r| == |alerts|
    ensures forall k :: 0 <= k < |r| ==> r[k] == (if alerts[k].id == a.id then a else alerts[k])
  {
    seq(|alerts|, k requires 0 <= k < |alerts| => if alerts[k].id == a.id then a else alerts[k])
  }

  /** The rule repository's `update`: overwrites the stored rule with that id, if any. */
  function StoreRule(rules: map<string, AlertRule>, r: AlertRule): (rules': map<string, AlertRule>)
    ensures rules'.Keys == rules.Keys
    ensures r.id in rules ==> rules'[r.id] == r
    ensures forall id :: id in rules && id != r.id ==> rules'[id] == rules[id]
  {
    if r.id in rules then rules[r.id := r] else rules
  }

  /** `find_by_ids`: the enabled channels whose id is listed, in table order. */
  function ChannelsByIds(channels: seq<AlertChannel>, ids: seq<string>): (r: seq<AlertChannel>)
    ensures forall c :: c in r <==> c in channels && c.id in ids && c.isEnabled
    decreases |channels|
  {
    if |channels| == 0 then []
    else
      var c := channels[0];
      (if c.id in ids && c.isEnabled then [c] else []) + ChannelsByIds(channels[1..], ids)
  }

  /** At most one Firing alert per rule. */
  predicate AtMostOneFiring(alerts: seq<Alert>) {
    forall i, j :: 0 <= i < j < |alerts| && IsFiring(alerts[i]) && IsFiring(alerts[j]) ==> alerts[i].ruleId != alerts[j].ruleId
  }

  // ---------------------------------------------------------------------------
  // one rule

  datatype WebhookPayload = WebhookPayload(
    alertId: string,
    ruleId: string,
    ruleName: string,
    projectId: string,
    projectName: string,
    status: string,
    triggeredAt: int,
    triggerValue: real,
    threshold: real,
    thresholdOperator: string,
    message: string,
    metadata: Option<Json>)

  /** One webhook send the evaluator asks for: the channel and what it is sent. */
  datatype Notification = Notification(channelId: string, config: Json, payload: WebhookPayload)

  datatype Outcome = Outcome(store: AlertStore, result: Result<(), AlertError>, notifications: seq<Notification>)

  function Notifications(channels: seq<AlertChannel>, payload: WebhookPayload): (ns: seq<Notification>)
    ensures |ns| == |channels|
    ensures forall k :: 0 <= k < |ns| ==> ns[k] == Notification(channels[k].id, channels[k].config, payload)
  {
    seq(|channels|, k requires 0 <= k < |channels| => Notification(channels[k].id, channels[k].config, payload))
  }

  /** The alert message: rule type, value, threshold and operator; `fmt` is the
      two-decimal number formatting. */
  function AlertMessage(rule: AlertRule, value: real, fmt: real -> string): string {
    RuleTypeName(rule.ruleType) + " is " + fmt(value) + ", threshold is " + fmt(rule.thresholdValue)
      + " (" + OperatorName(rule.thresholdOperator) + ")"
  }

  /** `trigger_alert`: looks up the project (failing with ProjectNotFound before
      writing anything), stores a new Firing alert, writes `marked` stamped as
      triggered, and asks for one notification per enabled listed channel. */
  function TriggerAlert(s: AlertStore, rule: AlertRule, marked: AlertRule, value: real, now: int,
                        alertId: string, fmt: real -> string): (out: Outcome)
    ensures rule.projectId !in s.projectNames ==> out == Outcome(s, Err(AlertError.ProjectNotFound), [])
  {
    if rule.projectId !in s.projectNames then Outcome(s, Err(AlertError.ProjectNotFound), [])
    else
      var message := AlertMessage(rule, value, fmt);
      var metadata := JObject(map["rule_type" := JString(RuleTypeName(rule.ruleType)),
                                  "time_window_seconds" := JInt(rule.timeWindowSeconds)]);
      var alert := NewAlert(alertId, rule.id, rule.projectId, value, message, Some(metadata), now);
      var payload := WebhookPayload(alert.id, rule.id, rule.name, rule.projectId, s.projectNames[rule.projectId],
                                    AlertStatusName(alert.status), alert.triggeredAt, value, rule.thresholdValue,
                                    OperatorName(rule.thresholdOperator), message, alert.metadata);
      var s' := s.(alerts := s.alerts + [alert], rules := StoreRule(s.rules, MarkTriggered(marked, now)));
      Outcome(s', Ok(()), Notifications(ChannelsByIds(s.channels, rule.channelIds), payload))
  }

  /** The transition after the reading: the rule is written back as evaluated,
      then an alert is fired, skipped, resolved, or nothing happens. `markFrom`
      is the rule value the trigger path stamps and writes. */
  function Transition(s: AlertStore, rule: AlertRule, reading: Reading, now: int, alertId: string,
                      fmt: real -> string, markFrom: AlertRule): Outcome
  {
    var s1 := s.(rules := StoreRule(s.rules, MarkEvaluated(rule, now)));
    match FindFiring(s1.alerts, rule.id)
    case None =>
      if reading.trigger then TriggerAlert(s1, rule, markFrom, reading.value, now, alertId, fmt)
      else Outcome(s1, Ok(()), [])
    case Some(open) =>
      if reading.trigger then Outcome(s1, Ok(()), [])
      else Outcome(s1.(alerts := ReplaceAlert(s1.alerts, Resolve(open, now))), Ok(()), [])
  }

  /** `evaluate_rule` as written: the trigger path stamps the rule as it was
      read, without the evaluation time written just before. */
  function EvaluateRuleAsWritten(s: AlertStore, rule: AlertRule, now: int, counter: LogCounter,
                                 alertId: string, fmt: real -> string): Outcome {
    Transition(s, rule, ReadingAsWritten(rule, now, counter), now, alertId, fmt, rule)
  }

  /** `evaluate_rule`, with the trigger path stamping the evaluated rule, so
      both timestamps persist. */
  function EvaluateRule(s: AlertStore, rule: AlertRule, now: int, counter: LogCounter,
                        alertId: string, fmt: real -> string): (out: Outcome)
    ensures out.store.rules.Keys == s.rules.Keys && out.store.projectNames == s.projectNames
    ensures out.store.channels == s.channels
    ensures |out.store.alerts| <= |s.alerts| + 1
    ensures out.result.Err? ==> out.result == Err(AlertError.ProjectNotFound) && out.store.alerts == s.alerts
                                && out.notifications == [] && rule.projectId !in s.projectNames
    ensures |out.notifications| > 0 ==> out.result.Ok? && |out.store.alerts| == |s.alerts| + 1
  {
    Transition(s, rule, RuleReading(rule, now, counter), now, alertId, fmt, MarkEvaluated(rule, now))
  }

  /** Condition true and no open alert: exactly one new Firing alert for the
      rule is stored, stamped `now` with the value read, and every enabled
      listed channel gets the same payload; a missing project fails with
      ProjectNotFound and stores no alert. */
  lemma FiresWhenConditionHoldsAndNoneOpen(s: AlertStore, rule: AlertRule, now: int, counter: LogCounter,
                                           alertId: string, fmt: real -> string)
    requires RuleReading(rule, now, counter).trigger
    requires FindFiring(s.alerts, rule.id).None?
    ensures var out := EvaluateRule(s, rule, now, counter, alertId, fmt);
      if rule.projectId in s.projectNames then
        out.result.Ok? && |out.store.alerts| == |s.alerts| + 1 && out.store.alerts[..|s.alerts|] == s.alerts
        && var a := out.store.alerts[|s.alerts|];
           IsFiring(a) && a.ruleId == rule.id && a.id == alertId && a.triggeredAt == now
           && a.triggerValue == Some(RuleReading(rule, now, counter).value)
           && |out.notifications| == |ChannelsByIds(s.channels, rule.channelIds)|
           && (forall k :: 0 <= k < |out.notifications| ==>
                 (out.notifications[k].payload.alertId == alertId
                  && out.notifications[k].channelId == ChannelsByIds(s.channels, rule.channelIds)[k].id))
      else
        out.result == Err(AlertError.ProjectNotFound) && out.store.alerts == s.alerts && out.notifications == []
  {
    var out := EvaluateRule(s, rule, now, counter, alertId, fmt);
    if rule.projectId in s.projectNames {
      assert (s.alerts + [out.store.alerts[|s.alerts|]])[..|s.alerts|] == s.alerts;
    }
  }

  /** Condition true with an alert already open: nothing is stored, nobody is notified. */
  lemma SkipsWhenAlreadyFiring(s: AlertStore, rule: AlertRule, now: int, counter: LogCounter,
                               alertId: string, fmt: real -> string)
    requires RuleReading(rule, now, counter).trigger
    requires FindFiring(s.alerts, rule.id).Some?
    ensures var out := EvaluateRule(s, rule, now, counter, alertId, fmt);
      out.result.Ok? && out.store.alerts == s.alerts && out.notifications == []
  {
  }

  /** Condition false: an open alert of the rule is resolved at `now`, with no
      notification, and afterwards the rule has no Firing alert; with none
      open, the alerts are untouched. */
  lemma ResolvesWhenConditionClears(s: AlertStore, rule: AlertRule, now: int, counter: LogCounter,
                                    alertId: string, fmt: real -> string)
    requires !RuleReading(rule, now, counter).trigger
    requires AtMostOneFiring(s.alerts)
    ensures var out := EvaluateRule(s, rule, now, counter, alertId, fmt);
      out.result.Ok? && out.notifications == []
      && FindFiring(out.store.alerts, rule.id).None?
      && (FindFiring(s.alerts, rule.id).None? ==> out.store.alerts == s.alerts)
      && (FindFiring(s.alerts, rule.id).Some? ==>
            out.store.alerts == ReplaceAlert(s.alerts, Resolve(FindFiring(s.alerts, rule.id).value, now)))
  {
    var out := EvaluateRule(s, rule, now, counter, alertId, fmt);
    match FindFiring(s.alerts, rule.id)
    case None =>
    case Some(open) =>
      var k :| 0 <= k < |s.alerts| && s.alerts[k] == open;
      forall i | 0 <= i < |out.store.alerts|
        ensures !(IsFiring(out.store.alerts[i]) && out.store.alerts[i].ruleId == rule.id)
      {
        if IsFiring(s.alerts[i]) && s.alerts[i].ruleId == rule.id {
          OnlyFiringOfRule(s.alerts, rule.id, i, k);
        }
      }
  }

  /** Two Firing alerts of the same rule are one and the same entry. */
  lemma OnlyFiringOfRule(alerts: seq<Alert>, ruleId: string, i: nat, k: nat)
    requires AtMostOneFiring(alerts)
    requires i < |alerts| && IsFiring(alerts[i]) && alerts[i].ruleId == ruleId
    requires k < |alerts| && IsFiring(alerts[k]) && alerts[k].ruleId == ruleId
    ensures i == k
  {
  }

  /** Every step writes the evaluation time, and a firing step also the trigger
      time, into the stored rule; other rules are untouched. */
  lemma EvaluateRuleStampsTheRule(s: AlertStore, rule: AlertRule, now: int, counter: LogCounter,
                                  alertId: string, fmt: real -> string)
    requires rule.id in s.rules
    ensures var out := EvaluateRule(s, rule, now, counter, alertId, fmt);
      rule.id in out.store.rules && out.store.rules[rule.id].lastEvaluatedAt == Some(now)
      && (|out.store.alerts| > |s.alerts| ==> out.store.rules[rule.id].lastTriggeredAt == Some(now))
      && out.store.rules.Keys == s.rules.Keys
      && (forall id :: id in s.rules && id != rule.id ==> out.store.rules[id] == s.rules[id])
  {
    TransitionStampsTheRule(s, rule, RuleReading(rule, now, counter), now, alertId, fmt);
  }

  /** The stamps hold whatever the reading: they come from the transition. */
  lemma TransitionStampsTheRule(s: AlertStore, rule: AlertRule, reading: Reading, now: int,
                                alertId: string, fmt: real -> string)
    requires rule.id in s.rules
    ensures var out := Transition(s, rule, reading, now, alertId, fmt, MarkEvaluated(rule, now));
      rule.id in out.store.rules && out.store.rules[rule.id].lastEvaluatedAt == Some(now)
      && (|out.store.alerts| > |s.alerts| ==> out.store.rules[rule.id].lastTriggeredAt == Some(now))
      && out.store.rules.Keys == s.rules.Keys
      && (forall id :: id in s.rules && id != rule.id ==> out.store.rules[id] == s.rules[id])
  {
  }

  /** The lost update, as written: on the trigger path the second write of the
      rule starts from the rule as read, so the stored evaluation time falls
      back to its earlier value. */
  lemma TriggerLosesEvaluationTime(s: AlertStore, rule: AlertRule, now: int, counter: LogCounter,
                                   alertId: string, fmt: real -> string)
    requires rule.id in s.rules && rule.projectId in s.projectNames
    requires ReadingAsWritten(rule, now, counter).trigger
    requires FindFiring(s.alerts, rule.id).None?
    ensures var out := EvaluateRuleAsWritten(s, rule, now, counter, alertId, fmt);
      out.store.rules[rule.id].lastEvaluatedAt == rule.lastEvaluatedAt
      && out.store.rules[rule.id].lastTriggeredAt == Some(now)
  {
  }

  /** A concrete instance: a log-count rule `gt 10`, never evaluated before,
      fires on a count of 15 and afterwards reads as never evaluated. */
  lemma TriggerLosesEvaluationTimeExample()
    ensures var rule := ExampleRule();
      var out := EvaluateRuleAsWritten(ExampleStore(), rule, 2, ConstantCounter(15), "a1", NoFormat);
      |out.store.alerts| == 1 && out.store.rules[rule.id].lastEvaluatedAt.None?
  {
    var rule := ExampleRule();
    TriggerLosesEvaluationTime(ExampleStore(), rule, 2, ConstantCounter(15), "a1", NoFormat);
  }

  /** Each step keeps at most one Firing alert per rule. */
  lemma EvaluateRulePreservesAtMostOneFiring(s: AlertStore, rule: AlertRule, now: int, counter: LogCounter,
                                             alertId: string, fmt: real -> string)
    requires AtMostOneFiring(s.alerts)
    ensures AtMostOneFiring(EvaluateRule(s, rule, now, counter, alertId, fmt).store.alerts)
  {
    var out := EvaluateRule(s, rule, now, counter, alertId, fmt);
    var reading := RuleReading(rule, now, counter);
    match FindFiring(s.alerts, rule.id)
    case None =>
      if reading.trigger && rule.projectId in s.projectNames {
        var alerts := out.store.alerts;
        assert alerts[..|s.alerts|] == s.alerts;
        forall i, j | 0 <= i < j < |alerts| && IsFiring(alerts[i]) && IsFiring(alerts[j])
          ensures alerts[i].ruleId != alerts[j].ruleId
        {
          if j == |s.alerts| {
            assert alerts[i] == s.alerts[i];
          } else {
            assert alerts[i] == s.alerts[i] && alerts[j] == s.alerts[j];
          }
        }
      }
    case Some(open) =>
      if !reading.trigger {
        var alerts := out.store.alerts;
        forall i, j | 0 <= i < j < |alerts| && IsFiring(alerts[i]) && IsFiring(alerts[j])
          ensures alerts[i].ruleId != alerts[j].ruleId
        {
          assert alerts[i] == s.alerts[i] && alerts[j] == s.alerts[j];
        }
      }
  }

  // ---------------------------------------------------------------------------
  // a pass over all enabled rules

  datatype PassOutcome = PassOutcome(store: AlertStore, failed: seq<string>, notifications: seq<Notification>)

  /** `evaluate_all_rules` over the enabled rules from index `k` on: a failing
      rule is recorded and the pass continues with the next one. The k-th rule
      is evaluated at `clock(k)` and would fire with alert id `newId(k)`. */
  function EvaluateAll(s: AlertStore, rules: seq<AlertRule>, k: nat, clock: nat -> int, counter: LogCounter,
                       newId: nat -> string, fmt: real -> string): (r: PassOutcome)
    ensures forall id :: id in r.failed ==> exists i :: k <= i < |rules| && rules[i].id == id
    decreases |rules| - k
  {
    if k >= |rules| then PassOutcome(s, [], [])
    else
      var out := EvaluateRule(s, rules[k], clock(k), counter, newId(k), fmt);
      var rest := EvaluateAll(out.store, rules, k + 1, clock, counter, newId, fmt);
      PassOutcome(rest.store, (if out.result.Err? then [rules[k].id] else []) + rest.failed,
                  out.notifications + rest.notifications)
  }

  /** Evaluating the rule at index `i` of the pass on the store `st`. */
  function StepOf(rules: seq<AlertRule>, clock: nat -> int, counter: LogCounter, newId: nat -> string,
                  fmt: real -> string): (AlertStore, nat) -> Outcome {
    (st: AlertStore, i: nat) =>
      if i < |rules| then EvaluateRule(st, rules[i], clock(i), counter, newId(i), fmt) else Outcome(st, Ok(()), [])
  }

  /** The pass as a left fold, the reference the recursion is checked against:
      the outcome after the rules from `k` up to (not including) `j` have been
      stepped through, each on the store the previous one left. */
  function FoldUpTo(s: AlertStore, rules: seq<AlertRule>, k: nat, j: nat, step: (AlertStore, nat) -> Outcome): PassOutcome
    requires k <= j <= |rules|
    decreases j - k
  {
    if j == k then PassOutcome(s, [], [])
    else
      var p := FoldUpTo(s, rules, k, j - 1, step);
      var out := step(p.store, j - 1);
      PassOutcome(out.store, p.failed + (if out.result.Err? then [rules[j - 1].id] else []),
                  p.notifications + out.notifications)
  }

  /** Taking the first step, then folding over the rest, is the fold. */
  lemma {:induction false} FoldShift(s: AlertStore, rules: seq<AlertRule>, k: nat, j: nat, step: (AlertStore, nat) -> Outcome)
    requires k < j <= |rules|
    ensures var out := step(s, k);
      var p := FoldUpTo(s, rules, k, j, step);
      var q := FoldUpTo(out.store, rules, k + 1, j, step);
      && p.store == q.store
      && p.failed == (if out.result.Err? then [rules[k].id] else []) + q.failed
      && p.notifications == out.notifications + q.notifications
    decreases j - k
  {
    if j > k + 1 {
      FoldShift(s, rules, k, j - 1, step);
      var out := step(s, k);
      var q := FoldUpTo(out.store, rules, k + 1, j - 1, step);
      var last := step(q.store, j - 1);
      var head := if out.result.Err? then [rules[k].id] else [];
      var tail := if last.result.Err? then [rules[j - 1].id] else [];
      assert (head + q.failed) + tail == head + (q.failed + tail);
      assert (out.notifications + q.notifications) + last.notifications
          == out.notifications + (q.notifications + last.notifications);
    }
  }

  /** `evaluate_all_rules` evaluates the rules strictly in order, each on the
      store the one before left, and a failing rule is recorded without ending
      the pass: the recursion equals the left fold over every rule. */
  lemma {:induction false} EvaluateAllIsLeftFold(s: AlertStore, rules: seq<AlertRule>, k: nat, clock: nat -> int,
                                                 counter: LogCounter, newId: nat -> string, fmt: real -> string)
    requires k <= |rules|
    ensures EvaluateAll(s, rules, k, clock, counter, newId, fmt)
         == FoldUpTo(s, rules, k, |rules|, StepOf(rules, clock, counter, newId, fmt))
    decreases |rules| - k
  {
    if k < |rules| {
      var step := StepOf(rules, clock, counter, newId, fmt);
      var out := EvaluateRule(s, rules[k], clock(k), counter, newId(k), fmt);
      assert step(s, k) == out;
      EvaluateAllIsLeftFold(out.store, rules, k + 1, clock, counter, newId, fmt);
      FoldShift(s, rules, k, |rules|, step);
    }
  }

  /** The rule ids a fold reports as failed are exactly those whose own step,
      on the store the earlier steps left, failed. */
  lemma {:induction false} FoldFailedExactly(s: AlertStore, rules: seq<AlertRule>, k: nat, j: nat,
                                             step: (AlertStore, nat) -> Outcome)
    requires k <= j <= |rules|
    ensures forall id :: id in FoldUpTo(s, rules, k, j, step).failed <==>
      exists i :: k <= i < j && rules[i].id == id && step(FoldUpTo(s, rules, k, i, step).store, i).result.Err?
    decreases j - k
  {
    if j > k {
      FoldFailedExactly(s, rules, k, j - 1, step);
    }
  }

  /** A pass reports a rule as failed exactly when evaluating that rule, on
      the store the rules before it left, failed. */
  lemma PassReportsExactlyTheFailures(s: AlertStore, rules: seq<AlertRule>, clock: nat -> int, counter: LogCounter,
                                      newId: nat -> string, fmt: real -> string)
    ensures var step := StepOf(rules, clock, counter, newId, fmt);
      forall id :: id in EvaluateAll(s, rules, 0, clock, counter, newId, fmt).failed <==>
        exists i :: 0 <= i < |rules| && rules[i].id == id
          && EvaluateRule(FoldUpTo(s, rules, 0, i, step).store, rules[i], clock(i), counter, newId(i), fmt).result.Err?
  {
    var step := StepOf(rules, clock, counter, newId, fmt);
    EvaluateAllIsLeftFold(s, rules, 0, clock, counter, newId, fmt);
    FoldFailedExactly(s, rules, 0, |rules|, step);
    forall i | 0 <= i < |rules|
      ensures step(FoldUpTo(s, rules, 0, i, step).store, i)
           == EvaluateRule(FoldUpTo(s, rules, 0, i, step).store, rules[i], clock(i), counter, newId(i), fmt)
    {
    }
  }

  /** A whole pass keeps at most one Firing alert per rule. */
  lemma {:induction false} EvaluateAllPreservesAtMostOneFiring(s: AlertStore, rules: seq<AlertRule>, k: nat, clock: nat -> int,
                                                             counter: LogCounter, newId: nat -> string, fmt: real -> string)
    requires AtMostOneFiring(s.alerts)
    ensures AtMostOneFiring(EvaluateAll(s, rules, k, clock, counter, newId, fmt).store.alerts)
    decreases |rules| - k
  {
    if k < |rules| {
      var out := EvaluateRule(s, rules[k], clock(k), counter, newId(k), fmt);
      EvaluateRulePreservesAtMostOneFiring(s, rules[k], clock(k), counter, newId(k), fmt);
      EvaluateAllPreservesAtMostOneFiring(out.store, rules, k + 1, clock, counter, newId, fmt);
    }
  }

  /** `Notifier::send` on each channel in turn: a failed send is recorded and
      the remaining channels are still tried. */
  method SendAll(notes: seq<Notification>, send: (WebhookPayload, Json) -> bool) returns (delivered: seq<bool>)
    ensures |delivered| == |notes|
    ensures forall k :: 0 <= k < |notes| ==> delivered[k] == send(notes[k].payload, notes[k].config)
  {
    delivered := [];
    var k := 0;
    while k < |notes|
      invariant 0 <= k <= |notes| && |delivered| == k
      invariant forall i :: 0 <= i < k ==> delivered[i] == send(notes[i].payload, notes[i].config)
    {
      delivered := delivered + [send(notes[k].payload, notes[k].config)];
      k := k + 1;
    }
  }

  // ---------------------------------------------------------------------------
  // worked example

  function NoFormat(v: real): string { "" }

  function ConstantCounter(n: nat): LogCounter {
    st => n
  }

  function ExampleRule(): AlertRule {
    NewAlertRule("r1", "p1", "too many logs", None, LogCount, JObject(map[]), 10.0, GreaterThan, 60, "u1", 0)
  }

  function ExampleStore(): AlertStore {
    AlertStore(map["r1" := ExampleRule()], [], [], map["p1" := "project"])
  }

  /** Counts 5, 15, 15, 3 against `gt 10` at times 1..4: one alert, fired at
      the second evaluation, left alone at the third and resolved at the fourth. */
  lemma FireSkipResolveExample()
    ensures var rule := ExampleRule();
      var s1 := EvaluateRule(ExampleStore(), rule, 1, ConstantCounter(5), "a1", NoFormat).store;
      var s2 := EvaluateRule(s1, rule, 2, ConstantCounter(15), "a2", NoFormat).store;
      var s3 := EvaluateRule(s2, rule, 3, ConstantCounter(15), "a3", NoFormat).store;
      var s4 := EvaluateRule(s3, rule, 4, ConstantCounter(3), "a4", NoFormat).store;
      s1.alerts == [] && |s2.alerts| == 1 && IsFiring(s2.alerts[0]) && s2.alerts[0].id == "a2"
      && s3.alerts == s2.alerts
      && |s4.alerts| == 1 && s4.alerts[0].id == "a2" && !IsFiring(s4.alerts[0])
      && s4.alerts[0].triggeredAt == 2 && s4.alerts[0].resolvedAt == Some(4)
  {
    var rule := ExampleRule();
    var s0 := ExampleStore();
    ExampleReading(1, 5);
    ResolvesWhenConditionClears(s0, rule, 1, ConstantCounter(5), "a1", NoFormat);
    var s1 := EvaluateRule(s0, rule, 1, ConstantCounter(5), "a1", NoFormat).store;
    assert s1.projectNames == s0.projectNames;
    ExampleReading(2, 15);
    FiresWhenConditionHoldsAndNoneOpen(s1, rule, 2, ConstantCounter(15), "a2", NoFormat);
    var s2 := EvaluateRule(s1, rule, 2, ConstantCounter(15), "a2", NoFormat).store;
    assert FindFiring(s2.alerts, rule.id).Some? by {
      assert IsFiring(s2.alerts[0]) && s2.alerts[0].ruleId == rule.id;
    }
    ExampleReading(3, 15);
    SkipsWhenAlreadyFiring(s2, rule, 3, ConstantCounter(15), "a3", NoFormat);
    var s3 := EvaluateRule(s2, rule, 3, ConstantCounter(15), "a3", NoFormat).store;
    ExampleReading(4, 3);
    ResolvesWhenConditionClears(s3, rule, 4, ConstantCounter(3), "a4", NoFormat);
  }

  /** What the example rule reads at time `now` from a store holding `n` logs. */
  lemma ExampleReading(now: int, n: nat)
    ensures RuleReading(ExampleRule(), now, ConstantCounter(n)) == Reading(n as real, n as real > 10.0)
  {
  }

  // ---------------------------------------------------------------------------
  // the error rate when no configured level parses

  /** As written: with a "levels" list none of whose entries parses, the error
      count runs the very statement of the total count, so any window with logs
      reads as a 100% error rate. */
  lemma UnparsableLevelsReadAsAllErrors(rule: AlertRule, start: int, counter: LogCounter)
    requires ConfigStrings(rule.config, "levels").Some?
    requires forall k :: 0 <= k < |ErrorLevelNames(rule.config)| ==> LevelFromStr(ErrorLevelNames(rule.config)[k]).Err?
    requires CountLogs(counter, rule.projectId, WindowFilters(start)) > 0
    ensures ErrorRateReadingAsWritten(rule, start, counter).value == 100.0
  {
    var total := CountLogs(counter, rule.projectId, WindowFilters(start));
    assert ParsedLevels(ErrorLevelNames(rule.config)) == [];
    EmptyLevelsCountAll(rule, start, counter);
    WholeShare(total as real);
  }

  /** With no level to count, the error statement is the total statement. */
  lemma EmptyLevelsCountAll(rule: AlertRule, start: int, counter: LogCounter)
    requires ParsedLevels(ErrorLevelNames(rule.config)) == []
    ensures CountLogs(counter, rule.projectId, ErrorFilters(rule, start)) == CountLogs(counter, rule.projectId, WindowFilters(start))
  {
    EmptyLevelsFilterNothing(ErrorFilters(rule, start), rule.projectId, NoRender);
    assert ErrorFilters(rule, start).(levels := None) == WindowFilters(start);
  }

  /** The whole's share of itself is a hundred percent. */
  lemma WholeShare(whole: real)
    requires whole > 0.0
    ensures (whole / whole) * 100.0 == 100.0
  {
  }

  /** The configuration `{"levels": ["bogus"]}` with one log in the window. */
  lemma UnparsableLevelsExample()
    ensures var rule := ExampleRule().(ruleType := ErrorRate, config := JObject(map["levels" := JArray([JString("bogus")])]));
      ErrorRateReadingAsWritten(rule, 0, ConstantCounter(1)).value == 100.0
      && ErrorRateReading(rule, 0, ConstantCounter(1)).value == 0.0
  {
    var rule := ExampleRule().(ruleType := ErrorRate, config := JObject(map["levels" := JArray([JString("bogus")])]));
    assert ErrorLevelNames(rule.config) == ["bogus"];
    assert LevelFromStr("bogus").Err? by {
      assert ToLower("bogus") == "bogus";
    }
    UnparsableLevelsReadAsAllErrors(rule, 0, ConstantCounter(1));
  }

  /** Corrected: the error count only ever counts logs of configured levels.
      When none parses the rate is 0; otherwise the error statement binds
      exactly the parsed levels' names. */
  lemma ErrorRateCountsOnlyConfiguredLevels(rule: AlertRule, start: int, counter: LogCounter)
    ensures ParsedLevels(ErrorLevelNames(rule.config)) == [] ==> ErrorRateReading(rule, start, counter).value == 0.0
    ensures var levels := ParsedLevels(ErrorLevelNames(rule.config));
      |LevelBinds(ErrorFilters(rule, start).levels)| == |levels|
      && forall i :: 0 <= i < |levels| ==> LevelBinds(ErrorFilters(rule, start).levels)[i].value == TextValue(LevelName(levels[i]))
  {
  }
}
