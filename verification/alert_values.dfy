/** Value objects of the alerting module: rule types, threshold operators with
    their truth table, channel types and alert statuses, each with its
    case-insensitive parser and its printed name. */
module AlertValues {
  import opened Wrappers
  import opened Text

  /** The failures of the alerting module; a rejected string travels with its error. */
  datatype AlertError =
    | InvalidRuleName
    | InvalidRuleType(input: string)
    | InvalidThresholdOperator(input: string)
    | InvalidChannelName
    | InvalidChannelType(input: string)
    | InvalidChannelConfig
    | InvalidWebhookUrl
    | ValidationError
    | ProjectNotFound
    | ProjectDeleted
    | NotOrgMember
    | NotAuthorized
    | RuleNotFound
    | ChannelNotFound
    | AlertNotFound
    | RuleNameExists(name: string)
    | ChannelNameExists(name: string)
    | AlertAlreadyResolved
    | WebhookFailed
    | InternalError

  // ---------------------------------------------------------------------------
  // rule type

  datatype RuleType = ErrorRate | LogCount | PatternMatch

  function RuleTypeName(t: RuleType): string {
    match t
    case ErrorRate => "error_rate"
    case LogCount => "log_count"
    case PatternMatch => "pattern_match"
  }

  /** `RuleType::from_str`: case-insensitive over exactly the three names. */
  function RuleTypeFromStr(s: string): (r: Result<RuleType, AlertError>)
    ensures r.Ok? ==> ToLower(s) == RuleTypeName(r.value)
    ensures r.Err? ==> r.error == InvalidRuleType(s)
  {
    var lower := ToLower(s);
    if lower == "error_rate" then Ok(ErrorRate)
    else if lower == "log_count" then Ok(LogCount)
    else if lower == "pattern_match" then Ok(PatternMatch)
    else Err(InvalidRuleType(s))
  }

  /** A string parses exactly when its lower-cased form is one of the names, and
      printing then parsing, in either case, is the identity. */
  lemma RuleTypeRoundTrip(t: RuleType, s: string)
    ensures RuleTypeFromStr(RuleTypeName(t)) == Ok(t)
    ensures RuleTypeFromStr(ToUpper(RuleTypeName(t))) == Ok(t)
    ensures RuleTypeFromStr(s).Ok? <==> exists u :: ToLower(s) == RuleTypeName(u)
  {
    LowerOfLowerKeyword(RuleTypeName(t));
    if RuleTypeFromStr(s).Ok? {
      assert ToLower(s) == RuleTypeName(RuleTypeFromStr(s).value);
    }
  }

  // ---------------------------------------------------------------------------
  // threshold operator

  datatype ThresholdOperator = GreaterThan | GreaterThanOrEqual | LessThan | LessThanOrEqual

  function OperatorName(o: ThresholdOperator): string {
    match o
    case GreaterThan => "gt"
    case GreaterThanOrEqual => "gte"
    case LessThan => "lt"
    case LessThanOrEqual => "lte"
  }

  function OperatorSymbol(o: ThresholdOperator): string {
    match o
    case GreaterThan => ">"
    case GreaterThanOrEqual => ">="
    case LessThan => "<"
    case LessThanOrEqual => "<="
  }

  /** `ThresholdOperator::from_str`: the word or the symbol, case-insensitively. */
  function ThresholdOperatorFromStr(s: string): (r: Result<ThresholdOperator, AlertError>)
    ensures r.Ok? ==> ToLower(s) == OperatorName(r.value) || ToLower(s) == OperatorSymbol(r.value)
    ensures r.Err? ==> r.error == InvalidThresholdOperator(s)
  {
    var lower := ToLower(s);
    if lower == "gt" || lower == ">" then Ok(GreaterThan)
    else if lower == "gte" || lower == ">=" then Ok(GreaterThanOrEqual)
    else if lower == "lt" || lower == "<" then Ok(LessThan)
    else if lower == "lte" || lower == "<=" then Ok(LessThanOrEqual)
    else Err(InvalidThresholdOperator(s))
  }

  lemma ThresholdOperatorRoundTrip(o: ThresholdOperator, s: string)
    ensures ThresholdOperatorFromStr(OperatorName(o)) == Ok(o)
    ensures ThresholdOperatorFromStr(ToUpper(OperatorName(o))) == Ok(o)
    ensures ThresholdOperatorFromStr(OperatorSymbol(o)) == Ok(o)
    ensures ThresholdOperatorFromStr(s).Ok? <==> exists u :: ToLower(s) == OperatorName(u) || ToLower(s) == OperatorSymbol(u)
  {
    SpellingsParse(o);
    ParsedIffSpelled(s);
  }

  lemma SpellingsParse(o: ThresholdOperator)
    ensures ThresholdOperatorFromStr(OperatorName(o)) == Ok(o)
    ensures ThresholdOperatorFromStr(ToUpper(OperatorName(o))) == Ok(o)
    ensures ThresholdOperatorFromStr(OperatorSymbol(o)) == Ok(o)
  {
    LowerOfLowerKeyword(OperatorName(o));
    LowerOfLowerKeyword(OperatorSymbol(o));
  }

  lemma ParsedIffSpelled(s: string)
    ensures ThresholdOperatorFromStr(s).Ok? <==> exists u :: ToLower(s) == OperatorName(u) || ToLower(s) == OperatorSymbol(u)
  {
    if ThresholdOperatorFromStr(s).Ok? {
      var u := ThresholdOperatorFromStr(s).value;
      assert ToLower(s) == OperatorName(u) || ToLower(s) == OperatorSymbol(u);
    }
  }

  /** `ThresholdOperator::evaluate(actual, threshold)`. */
  predicate Evaluate(o: ThresholdOperator, actual: real, threshold: real) {
    match o
    case GreaterThan => actual > threshold
    case GreaterThanOrEqual => actual >= threshold
    case LessThan => actual < threshold
    case LessThanOrEqual => actual <= threshold
  }

  /** The four operators split into two complementary pairs, and the strict ones
      are the non-strict ones minus equality: on reals, gt is the negation of
      lte and gte the negation of lt. */
  lemma OperatorsAreComplementary(actual: real, threshold: real)
    ensures Evaluate(GreaterThan, actual, threshold) == !Evaluate(LessThanOrEqual, actual, threshold)
    ensures Evaluate(GreaterThanOrEqual, actual, threshold) == !Evaluate(LessThan, actual, threshold)
    ensures Evaluate(GreaterThanOrEqual, actual, threshold) == (Evaluate(GreaterThan, actual, threshold) || actual == threshold)
    ensures Evaluate(LessThanOrEqual, actual, threshold) == (Evaluate(LessThan, actual, threshold) || actual == threshold)
  {
  }

  // ---------------------------------------------------------------------------
  // channel type

  datatype ChannelType = Webhook

  function ChannelTypeName(c: ChannelType): string {
    match c
    case Webhook => "webhook"
  }

  /** `ChannelType::from_str`: "webhook" in any case, nothing else. */
  function ChannelTypeFromStr(s: string): (r: Result<ChannelType, AlertError>)
    ensures r.Ok? <==> ToLower(s) == "webhook"
    ensures r.Err? ==> r.error == InvalidChannelType(s)
  {
    if ToLower(s) == "webhook" then Ok(Webhook) else Err(InvalidChannelType(s))
  }

  lemma ChannelTypeRoundTrip(c: ChannelType)
    ensures ChannelTypeName(c) == "webhook"
    ensures ChannelTypeFromStr(ChannelTypeName(c)) == Ok(c)
    ensures ChannelTypeFromStr(ToUpper(ChannelTypeName(c))) == Ok(c)
  {
    LowerOfLowerKeyword(ChannelTypeName(c));
  }

  // ---------------------------------------------------------------------------
  // alert status

  datatype AlertStatus = Firing | Resolved

  function AlertStatusName(s: AlertStatus): string {
    match s
    case Firing => "firing"
    case Resolved => "resolved"
  }

  /** `AlertStatus::from_str`: total; only "resolved" (in any case) is Resolved,
      every other string reads as Firing. */
  function AlertStatusFromStr(s: string): (r: AlertStatus)
    ensures r == Resolved <==> ToLower(s) == "resolved"
  {
    var lower := ToLower(s);
    if lower == "firing" then Firing
    else if lower == "resolved" then Resolved
    else Firing
  }

  lemma AlertStatusRoundTrip(st: AlertStatus)
    ensures AlertStatusFromStr(AlertStatusName(st)) == st
    ensures AlertStatusFromStr(ToUpper(AlertStatusName(st))) == st
  {
    LowerOfLowerKeyword(AlertStatusName(st));
  }
}
