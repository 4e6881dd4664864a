# Altenia backend core in Dafny

Altenia is an observability backend. Projects belong to organisations, and each project receives logs, metrics and traces over HTTP under an API key. Alert rules watch the logs and notify webhooks. A retention task deletes old telemetry. This project models the decision-making of that backend as pure Dafny functions over immutable stores, and proves what those decisions guarantee.

It covers:

- **Alerts.** The alert rule, alert and channel value objects and entities. The periodic rule evaluator: count the logs in the rule's window, compare with the threshold, then fire, keep, resolve or do nothing. The alert and alert-rule services: paging, resolution guards, rule validation and update.
- **Organisations.** The organisation name and slug, member roles and permissions, invites and activity types, and their entities. The organisation service: the permission matrix, last-owner protection and ownership transfer. The invite service: send, accept, decline and cancel.
- **Authentication.** E-mail and password rules, the user with its soft delete, and refresh tokens with expiry and idempotent revocation.
- **Projects and API keys.** Project names and retention periods, partial update and soft delete. API key generation, display prefix, revocation and validation at ingestion. The API-key gate in front of log ingestion.
- **Logging.** Log levels and identifiers. Ingestion with accept and reject accounting. Query planning, the dynamic SQL WHERE clause with its placeholder and bind order, and the batched export loop. Saved filter presets with at most one default.
- **Metrics.** Metric types, histograms and rollup intervals. Ingestion and query. The metrics table, its rollup views and the query builder.
- **Traces.** Span kinds and status codes, the span entity and its duration. The spans table: batch insert that skips duplicates, trace read, service names, deletion. Trace search with its summaries and paging. The traces service.
- **OTLP/JSON conversion.** Logs, metrics and traces become the services' inputs. This includes attribute precedence, the `resource.` prefix, severity, kind and status mapping, and nanosecond timestamp splitting.
- **Retention.** One cycle of the metrics and traces clean-up tasks.

Modelling conventions:

- Time is an `int` count of nanoseconds since the epoch. The clock is a parameter wherever the code reads it.
- `f64` is `real`.
- Strings are `seq<char>`. Case mapping, case classes and the alphanumeric test are ASCII-only; whitespace is the full Unicode White_Space set that Rust's `trim` strips.
- Repositories become maps or sequences held in immutable store values. A query is modelled by the rows it selects; where the code relies on an `ORDER BY` (spans by start time, trace summaries by start time descending, metric buckets descending, alerts by trigger time descending) the model sorts by that key before cutting the page. Other list orders are listed under "Left out".
- Id generators, random bytes, hashing and JSON rendering are parameters.

## Model

| member | source | states |
|---|---|---|
| AlertValues.RuleTypeFromStr | backend/src/modules/alerts/domain/alert_rule/value_objects.rs:29-39 | a parsed rule type is one whose name equals the lower-cased input; a refused input is reported back in `InvalidRuleType` |
| AlertValues.RuleTypeRoundTrip | backend/src/modules/alerts/domain/alert_rule/value_objects.rs:29-47 | every rule type parses back from its name, also upper-cased, and parsing succeeds exactly for the case-insensitive spellings of the three names |
| AlertValues.ThresholdOperatorFromStr | backend/src/modules/alerts/domain/alert_rule/value_objects.rs:66-77 | an accepted operator matches the lower-cased input by its word or its symbol; a refused one is reported back in `InvalidThresholdOperator` |
| AlertValues.ThresholdOperatorRoundTrip | backend/src/modules/alerts/domain/alert_rule/value_objects.rs:66-86 | every operator parses back from its name (in any case) and its symbol, and parsing succeeds exactly for those spellings |
| AlertValues.OperatorsAreComplementary | backend/src/modules/alerts/domain/alert_rule/value_objects.rs:89-96 | over reals, gt is the negation of lte and gte the negation of lt, for the same actual and threshold |
| AlertValues.ChannelTypeFromStr | backend/src/modules/alerts/domain/alert_channel/value_objects.rs:25-33 | parsing succeeds exactly when the lower-cased input is "webhook"; otherwise `InvalidChannelType` carries the input |
| AlertValues.ChannelTypeRoundTrip | backend/src/modules/alerts/domain/alert_channel/value_objects.rs:25-39 | the webhook type is spelled "webhook" and parses back from that spelling in either case |
| AlertValues.AlertStatusFromStr | backend/src/modules/alerts/domain/alert/entity.rs:29-35 | the parser is total: Resolved exactly for a case-insensitive "resolved", Firing for everything else |
| AlertValues.AlertStatusRoundTrip | backend/src/modules/alerts/domain/alert/entity.rs:29-42 | both statuses parse back from their spelling, lower- or upper-case |
| AlertEntities.NewAlertRule | backend/src/modules/alerts/domain/alert_rule/entity.rs:32-63 | a new rule is enabled, never evaluated or triggered, has no channels and carries the given fields |
| AlertEntities.UpdateRuleName | backend/src/modules/alerts/domain/alert_rule/entity.rs:171-174 | only the name and `updated_at` change |
| AlertEntities.UpdateRuleDescription | backend/src/modules/alerts/domain/alert_rule/entity.rs:176-179 | only the description and `updated_at` change |
| AlertEntities.UpdateRuleConfig | backend/src/modules/alerts/domain/alert_rule/entity.rs:181-184 | only the config and `updated_at` change |
| AlertEntities.UpdateThreshold | backend/src/modules/alerts/domain/alert_rule/entity.rs:186-190 | value and operator are replaced together; nothing but them and `updated_at` changes |
| AlertEntities.UpdateTimeWindow | backend/src/modules/alerts/domain/alert_rule/entity.rs:192-195 | only the time window and `updated_at` change |
| AlertEntities.EnableRule | backend/src/modules/alerts/domain/alert_rule/entity.rs:197-200 | the rule is enabled afterwards and nothing but the flag and `updated_at` changes |
| AlertEntities.DisableRule | backend/src/modules/alerts/domain/alert_rule/entity.rs:202-205 | the rule is disabled afterwards and nothing but the flag and `updated_at` changes |
| AlertEntities.EnableDisableIdempotent | backend/src/modules/alerts/domain/alert_rule/entity.rs:197-205 | enabling twice is enabling once, and so is disabling, up to the later timestamp |
| AlertEntities.MarkEvaluated | backend/src/modules/alerts/domain/alert_rule/entity.rs:207-209 | only `last_evaluated_at` changes, to now; `updated_at` is left alone |
| AlertEntities.MarkTriggered | backend/src/modules/alerts/domain/alert_rule/entity.rs:211-213 | only `last_triggered_at` changes, to now; `updated_at` is left alone |
| AlertEntities.SetChannelIds | backend/src/modules/alerts/domain/alert_rule/entity.rs:215-218 | the whole channel list is replaced; nothing but it and `updated_at` changes |
| AlertEntities.NewAlert | backend/src/modules/alerts/domain/alert/entity.rs:66-85 | a new alert is firing, unresolved, triggered now, with the trigger value and message present |
| AlertEntities.Resolve | backend/src/modules/alerts/domain/alert/entity.rs:155-158 | afterwards the alert is resolved with `resolved_at` now, and id, rule, project, trigger time, value and message are unchanged |
| AlertEvaluator.CompareThresholdIsEvaluate | backend/src/modules/alerts/infrastructure/evaluator/rule_evaluator.rs:332-344 | the evaluator's own comparison agrees with the rule's `evaluate`, i.e. with the operator truth table, for every operator and threshold |
| AlertEvaluator.ErrorRateReading | backend/src/modules/alerts/infrastructure/evaluator/rule_evaluator.rs:150-223 | whenever at least one configured level parses, the corrected reading is the reading of the code as written |
| AlertEvaluator.ErrorRateSpec | backend/src/modules/alerts/infrastructure/evaluator/rule_evaluator.rs:150-223 | no logs in the window reads (0, no trigger); otherwise rate × total = errors × 100; a trigger means the rule's threshold holds for the rate |
| AlertEvaluator.DefaultErrorLevelsAreErrorAndFatal | backend/src/modules/alerts/infrastructure/evaluator/rule_evaluator.rs:155-165 | a config without "levels" counts the error and fatal levels |
| AlertEvaluator.CountReadingsSpec | backend/src/modules/alerts/infrastructure/evaluator/rule_evaluator.rs:225-330 | a log-count reading triggers exactly when the threshold holds; an empty or absent pattern reads (0, no trigger); otherwise a pattern reading triggers exactly when the threshold holds |
| AlertEvaluator.FindFiring | backend/src/modules/alerts/domain/alert/repository.rs:32-35 | a found alert is a firing alert of the rule from the store; none is found exactly when no stored alert of the rule is firing |
| AlertEvaluator.ChannelsByIds | backend/src/modules/alerts/domain/alert_channel/repository.rs:26-29 | the channels returned are exactly the stored enabled channels whose id was asked for |
| AlertEvaluator.Notifications | backend/src/modules/alerts/infrastructure/evaluator/rule_evaluator.rs:394-424 | one notification per channel, in channel order, each carrying that channel's config and the same payload |
| AlertEvaluator.TriggerAlert | backend/src/modules/alerts/infrastructure/evaluator/rule_evaluator.rs:346-362 | a rule whose project cannot be found creates no alert, sends nothing and fails with `ProjectNotFound` |
| AlertEvaluator.EvaluateRule | backend/src/modules/alerts/infrastructure/evaluator/rule_evaluator.rs:104-148 | one evaluation adds at most one alert and touches no project, channel or rule id; it fails only with `ProjectNotFound` for a rule whose project is missing, and then stores no alert and notifies nobody; a notification implies a new alert |
| AlertEvaluator.FiresWhenConditionHoldsAndNoneOpen | backend/src/modules/alerts/infrastructure/evaluator/rule_evaluator.rs:121-128 | condition true with no open alert for the rule appends exactly one firing alert (new id, now, the reading) and notifies each enabled channel of the rule once; an unknown project fails and adds nothing |
| AlertEvaluator.SkipsWhenAlreadyFiring | backend/src/modules/alerts/infrastructure/evaluator/rule_evaluator.rs:129-134 | condition true with an alert already open leaves the alerts unchanged and sends nothing |
| AlertEvaluator.ResolvesWhenConditionClears | backend/src/modules/alerts/infrastructure/evaluator/rule_evaluator.rs:134-146 | condition false resolves the open alert of the rule (and only it) or changes nothing; no notification is sent and no alert of the rule stays open |
| AlertEvaluator.EvaluateRuleStampsTheRule | backend/src/modules/alerts/infrastructure/evaluator/rule_evaluator.rs:116-128 | in the corrected store the evaluated rule keeps `last_evaluated_at` = now, gets `last_triggered_at` = now when an alert is created, and no other rule changes |
| AlertEvaluator.TriggerLosesEvaluationTime | backend/src/modules/alerts/infrastructure/evaluator/rule_evaluator.rs:116-128 | as written, on the triggering path the stored rule ends with its old `last_evaluated_at` while `last_triggered_at` is now |
| AlertEvaluator.TriggerLosesEvaluationTimeExample | backend/src/modules/alerts/infrastructure/evaluator/rule_evaluator.rs:383-385 | a never-evaluated rule that fires on its first pass is stored with no `last_evaluated_at` at all |
| AlertEvaluator.EvaluateRulePreservesAtMostOneFiring | backend/src/modules/alerts/infrastructure/evaluator/rule_evaluator.rs:104-148 | if each rule has at most one firing alert before a rule is evaluated, that still holds afterwards |
| AlertEvaluator.EvaluateAll | backend/src/modules/alerts/infrastructure/evaluator/rule_evaluator.rs:86-102 | only rules of the enabled list are reported as failed |
| AlertEvaluator.FoldShift | backend/src/modules/alerts/infrastructure/evaluator/rule_evaluator.rs:91-99 | evaluating the first rule and then folding over the rest gives the same store, failures and notifications as the left fold |
| AlertEvaluator.EvaluateAllIsLeftFold | backend/src/modules/alerts/infrastructure/evaluator/rule_evaluator.rs:86-102 | the pass evaluates every rule in list order, each on the store the previous one left, and goes on after a failure: it equals the left fold over all rules |
| AlertEvaluator.FoldFailedExactly | backend/src/modules/alerts/infrastructure/evaluator/rule_evaluator.rs:91-99 | a rule id is reported failed exactly when that rule's own step, on the store the earlier steps left, failed |
| AlertEvaluator.PassReportsExactlyTheFailures | backend/src/modules/alerts/infrastructure/evaluator/rule_evaluator.rs:86-102 | a pass reports a rule as failed exactly when evaluating it, after the rules before it, fails |
| AlertEvaluator.EvaluateAllPreservesAtMostOneFiring | backend/src/modules/alerts/infrastructure/evaluator/rule_evaluator.rs:86-102 | a whole sequential pass over the rules keeps at most one firing alert per rule |
| AlertEvaluator.SendAll | backend/src/modules/alerts/infrastructure/evaluator/rule_evaluator.rs:411-424 | every notification is attempted in order, whatever the outcome of the earlier ones |
| AlertEvaluator.FireSkipResolveExample | backend/src/modules/alerts/infrastructure/evaluator/rule_evaluator.rs:121-146 | readings 5, 15, 15, 3 against "gt 10" create one alert at the second pass, keep it at the third and resolve it at the fourth |
| AlertEvaluator.UnparsableLevelsReadAsAllErrors | backend/src/modules/alerts/infrastructure/evaluator/rule_evaluator.rs:155-210 | as written, a "levels" list none of which parses makes every log in the window an error, so the rate is 100 |
| AlertEvaluator.UnparsableLevelsExample | backend/src/modules/alerts/infrastructure/evaluator/rule_evaluator.rs:155-210 | levels ["bogus"] with one log read 100 as written and 0 when corrected |
| AlertEvaluator.ErrorRateCountsOnlyConfiguredLevels | backend/src/modules/alerts/infrastructure/evaluator/rule_evaluator.rs:155-210 | the corrected rate is 0 when no configured level parses, and the level binds are exactly the parsed levels' names in order |
| AlertServices.VerifyAlertAccess | backend/src/modules/alerts/application/services/alert_service.rs:45-75 | access is granted exactly for a live project whose organisation has the user as a member; a missing project is `ProjectNotFound`, otherwise `NotAuthorized` |
| AlertServices.FindAlertById | backend/src/modules/alerts/domain/alert/repository.rs:13-14 | finds a stored alert with the id, and finds none exactly when no stored alert has it |
| AlertServices.Kept | backend/src/modules/alerts/infrastructure/persistence/postgres_alert_repo.rs:93 | the rows kept by a WHERE test are exactly the stored alerts passing it |
| AlertServices.NewestFirst | backend/src/modules/alerts/infrastructure/persistence/postgres_alert_repo.rs:93 | `ORDER BY triggered_at DESC`: exactly the alerts passing the test, newest trigger first |
| AlertServices.Window | backend/src/modules/alerts/application/services/alert_service.rs:107-110 | LIMIT/OFFSET succeeds exactly for non-negative values and returns the rows from the offset, at most the limit of them |
| AlertServices.Page | backend/src/modules/alerts/application/services/alert_service.rs:107-119 | a page is produced exactly when the offset and limit+1 are non-negative; it reports the number of rows as total and holds only rows it was given |
| AlertServices.PositivePage | backend/src/modules/alerts/application/services/alert_service.rs:104-119 | with a positive limit the page is the slice of the rows from the offset, at most the limit of them, and `has_more` holds exactly when rows remain |
| AlertServices.NewestFirstPage | backend/src/modules/alerts/infrastructure/persistence/postgres_alert_repo.rs:93 | a page cut from rows newest first is itself newest first |
| AlertServices.ListAlertsWith | backend/src/modules/alerts/application/services/alert_service.rs:94-126 | an access failure comes out unchanged; a listed alert is a stored alert of the project, and the total is the number of the project's alerts |
| AlertServices.ListAlertsAsWritten | backend/src/modules/alerts/application/services/alert_service.rs:94-126 | access failures come out unchanged |
| AlertServices.ListAlerts | backend/src/modules/alerts/application/services/alert_service.rs:94-126 | the corrected listing fails exactly on access failure (unchanged) or a negative offset |
| AlertServices.ListAlertsPage | backend/src/modules/alerts/application/services/alert_service.rs:104-119 | the corrected page holds at most the limit (default 50, cap 100) of the project's rows from the offset in order, newest trigger first, the total count, and `has_more` exactly when rows remain after it |
| AlertServices.NegativeLimitClaimsMore | backend/src/modules/alerts/application/services/alert_service.rs:104-113 | as written, limit -1 on a project with no alerts returns an empty page that claims more to come; corrected, it does not |
| AlertServices.GetAlert | backend/src/modules/alerts/application/services/alert_service.rs:128-150 | an alert is returned exactly when access is granted and the alert exists in this project; an alert of another project is `AlertNotFound` |
| AlertServices.GetAlertsByRule | backend/src/modules/alerts/application/services/alert_service.rs:152-178 | a rule missing or of another project is `RuleNotFound`; the result is a prefix of the rule's alerts newest first, of at most min(limit or 50, 100) |
| AlertServices.ResolveAlert | backend/src/modules/alerts/application/services/alert_service.rs:180-209 | succeeds exactly for a firing alert of the project, storing its resolved form; a resolved alert gives `AlertAlreadyResolved`; an error writes nothing |
| AlertServices.FindAfterReplace | backend/src/modules/alerts/infrastructure/persistence/postgres_alert_repo.rs:143-163 | after an update by id the alert found by that id is the updated one |
| AlertServices.ResolveOnce | backend/src/modules/alerts/application/services/alert_service.rs:201-206 | a second resolve of the same alert fails with `AlertAlreadyResolved` and changes nothing; resolving keeps at most one firing alert per rule |
| AlertServices.ChannelCheckMeaning | backend/src/modules/alerts/application/services/alert_rule_service.rs:131-141 | the channel check passes exactly when every requested id names an enabled channel of this project |
| AlertServices.CreateRule | backend/src/modules/alerts/application/services/alert_rule_service.rs:106-164 | errors come in the order access, rule type, operator, duplicate name, channels and write nothing; a created rule is enabled, carries the request and is stored under its id |
| AlertServices.CreateRuleChecksTypeBeforeName | backend/src/modules/alerts/application/services/alert_rule_service.rs:116-128 | with a taken name, a bad rule type is still reported as `InvalidRuleType`, and with valid type and operator the name clash is reported |
| AlertServices.GetRule | backend/src/modules/alerts/application/services/alert_rule_service.rs:166-188 | a rule is returned exactly when access is granted and it belongs to the project; otherwise `RuleNotFound` |
| AlertServices.ListRules | backend/src/modules/alerts/application/services/alert_rule_service.rs:190-201 | with access, the result is exactly the project's rules |
| AlertServices.DeleteRule | backend/src/modules/alerts/application/services/alert_rule_service.rs:300-324 | deletes exactly when the rule can be got; afterwards getting it fails with `RuleNotFound`; a failure writes nothing |
| AlertServices.MergeThreshold | backend/src/modules/alerts/application/services/alert_rule_service.rs:248-259 | no threshold field leaves the rule alone; a bad operator is refused; otherwise the missing half of value/operator is taken from the rule |
| AlertServices.EditText | backend/src/modules/alerts/application/services/alert_rule_service.rs:226-245 | name, description and config take the request's value when present and keep the rule's otherwise; nothing else changes |
| AlertServices.EditSettings | backend/src/modules/alerts/application/services/alert_rule_service.rs:261-291 | time window, enabled flag and channels take the request's value when present; nothing else changes |
| AlertServices.UpdateRule | backend/src/modules/alerts/application/services/alert_rule_service.rs:203-298 | succeeds exactly when the guards pass; a name taken by another rule of the project is `RuleNameExists`; the stored rule is the merged one and a failure writes nothing |
| AlertServices.ApplyRuleUpdateFields | backend/src/modules/alerts/application/services/alert_rule_service.rs:226-291 | every field is the request's when given and the old value otherwise, the operator parsed |
| AlertServices.UpdateRuleMerge | backend/src/modules/alerts/application/services/alert_rule_service.rs:203-298 | an update's result merges field by field, and an empty update returns the rule unchanged |
| Auth.NewEmail | backend/src/modules/auth/domain/user/value_objects.rs:32-46 | an accepted address is the trimmed, lower-cased input; a refused one reports that normalised text in `InvalidEmail` |
| Auth.NewEmailAcceptsExactlyTheShape | backend/src/modules/auth/domain/user/value_objects.rs:32-46 | accepted exactly when the normalised text has a non-empty part before its first '@' and a non-empty part after it that contains a '.' |
| Auth.NewEmailIsIdempotent | backend/src/modules/auth/domain/user/value_objects.rs:32-46 | an accepted address is accepted again unchanged |
| Auth.EmailIgnoresPadding | backend/src/modules/auth/domain/user/value_objects.rs:33 | surrounding whitespace does not change the outcome |
| Auth.AcceptedAt | backend/src/modules/auth/domain/user/value_objects.rs:35-42 | a normalised text with a first '@' strictly inside it and a '.' after it is accepted as itself |
| Auth.RefusedShape | backend/src/modules/auth/domain/user/value_objects.rs:35-44 | a normalised text with no inner first '@' followed by a '.' is refused, reporting itself |
| Auth.EmailAccepted | backend/src/modules/auth/domain/user/value_objects.rs:137-141 | "test@example.com" is accepted as is |
| Auth.EmailAcceptedLowered | backend/src/modules/auth/domain/user/value_objects.rs:33 | "USER@EXAMPLE.COM" is stored as "user@example.com" |
| Auth.EmailWithoutAt | backend/src/modules/auth/domain/user/value_objects.rs:144-149 | "invalid" is refused |
| Auth.EmailWithoutLocalPart | backend/src/modules/auth/domain/user/value_objects.rs:35-44 | "@example.com" is refused |
| Auth.EmailWithoutDomain | backend/src/modules/auth/domain/user/value_objects.rs:35-44 | "test@" is refused |
| Auth.EmailWithoutDot | backend/src/modules/auth/domain/user/value_objects.rs:35-44 | "test@example" is refused |
| Auth.NewPassword | backend/src/modules/auth/domain/user/value_objects.rs:82-120 | accepted (unchanged) exactly when the password is strong; a refusal names a failing check all of whose predecessors in the order length, upper, lower, digit, special pass |
| Auth.StrongAt | backend/src/modules/auth/domain/user/value_objects.rs:82-120 | at least 8 bytes with an upper, a lower, a digit and a special char is accepted |
| Auth.FirstFailingCheckIsReported | backend/src/modules/auth/domain/user/value_objects.rs:82-120 | the reported problem is exactly the first check in source order that fails |
| Auth.PasswordAccepted | backend/src/modules/auth/domain/user/value_objects.rs:152-156 | "Password1!" is accepted |
| Auth.PasswordWithDigitInside | backend/src/modules/auth/domain/user/value_objects.rs:82-120 | "Str0ng@Pass" is accepted |
| Auth.PasswordWithDollar | backend/src/modules/auth/domain/user/value_objects.rs:82-120 | "Complex1$Password" is accepted |
| Auth.PasswordTooShort | backend/src/modules/auth/domain/user/value_objects.rs:159-162 | "Pass1!" is refused as too short |
| Auth.PasswordWithoutUpper | backend/src/modules/auth/domain/user/value_objects.rs:165-168 | "password1!" is refused for the missing upper-case letter |
| Auth.PasswordWithoutLower | backend/src/modules/auth/domain/user/value_objects.rs:171-174 | "PASSWORD1!" is refused for the missing lower-case letter |
| Auth.PasswordWithoutDigit | backend/src/modules/auth/domain/user/value_objects.rs:177-180 | "Password!" is refused for the missing digit |
| Auth.PasswordWithoutSpecial | backend/src/modules/auth/domain/user/value_objects.rs:183-186 | "Password1" is refused for the missing special char |
| Auth.NewUser | backend/src/modules/auth/domain/user/entity.rs:20-31 | a new user has the password hash, no display name, is not deleted and was created and updated now |
| Auth.NewOAuthUser | backend/src/modules/auth/domain/user/entity.rs:34-45 | an OAuth user has no password, no display name and is not deleted |
| Auth.UpdateEmail | backend/src/modules/auth/domain/user/entity.rs:111-114 | only the email and `updated_at` change |
| Auth.UpdatePassword | backend/src/modules/auth/domain/user/entity.rs:117-120 | only the hash and `updated_at` change, and the user then has a password |
| Auth.UpdateDisplayName | backend/src/modules/auth/domain/user/entity.rs:123-126 | only the display name and `updated_at` change |
| Auth.SoftDeleteUser | backend/src/modules/auth/domain/user/entity.rs:129-136 | fails with `UserAlreadyDeleted` exactly for a deleted user; otherwise stamps `deleted_at` and `updated_at` and nothing else |
| Auth.SecondUserDeleteFails | backend/src/modules/auth/domain/user/entity.rs:228-239 | a live user can be deleted once, and the second delete fails |
| Auth.NewRefreshToken | backend/src/modules/auth/domain/token/entity.rs:43-57 | a new token is unrevoked, created now, with the given expiry, user and hash |
| Auth.RevokeToken | backend/src/modules/auth/domain/token/entity.rs:117-121 | the token is revoked afterwards, an already revoked one is unchanged, and only the revocation time can change |
| Auth.TokenLifecycle | backend/src/modules/auth/domain/token/entity.rs:104-121 | revoking twice keeps the first time; a revoked token is never valid; valid means not past expiry and not revoked, and validity never returns once lost over time |
| Bytes.Base64AlphabetIsBijective | backend/src/modules/projects/application/services/project_service.rs:456-460 | the 64 URL-safe symbols and the values 0..63 correspond one to one |
| Bytes.EncodeBase64UrlShape | backend/src/modules/projects/application/services/project_service.rs:456-460 | the unpadded encoding has length ceil(4n/3) and uses only URL-safe symbols |
| Bytes.EncodeBase64UrlAppend | backend/src/modules/projects/application/services/project_service.rs:456-460 | encoding a whole number of 3-byte groups followed by more bytes is the concatenation of the two encodings |
| Bytes.KeyBytesEncodeTo43 | backend/src/modules/projects/application/services/project_service.rs:119-124 | the 32 random bytes of a key encode to 43 characters |
| Bytes.EncodeHexShape | backend/src/modules/projects/application/services/project_service.rs:127-131 | lower-case hex of n bytes has 2n hex digits |
| Bytes.HexRoundTrip | backend/src/modules/projects/application/services/project_service.rs:127-131 | the hex text of a digest decodes back to the digest |
| IngestAuth.ExtractApiKey | backend/src/modules/logging/infrastructure/http/middleware.rs:107-132 | X-API-Key wins when present; otherwise a key is found exactly when Authorization is "Bearer " followed by a text starting "alt_pk_", and that text is the key |
| IngestAuth.SharedPrefix | backend/src/modules/logging/infrastructure/http/middleware.rs:124-127 | behind a common prefix one string starts with another exactly when the rests do |
| IngestAuth.RejectionFor | backend/src/modules/logging/infrastructure/http/middleware.rs:75-91 | invalid, revoked and expired keys answer 401, a missing project 403, other errors 500, never with the missing-key code |
| IngestAuth.ApiKeyGate | backend/src/modules/logging/infrastructure/http/middleware.rs:35-104 | no key answers 401 MISSING_API_KEY; the request passes exactly when the key validates, carrying the key's project; a refusal is 401 or 403 |
| IngestAuth.BearerKeyIsExtracted | backend/src/modules/logging/infrastructure/http/middleware.rs:122-129 | a key starting "alt_pk_" sent as a bearer token is the key read |
| IngestAuth.OtherBearerTokenIsMissingKey | backend/src/modules/logging/infrastructure/http/middleware.rs:122-131 | a bearer token without the "alt_pk_" marker is answered as a missing key, whatever the store |
| IngestAuth.CreatedKeyPassesGate | backend/src/modules/projects/application/services/project_service.rs:312-358 | a key just created for a project, sent as a bearer token, is admitted to that project |
| LogValues.LevelFromStr | backend/src/modules/logging/domain/log/value_objects.rs:42-55 | a parsed level is one the lower-cased input names ("warning", "err" and "critical" included); a refusal carries the input |
| LogValues.LevelFromStrAccepts | backend/src/modules/logging/domain/log/value_objects.rs:42-55 | parsing succeeds exactly for the case-insensitive spellings of a level, gives that level, and ignores case |
| LogValues.LevelRoundTrip | backend/src/modules/logging/domain/log/value_objects.rs:42-66 | every level parses back from its name, its alias and its upper-cased name |
| LogValues.ParsedLevels | backend/src/modules/alerts/infrastructure/evaluator/rule_evaluator.rs:189-193 | keeping only the names that parse yields nothing exactly when none parses, and all of them when all parse |
| LogValues.Severity | backend/src/modules/logging/domain/log/value_objects.rs:69-78 | severities lie in 0..5, with 0 exactly for trace and 5 exactly for fatal |
| LogValues.SeverityIsStrictlyIncreasing | backend/src/modules/logging/domain/log/value_objects.rs:69-78 | trace < debug < info < warn < error < fatal by severity, and no two levels share one |
| LogValues.NewTraceId | backend/src/modules/logging/domain/log/value_objects.rs:92-98 | a trace id is accepted, unchanged, exactly when it has 1 to 64 bytes |
| LogValues.NewSpanId | backend/src/modules/logging/domain/log/value_objects.rs:114-120 | a span id is accepted, unchanged, exactly when it has 1 to 64 bytes |
| LogValues.SortFromStr | backend/src/modules/logging/domain/log/repository.rs:55-60 | ascending exactly for a case-insensitive "asc" or "ascending", descending for anything else |
| LogEntities.NewLogEntry | backend/src/modules/logging/domain/log/entity.rs:24-48 | received now; the timestamp is the given one or, when absent, the receive time; the other fields are as given |
| LogEntities.ReconstructLogEntry | backend/src/modules/logging/domain/log/entity.rs:51-75 | every field is taken as stored, with no defaulting |
| LogEntities.ReconstructIsIdentity | backend/src/modules/logging/domain/log/entity.rs:51-75 | reconstructing an entry from its own fields gives the entry back |
| LogEntities.FiltersOf | backend/src/modules/logging/domain/filter_preset/entity.rs:88-96 | a config turns into no filter at all exactly when `has_filters` is false |
| LogEntities.EmptyConfigHasNoFilters | backend/src/modules/logging/domain/filter_preset/entity.rs:47-49 | the empty config has no filters, sorts descending, and the sort order never counts as a filter |
| LogEntities.WithLevels | backend/src/modules/logging/domain/filter_preset/entity.rs:51-54 | sets the levels and nothing else |
| LogEntities.WithTimeRange | backend/src/modules/logging/domain/filter_preset/entity.rs:56-60 | sets both bounds and nothing else |
| LogEntities.WithSource | backend/src/modules/logging/domain/filter_preset/entity.rs:62-65 | sets the source and nothing else |
| LogEntities.WithSearch | backend/src/modules/logging/domain/filter_preset/entity.rs:67-70 | sets the search text and nothing else |
| LogEntities.WithTraceId | backend/src/modules/logging/domain/filter_preset/entity.rs:72-75 | sets the trace id and nothing else |
| LogEntities.WithMetadataFilters | backend/src/modules/logging/domain/filter_preset/entity.rs:77-80 | sets the metadata filters and nothing else |
| LogEntities.WithSortOrder | backend/src/modules/logging/domain/filter_preset/entity.rs:82-85 | sets the sort order only, and does not change whether filters are present |
| LogEntities.BuildersSetAFilter | backend/src/modules/logging/domain/filter_preset/entity.rs:51-96 | after any builder but the sort order there are filters, except that an empty metadata list adds none |
| LogEntities.NewFilterPreset | backend/src/modules/logging/domain/filter_preset/entity.rs:114-133 | the preset carries the given fields and was created and updated now |
| LogEntities.UpdatePresetName | backend/src/modules/logging/domain/filter_preset/entity.rs:192-195 | only the name and `updated_at` change |
| LogEntities.UpdatePresetConfig | backend/src/modules/logging/domain/filter_preset/entity.rs:197-200 | only the config and `updated_at` change |
| LogEntities.SetAsDefault | backend/src/modules/logging/domain/filter_preset/entity.rs:202-205 | the preset becomes the default; only the flag and `updated_at` change |
| LogEntities.UnsetDefault | backend/src/modules/logging/domain/filter_preset/entity.rs:207-210 | the preset stops being the default; only the flag and `updated_at` change |
| LogSql.JsonbPathIsSegments | backend/src/modules/logging/infrastructure/persistence/timescale_log_repo.rs:148-159 | both branches write "metadata" followed by one quoted accessor per '.'-separated part, and quote doubling is undone exactly, so no part can close its literal |
| LogSql.SpecRoles | backend/src/modules/logging/infrastructure/persistence/timescale_log_repo.rs:98-145 | a metadata condition writes no placeholder exactly when its operator is `exists` |
| LogSql.Conditions | backend/src/modules/logging/infrastructure/persistence/timescale_log_repo.rs:45-95 | one condition per filter part, whose placeholders together are numbered consecutively from the offset in the order of the parts' fields |
| LogSql.FilterConditions | backend/src/modules/logging/infrastructure/persistence/timescale_log_repo.rs:45-95 | the clause's placeholders are offset+1, offset+2, … in the order levels, start, end, source, search, trace id, metadata filters |
| LogSql.BuildFilterClause | backend/src/modules/logging/infrastructure/persistence/timescale_log_repo.rs:45-95 | the count returned is the number of placeholders written, and the clause is empty exactly when no condition applies |
| LogSql.MetadataBindsFollow | backend/src/modules/logging/infrastructure/persistence/timescale_log_repo.rs:162-201 | metadata filters with values bind one value per placeholder in placeholder order; a non-`exists` filter without a value binds fewer values than it wrote placeholders |
| LogSql.RolesAgree | backend/src/modules/logging/infrastructure/persistence/timescale_log_repo.rs:320-347 | when every metadata filter has its value, the n-th bound value stands for the same field as the n-th placeholder |
| LogSql.BindsFollowPlaceholders | backend/src/modules/logging/infrastructure/persistence/timescale_log_repo.rs:371-417 | with every metadata value present, there are as many binds as placeholders and bind i fills placeholder offset+1+i of its own field |
| LogSql.BindCountMatchesPlaceholders | backend/src/modules/logging/infrastructure/persistence/timescale_log_repo.rs:45-95 | the bind count never exceeds the placeholder count, and equals it exactly when every metadata filter that needs a value has one |
| LogSql.CountStatement | backend/src/modules/logging/infrastructure/persistence/timescale_log_repo.rs:371-417 | the count statement is for the given project and has an empty WHERE tail exactly when no filter applies |
| LogSql.EmptyLevelsFilterNothing | backend/src/modules/logging/infrastructure/persistence/timescale_log_repo.rs:49-55 | an empty level list writes and binds nothing, so it counts exactly as no level filter at all |
| LogSql.HasMoreIffRowsRemain | backend/src/modules/logging/infrastructure/persistence/timescale_log_repo.rs:348-358 | a page reports more rows exactly when offset plus limit falls short of the total |
| LogService.VerifyLogAccess | backend/src/modules/logging/application/services/log_service.rs:59-91 | a missing project is `ProjectNotFound`, a deleted one `ProjectDeleted`; access is granted exactly for a live project whose organisation has the user as a member |
| LogService.ValidateAndConvert | backend/src/modules/logging/application/services/log_service.rs:137-170 | a log is accepted exactly when its level parses and its message is non-empty, the level checked first; an accepted log is the entry built from the input |
| LogService.Checked | backend/src/modules/logging/application/services/log_service.rs:103-113 | every input is validated, in order, each with its own fresh id |
| LogService.Accepted | backend/src/modules/logging/application/services/log_service.rs:103-113 | only entries that validated are kept for saving |
| LogService.Rejections | backend/src/modules/logging/application/services/log_service.rs:103-113 | every rejection note points at an input whose validation failed with that error |
| LogService.EveryInputIsCounted | backend/src/modules/logging/application/services/log_service.rs:103-133 | accepted plus rejected inputs account for every input exactly once |
| LogService.SaveBatch | backend/src/modules/logging/infrastructure/persistence/timescale_log_repo.rs:244-290 | an empty batch saves 0; a failed commit is an error; otherwise at most the batch is counted, and all of it when every insert succeeds |
| LogService.CountInserted | backend/src/modules/logging/infrastructure/persistence/timescale_log_repo.rs:244-290 | the rows counted are at most the batch, and the whole batch when every insert succeeds |
| LogService.Ingest | backend/src/modules/logging/application/services/log_service.rs:95-134 | no valid log reports every input rejected; a saved batch reports the saved count and the rejections; a failed save reports nothing accepted and every input rejected; the two counts never exceed the inputs |
| LogService.ConvertMetadataFilter | backend/src/modules/logging/application/services/log_service.rs:237-247 | converts exactly when the operator parses and the filter is valid, keeping the trimmed key; a bad operator is reported as such |
| LogService.ConvertQueryFilters | backend/src/modules/logging/application/services/log_service.rs:226-258 | converts exactly when every given level and every given metadata filter is valid; an unknown level is reported as `InvalidLevel` |
| LogService.RequestSort | backend/src/modules/logging/application/services/log_service.rs:190-193 | ascending exactly for the literal "asc" or "ascending", descending otherwise |
| LogService.RequestSortIsStricter | backend/src/modules/logging/application/services/log_service.rs:190-193 | the service's own sort parse accepts fewer spellings than `SortOrder::from_str`: "ASC" sorts descending here |
| LogService.FetchPage | backend/src/modules/logging/infrastructure/persistence/timescale_log_repo.rs:292-369 | a page is fetched exactly for non-negative limit and offset; it is the rows from the offset, at most the limit |
| LogService.PageOf | backend/src/modules/logging/infrastructure/persistence/timescale_log_repo.rs:348-369 | the page carries the total, at most the limit of rows from the offset in order, and `has_more` exactly when offset + limit is short of the total |
| LogService.Query | backend/src/modules/logging/application/services/log_service.rs:173-223 | access and filter errors come out unchanged; otherwise the page of the matching rows with limit 100 and offset 0 by default, sorted as requested |
| LogService.ExportFilters | backend/src/modules/logging/application/services/log_service.rs:441-458 | unknown levels are dropped and an empty result means no level filter; no metadata filter; every other field is the request's |
| LogService.ExportToleratesUnknownLevels | backend/src/modules/logging/application/services/log_service.rs:441-458 | a level list with an unknown level fails a query but only narrows an export |
| LogService.ParsedLevelsDropsFailures | backend/src/modules/logging/application/services/log_service.rs:445-450 | an unknown level among the names leaves fewer parsed levels than names |
| LogService.ExportBatches | backend/src/modules/logging/application/services/log_service.rs:460-500 | the batch loop collects exactly the first min(max, all) rows in order; a negative max is a store error |
| LogService.ExportLogs | backend/src/modules/logging/application/services/log_service.rs:420-546 | access errors come out unchanged; an export holds the first max (default 100000) matching rows newest first, their count and the project's name, and succeeds with access exactly when max is not negative |
| PresetValues.NewPresetName | backend/src/modules/logging/domain/filter_preset/value_objects.rs:30-43 | accepted exactly when the trimmed name has 1 to 100 bytes, stored trimmed; an empty trimmed name is reported as such |
| PresetValues.OperatorFromStr | backend/src/modules/logging/domain/filter_preset/value_objects.rs:79-94 | an accepted operator is one the lower-cased input spells; a refusal names the input |
| PresetValues.SpellingsAreDisjoint | backend/src/modules/logging/domain/filter_preset/value_objects.rs:79-94 | no spelling names two operators |
| PresetValues.OperatorRoundTrip | backend/src/modules/logging/domain/filter_preset/value_objects.rs:79-107 | every operator's canonical name is among its spellings, and each spelling (and the upper-cased name) parses back to it |
| PresetValues.SpellingParses | backend/src/modules/logging/domain/filter_preset/value_objects.rs:79-94 | any case variant of a spelling parses to its operator |
| PresetValues.OperatorFromStrAccepts | backend/src/modules/logging/domain/filter_preset/value_objects.rs:79-94 | parsing succeeds exactly for the case-insensitive spellings |
| PresetValues.RequiresValue | backend/src/modules/logging/domain/filter_preset/value_objects.rs:110-112 | every operator but `exists` needs a value |
| PresetValues.NewMetadataFilter | backend/src/modules/logging/domain/filter_preset/value_objects.rs:127-150 | built exactly when the trimmed key is non-empty and a needed value is present; an empty key and a missing value are reported in that order |
| PresetService.ConvertFilterConfig | backend/src/modules/logging/application/services/filter_preset_service.rs:307-345 | converts exactly when every level and metadata filter is valid, keeping every other field and the sort order as the request parse reads it |
| PresetService.ConfigToDto | backend/src/modules/logging/application/services/filter_preset_service.rs:348-386 | the response always names a sort order and carries one entry per metadata filter |
| PresetService.SortRoundTrip | backend/src/modules/logging/application/services/filter_preset_service.rs:307-386 | a sort order written into a response reads back as itself |
| PresetService.LevelsRoundTrip | backend/src/modules/logging/application/services/filter_preset_service.rs:307-386 | levels written into a response parse back to the same list |
| PresetService.FilterRoundTrip | backend/src/modules/logging/application/services/filter_preset_service.rs:307-386 | a valid metadata filter written into a response converts back to itself |
| PresetService.FiltersRoundTrip | backend/src/modules/logging/application/services/filter_preset_service.rs:307-386 | a list of valid metadata filters converts back to itself |
| PresetService.ConfigRoundTrip | backend/src/modules/logging/application/services/filter_preset_service.rs:307-386 | a config with valid metadata filters survives a trip through its response and back |
| PresetService.ClearDefault | backend/src/modules/logging/infrastructure/persistence/postgres_filter_preset_repo.rs:158-177 | afterwards no preset of the project and user is the default; every other preset is untouched, and no preset changes owner or id |
| PresetService.SavePreset | backend/src/modules/logging/infrastructure/persistence/postgres_filter_preset_repo.rs:112-141 | a new id is inserted; an existing one gets the new name, config, flag and `updated_at`; no other row changes |
| PresetService.OwnedPreset | backend/src/modules/logging/application/services/filter_preset_service.rs:158-185 | a preset is returned exactly when it belongs to this project and user; otherwise `FilterPresetNotFound` |
| PresetService.CreatePreset | backend/src/modules/logging/application/services/filter_preset_service.rs:85-134 | errors come in the order access, name, duplicate name, config and write nothing; on success the new preset is saved, after clearing the old default when it is to be the default |
| PresetService.ListPresets | backend/src/modules/logging/application/services/filter_preset_service.rs:137-155 | with access, exactly the user's presets of the project |
| PresetService.GetPreset | backend/src/modules/logging/application/services/filter_preset_service.rs:158-185 | access errors come out unchanged; otherwise only the user's own preset of the project is found |
| PresetService.DefaultPresets | backend/src/modules/logging/application/services/filter_preset_service.rs:188-207 | with access, exactly the user's default presets of the project |
| PresetService.UpdatePreset | backend/src/modules/logging/application/services/filter_preset_service.rs:210-274 | succeeds exactly for an owned preset with a valid, untaken new name and a valid config; fields absent keep their value; becoming the default clears the others first; a failure writes nothing |
| PresetService.RenamePreset | backend/src/modules/logging/application/services/filter_preset_service.rs:237-249 | a new name must be valid and not taken by the user's other presets of the project; the renamed preset differs from the old one only in name and update time |
| PresetService.ReconfigurePreset | backend/src/modules/logging/application/services/filter_preset_service.rs:251-255 | a new configuration must convert; the result differs from the old preset only in configuration and update time |
| PresetService.UpdateFound | backend/src/modules/logging/application/services/filter_preset_service.rs:237-273 | after the preset is found, the update succeeds exactly when rename and reconfiguration pass, keeps the identity fields, and saves with the other defaults cleared only when becoming the default |
| PresetService.DeletePreset | backend/src/modules/logging/application/services/filter_preset_service.rs:277-304 | deletes exactly an owned preset; a failure writes nothing |
| PresetService.ClearKeepsConsistent | backend/src/modules/logging/infrastructure/persistence/postgres_filter_preset_repo.rs:158-177 | clearing defaults keeps at most one default per project and user |
| PresetService.SaveKeepsConsistent | backend/src/modules/logging/infrastructure/persistence/postgres_filter_preset_repo.rs:112-141 | saving a preset that is the only default of its owner keeps at most one default each |
| PresetService.CreateKeepsConsistent | backend/src/modules/logging/application/services/filter_preset_service.rs:111-130 | creating a preset keeps at most one default per project and user |
| PresetService.UpdateKeepsConsistent | backend/src/modules/logging/application/services/filter_preset_service.rs:257-270 | updating a preset keeps at most one default per project and user |
| PresetService.DeleteKeepsConsistent | backend/src/modules/logging/application/services/filter_preset_service.rs:277-304 | deleting keeps at most one default per project and user |
| PresetService.DefaultIsUnique | backend/src/modules/logging/application/services/filter_preset_service.rs:188-207 | the default preset query finds at most one preset |
| MetricValues.TypeFromStr | backend/src/modules/metrics/domain/metric/value_objects.rs:12-22 | accepted exactly for a case-insensitive "counter", "gauge" or "histogram", giving the type of that name; a refusal carries the input |
| MetricValues.TypeRoundTrip | backend/src/modules/metrics/domain/metric/value_objects.rs:12-30 | every type parses back from its name |
| MetricValues.CapitalisedTypeAccepted | backend/src/modules/metrics/domain/metric/value_objects.rs:119-125 | "Counter" parses as a counter and "invalid" is refused |
| MetricValues.CheckAscending | backend/src/modules/metrics/domain/metric/value_objects.rs:63-70 | the loop over neighbouring bounds answers yes exactly when the bounds strictly ascend |
| MetricValues.NewHistogramData | backend/src/modules/metrics/domain/metric/value_objects.rs:45-87 | built exactly when there are as many counts as bounds or one more, the bounds strictly ascend and the count is not negative; the checks are reported in that order |
| MetricValues.HistogramVectors | backend/src/modules/metrics/domain/metric/value_objects.rs:128-141 | bounds 10, 50, 100 with four counts are accepted, descending bounds are refused, and one count per bound is also accepted |
| MetricValues.NewMetricPoint | backend/src/modules/metrics/domain/metric/entity.rs:27-55 | a plain point has no histogram data, is received now and carries the given fields |
| MetricValues.NewHistogramPoint | backend/src/modules/metrics/domain/metric/entity.rs:58-86 | a histogram point has type histogram and the given data, is received now and carries the given fields |
| MetricValues.RollupFromStr | backend/src/modules/metrics/domain/metric/repository.rs:31-39 | a recognised spelling (any case) gives its interval, and everything else gives raw |
| MetricValues.RollupRoundTrip | backend/src/modules/metrics/domain/metric/repository.rs:31-48 | each interval's name is its first spelling, and every spelling parses back to it |
| MetricsService.VerifyMetricsAccess | backend/src/modules/metrics/application/services/metrics_service.rs:50-80 | access is granted exactly for a live project whose organisation has the user as a member; a missing project is `ProjectNotFound` |
| MetricsService.ConvertMetric | backend/src/modules/metrics/application/services/metrics_service.rs:91-141 | converts exactly when the type parses and, for a histogram, the histogram data, with absent parts defaulted, is valid; the point carries the input, the time now when absent, and histogram data exactly for histograms |
| MetricsService.NonHistogramIgnoresHistogramFields | backend/src/modules/metrics/application/services/metrics_service.rs:96-141 | for a non-histogram type the histogram fields of the input make no difference and no data is stored |
| MetricsService.Ingest | backend/src/modules/metrics/application/services/metrics_service.rs:83-149 | one bad input fails the whole batch and stores nothing; a success stores one converted point per input, in order, after the existing ones, and reports their number |
| MetricsService.UnknownTypeAbortsBatch | backend/src/modules/metrics/application/services/metrics_service.rs:91-92 | the first input with an unknown type decides the error, and nothing is stored |
| MetricsService.ParsedTypes | backend/src/modules/metrics/application/services/metrics_service.rs:167-173 | the types kept are exactly those whose names parse; none parse, none kept |
| MetricsService.RequestRollup | backend/src/modules/metrics/application/services/metrics_service.rs:160-165 | no rollup means raw; otherwise the parsed interval |
| MetricsService.StoreFilters | backend/src/modules/metrics/application/services/metrics_service.rs:167-185 | names, times, tags and trace id pass through; types are present exactly when requested and are the parsed ones |
| MetricsService.Query | backend/src/modules/metrics/application/services/metrics_service.rs:152-217 | access errors come out unchanged; otherwise the response is the store's result point by point with its total |
| MetricsService.IngestedPointsAreQueried | backend/src/modules/metrics/application/services/metrics_service.rs:83-149 | every point a successful ingest stores matches an unfiltered raw query of its project |
| MetricsStore.HistogramColumnsOf | backend/src/modules/metrics/infrastructure/persistence/timescale_metrics_repo.rs:42-54 | the six histogram columns are filled exactly for a point with histogram data, and then from that data |
| MetricsStore.SaveBatch | backend/src/modules/metrics/infrastructure/persistence/timescale_metrics_repo.rs:26-97 | an empty batch saves 0; otherwise the batch succeeds exactly when every insert and the commit do, reporting the batch size |
| MetricsStore.WhereConditions | backend/src/modules/metrics/infrastructure/persistence/timescale_metrics_repo.rs:126-167 | the first condition is `project_id = $1`, and all placeholders are numbered 1, 2, … in the order project, names, start, end, trace id |
| MetricsStore.WhereNumbered | backend/src/modules/metrics/infrastructure/persistence/timescale_metrics_repo.rs:126-167 | the conditions written one after another number their placeholders consecutively from 1 |
| MetricsStore.LaterPartsNumbered | backend/src/modules/metrics/infrastructure/persistence/timescale_metrics_repo.rs:150-165 | the start, end and trace conditions use the next free numbers after the names |
| MetricsStore.NameParams | backend/src/modules/metrics/infrastructure/persistence/timescale_metrics_repo.rs:130-144 | n names write placeholders $2 … $(n+1), and none when n is 0 |
| MetricsStore.LimitValue | backend/src/modules/metrics/infrastructure/persistence/timescale_metrics_repo.rs:169 | the limit is 1000 by default and capped at 10000 |
| MetricsStore.BindsFollowPlaceholders | backend/src/modules/metrics/infrastructure/persistence/timescale_metrics_repo.rs:196-225 | there are as many binds as placeholders, and bind k fills placeholder k+1 with the value of that placeholder's field |
| MetricsStore.BindsAreValues | backend/src/modules/metrics/infrastructure/persistence/timescale_metrics_repo.rs:196-225 | the bind list is the value of each placeholder's field, in placeholder order |
| MetricsStore.NameBindsAreValues | backend/src/modules/metrics/infrastructure/persistence/timescale_metrics_repo.rs:200-205 | the name binds are the requested names in order |
| MetricsStore.RawRow | backend/src/modules/metrics/infrastructure/persistence/timescale_metrics_repo.rs:114-118 | a raw row reports the point's value as average, minimum, maximum and sum, with one sample, at its timestamp |
| MetricsStore.Matching | backend/src/modules/metrics/infrastructure/persistence/timescale_metrics_repo.rs:126-167 | the rows selected are exactly the rows of the table that satisfy every condition |
| MetricsStore.Aggregate | backend/src/modules/metrics/infrastructure/persistence/timescale_metrics_repo.rs:237-250 | missing aggregates read as 0; name, bucket, project and type are copied |
| MetricsStore.Window | backend/src/modules/metrics/infrastructure/persistence/timescale_metrics_repo.rs:172-181 | `LIMIT` and `OFFSET` keep at most the limit of rows from the offset, none past the end |
| MetricsStore.Query | backend/src/modules/metrics/infrastructure/persistence/timescale_metrics_repo.rs:99-253 | fails exactly for a negative limit or offset; the total counts every matching row of the chosen table; the matching rows are sorted latest bucket first and the page is exactly the slice from the offset of at most the limit (default 1000, cap 10000) of them, entry k the aggregate of sorted row offset+k, in descending bucket order |
| MetricsStore.AggregatedPage | backend/src/modules/metrics/infrastructure/persistence/timescale_metrics_repo.rs:237-250 | exactly min(limit, rows after the offset) entries, entry k being the aggregate of row offset+k, descending buckets when the rows are |
| MetricsStore.LatestFirst | backend/src/modules/metrics/infrastructure/persistence/timescale_metrics_repo.rs:177 | `ORDER BY bucket DESC`: a permutation of the matching rows, latest first |
| MetricsStore.FirstPageIsLatest | backend/src/modules/metrics/infrastructure/persistence/timescale_metrics_repo.rs:175-178 | on the first page, every matching row later than an entry of the page is itself on the page: the page holds the latest buckets |
| MetricsStore.RawQueryReportsValues | backend/src/modules/metrics/infrastructure/persistence/timescale_metrics_repo.rs:107-118 | a raw query reports for each entry one sample whose four aggregates are the value of a stored point of the project at that time |
| MetricsStore.TypesAndTagsIgnored | backend/src/modules/metrics/infrastructure/persistence/timescale_metrics_repo.rs:126-167 | the type and tag filters change neither the WHERE clause nor the result |
| MetricsStore.RollupIgnoresTrace | backend/src/modules/metrics/infrastructure/persistence/timescale_metrics_repo.rs:162-165 | on a rollup table the trace id neither writes a placeholder nor filters a row |
| MetricsStore.DeleteBefore | backend/src/modules/metrics/infrastructure/persistence/timescale_metrics_repo.rs:273-291 | exactly the project's points older than the cutoff go, and the count is the number removed |
| OrgValues.NewOrgName | backend/src/modules/organizations/domain/organization/value_objects.rs:34-51 | a name is accepted exactly when, once trimmed, it is non-empty and at most 100 bytes; the trimmed text is kept; the refusal says whether it was empty |
| OrgValues.SlugFromString | backend/src/modules/organizations/domain/organization/value_objects.rs:89-107 | a slug is accepted unchanged exactly when it is non-empty and made only of ASCII lower-case letters, digits and '-'; the empty check comes first |
| OrgValues.SlugChars | backend/src/modules/organizations/domain/organization/value_objects.rs:70-75 | keeps the length, keeping every letter or digit and turning every other character into '-' |
| OrgValues.SlugBaseShape | backend/src/modules/organizations/domain/organization/value_objects.rs:77-82 | the base of a generated slug neither starts nor ends with '-', never has two '-' in a row, and holds only slug characters |
| OrgValues.SlugBaseContent | backend/src/modules/organizations/domain/organization/value_objects.rs:69-82 | taking the '-' out of the base leaves exactly the letters and digits of the lower-cased name, in order |
| OrgValues.GeneratedSlugIsReadable | backend/src/modules/organizations/domain/organization/value_objects.rs:69-107 | a slug generated with a suffix of slug characters is accepted unchanged by `from_string` |
| OrgValues.GenerateSlug | backend/src/modules/organizations/domain/organization/value_objects.rs:69-87 | the slug ends in "-" and the suffix; before that, a base of lower-case letters, digits and single inner '-' whose letters and digits are exactly those of the lower-cased name, in order |
| OrgValues.SlugExample | backend/src/modules/organizations/domain/organization/value_objects.rs:211-215 | "My Cool Org" with suffix "x7k2" gives "my-cool-org-x7k2" |
| OrgValues.SlugExampleWithSymbols | backend/src/modules/organizations/domain/organization/value_objects.rs:218-222 | "Test & Company!" with suffix "abc1" gives "test-company-abc1" |
| OrgValues.AccentedNameGivesUnreadableSlug | backend/src/modules/organizations/domain/organization/value_objects.rs:69-107 | with `is_alphanumeric` read as the code does, the slug generated for "café" is refused by `from_string`; with ASCII letters and digits it is accepted |
| OrgValues.RandomSuffix | backend/src/modules/organizations/application/services/org_service.rs:61-71 | four characters, each the charset character at its draw, so each is a lower-case ASCII letter or a digit |
| OrgValues.RandomSuffixIsOnto | backend/src/modules/organizations/application/services/org_service.rs:61-71 | every four-character text of lower-case letters and digits is the suffix of some draws |
| OrgValues.CharsetIndex | backend/src/modules/organizations/application/services/org_service.rs:62 | every lower-case ASCII letter and digit is in the charset |
| OrgValues.RoleFromStr | backend/src/modules/organizations/domain/organization/value_objects.rs:127-137 | an accepted text is a role name in some case, and a refusal carries the text |
| OrgValues.RoleRoundTrip | backend/src/modules/organizations/domain/organization/value_objects.rs:127-145 | every role parses back from its name, in lower or upper case, and a text parses exactly when its lower-case form is a role name |
| OrgValues.RoleExamples | backend/src/modules/organizations/domain/organization/value_objects.rs:225-230 | "owner", "ADMIN" and "Member" give their roles and "invalid" is refused |
| OrgValues.PermissionMatrix | backend/src/modules/organizations/domain/organization/value_objects.rs:147-165 | Owner holds all four permissions, Admin only member management and updates, Member none; a higher role holds every permission of a lower one |
| OrgValues.InviteStatusFromStr | backend/src/modules/organizations/domain/invite/value_objects.rs:52-64 | an accepted text is exactly a status's name; a refusal carries the text |
| OrgValues.InviteStatusRoundTrip | backend/src/modules/organizations/domain/invite/value_objects.rs:41-64 | every status parses back from its name, and a text parses exactly when it is one of the names |
| OrgValues.InviteStatusIsCaseSensitive | backend/src/modules/organizations/domain/invite/value_objects.rs:55-63 | "PENDING" and "Accepted" are refused |
| OrgValues.ActivityTypeFromStr | backend/src/modules/organizations/domain/activity/value_objects.rs:41-53 | an accepted text is exactly an activity type's name; a refusal carries the text |
| OrgValues.ActivityTypeRoundTrip | backend/src/modules/organizations/domain/activity/value_objects.rs:40-67 | names are distinct, every type parses back from its name, and a text parses exactly when it is one of the names |
| OrgValues.ActivityTypeExamples | backend/src/modules/organizations/domain/activity/value_objects.rs:74-96 | "invalid" and "ORG_CREATED" are refused |
| OrgEntities.NewOrganization | backend/src/modules/organizations/domain/organization/entity.rs:20-31 | a new organisation is shared, not deleted, created and updated now, with the given id, name and slug |
| OrgEntities.NewPersonalOrganization | backend/src/modules/organizations/domain/organization/entity.rs:34-45 | a new personal organisation is personal, not deleted, created and updated now |
| OrgEntities.UpdateOrgName | backend/src/modules/organizations/domain/organization/entity.rs:103-107 | name, slug and update time change; id, kind, creation and deletion stay |
| OrgEntities.SoftDeleteOrg | backend/src/modules/organizations/domain/organization/entity.rs:110-122 | a personal organisation cannot be deleted, a deleted one not again; otherwise it becomes deleted now and nothing else but the update time changes |
| OrgEntities.SecondOrgDeleteFails | backend/src/modules/organizations/domain/organization/entity.rs:163-184 | deleting twice fails with `OrgAlreadyDeleted`, and a personal organisation fails with `CannotDeletePersonalOrg` |
| OrgEntities.NewMember | backend/src/modules/organizations/domain/member/entity.rs:20-31 | a new membership has the given fields, no last access, and is created and updated now |
| OrgEntities.UpdateRole | backend/src/modules/organizations/domain/member/entity.rs:85-88 | only the role and the update time change |
| OrgEntities.TouchLastAccessed | backend/src/modules/organizations/domain/member/entity.rs:91-94 | only the last access and the update time change, both to now |
| OrgEntities.MemberIdentityIsFixed | backend/src/modules/organizations/domain/member/entity.rs:85-94 | any run of role changes and touches keeps the id, organisation, user and creation time |
| OrgEntities.NewInvite | backend/src/modules/organizations/domain/invite/entity.rs:23-45 | a new invite is pending, created and updated now, with the given fields and expiry |
| OrgEntities.InviteExpiryIsMonotone | backend/src/modules/organizations/domain/invite/entity.rs:116-118 | an invite is not yet expired at its expiry instant, and once expired stays expired |
| OrgEntities.AcceptInvite | backend/src/modules/organizations/domain/invite/entity.rs:121-124 | only the status, now accepted, and the update time change |
| OrgEntities.DeclineInvite | backend/src/modules/organizations/domain/invite/entity.rs:127-130 | only the status, now declined, and the update time change |
| OrgEntities.MarkInviteExpired | backend/src/modules/organizations/domain/invite/entity.rs:133-136 | only the status, now expired, and the update time change |
| OrgEntities.TransitionsIgnorePriorStatus | backend/src/modules/organizations/domain/invite/entity.rs:121-136 | the status transitions do not check the current status: the last one applied decides |
| OrgService.CreateOrg | backend/src/modules/organizations/application/services/org_service.rs:73-119 | succeeds exactly for a valid name, changing nothing otherwise; the new organisation is shared and live with the trimmed name, its creator is its Owner and was last active now, and one `org_created` activity is logged |
| OrgService.CreatedSlugIsReadable | backend/src/modules/organizations/application/services/org_service.rs:61-119 | whatever the random draws, the slug of a created organisation is accepted by `from_string` |
| OrgService.GetOrg | backend/src/modules/organizations/application/services/org_service.rs:181-215 | a missing or deleted organisation is `OrgNotFound`, a non-member gets `NotOrgMember`; otherwise the organisation with the caller's role |
| OrgService.ListMembers | backend/src/modules/organizations/application/services/org_service.rs:390-439 | after the same checks, exactly the organisation's members whose user exists, each with their role |
| OrgService.UpdateOrg | backend/src/modules/organizations/application/services/org_service.rs:218-276 | a missing organisation, a non-member and a plain Member are refused in that order, changing nothing; without a new name nothing changes; an invalid name is refused; a valid one renames the organisation and regenerates its slug |
| OrgService.Rename | backend/src/modules/organizations/application/services/org_service.rs:245-265 | the organisation gets the name and the slug generated from it, and one `org_name_changed` activity is logged |
| OrgService.DeleteOrg | backend/src/modules/organizations/application/services/org_service.rs:279-306 | succeeds exactly for an Owner of a shared, not yet deleted organisation, which then becomes deleted and nothing else changes; a second deletion by an Owner is `OrgAlreadyDeleted` |
| OrgService.AddMemberWith | backend/src/modules/organizations/application/services/org_service.rs:309-387 | the checks run in order (organisation live, requester a member, role parses, requester allowed, email valid, user found, not yet a member), each failure changing nothing; a success adds exactly the found user with the role and never loses an organisation's last owner |
| OrgService.AddMemberPermissions | backend/src/modules/organizations/application/services/org_service.rs:331-339 | as written, an added Admin needs an Owner but an added Owner needs only an Admin; in the corrected version any role above Member needs an Owner |
| OrgService.AddMember | backend/src/modules/organizations/application/services/org_service.rs:309-389 | an added member needs a requester who is a member allowed to manage members, and a role above Member needs an Owner requester; a failure writes nothing |
| OrgService.AdminAddsOwner | backend/src/modules/organizations/application/services/org_service.rs:331-339 | as written, an Admin adding a registered non-member with role "owner" succeeds and makes them an Owner |
| OrgService.AdminCanAddOwner | backend/src/modules/organizations/application/services/org_service.rs:331-339 | a concrete store where the Admin "a" makes "b" an Owner |
| OrgService.UpdateMemberRole | backend/src/modules/organizations/application/services/org_service.rs:442-514 | only an Owner may change a role, of a member, to a valid role, and never by demoting the last Owner; each failure changes nothing except a missing requester user after the save; success changes exactly the target's role |
| OrgService.RemovalMatrix | backend/src/modules/organizations/application/services/org_service.rs:538-543 | an Owner may remove anyone and anyone else only members ranked below them; removing a non-Member needs admin management |
| OrgService.RemoveMember | backend/src/modules/organizations/application/services/org_service.rs:517-568 | the requester and target must be members and the removal allowed, and the last Owner cannot be removed; success removes exactly the target and logs `member_removed` |
| OrgService.LeaveOrg | backend/src/modules/organizations/application/services/org_service.rs:571-607 | succeeds exactly for a member who is not the last Owner, removing only their membership and logging `member_removed` with reason "left" |
| OrgService.TransferOwnershipWith | backend/src/modules/organizations/application/services/org_service.rs:610-714 | only an Owner may transfer, to a member; the new owner is promoted and the requester demoted to Admin; the result is the organisation with the requester's new role, or else `OrgNotFound` or `UserNotFound` after the saves |
| OrgService.SelfTransferDemotesLastOwner | backend/src/modules/organizations/application/services/org_service.rs:634-641 | as written, an Owner transferring to themselves ends as Admin, and a sole Owner leaves the organisation with none |
| OrgService.SelfTransferLeavesNoOwner | backend/src/modules/organizations/application/services/org_service.rs:634-641 | a concrete single-owner store whose self-transfer leaves no Owner |
| OrgService.TransferKeepsOwners | backend/src/modules/organizations/application/services/org_service.rs:610-714 | the corrected transfer never leaves an organisation that had an Owner without one |
| OrgService.TransferOwnership | backend/src/modules/organizations/application/services/org_service.rs:610-714 | a transfer never leaves an organisation that had an Owner without one; when allowed the new owner ends an Owner; when not allowed nothing is written and the call fails |
| OrgService.SwitchOrg | backend/src/modules/organizations/application/services/org_service.rs:717-779 | a missing or deleted organisation and a non-member are refused; otherwise the membership is touched now, and the result is the organisation with the caller's role if the user exists |
| OrgService.DeletedOrgIsNotFound | backend/src/modules/organizations/application/services/org_service.rs:181-779 | on a deleted organisation get, update, add, list and switch all answer `OrgNotFound`, and an Owner's delete answers `OrgAlreadyDeleted` |
| OrgService.OwnersSurvive | backend/src/modules/organizations/application/services/org_service.rs:309-779 | any run of add, role-change, remove, leave, corrected transfer and switch commands never leaves an organisation that had an Owner without one |
| InviteService.SendInvite | backend/src/modules/organizations/application/services/invite_service.rs:62-182 | the checks run in order (organisation found, inviter a member who may manage members, role valid and not Owner, email valid, inviter found and not inviting themselves), each failure changing nothing; a success stores one pending invite for the normalised email with the role, expiring seven days from now, and records the invitee's id exactly when that email is registered |
| InviteService.InviteeRefusals | backend/src/modules/organizations/application/services/invite_service.rs:116-139 | a registered invitee who refuses invites, one already a member, and an email with a pending invite are refused with their own errors, in that order |
| InviteService.SecondSendFails | backend/src/modules/organizations/application/services/invite_service.rs:132-139 | sending the same invite again right after a successful send fails |
| InviteService.AcceptPendingInvite | backend/src/modules/organizations/application/services/invite_service.rs:185-259 | an invite that is missing, not addressed to the caller or already answered is refused unchanged; an expired one is marked expired and refused; an invitee already a member gets the invite marked accepted and `AlreadyMember`; otherwise exactly one membership with the invite's role is added and the invite is accepted |
| InviteService.DeclinePendingInvite | backend/src/modules/organizations/application/services/invite_service.rs:262-304 | succeeds exactly when the invite exists, is the caller's and is pending, marking it declined and changing no membership |
| InviteService.CancelInvite | backend/src/modules/organizations/application/services/invite_service.rs:307-340 | succeeds exactly for an invite of that organisation cancelled by a member who may manage members, which deletes only that invite |
| InviteService.InviteIsAnsweredOnce | backend/src/modules/organizations/application/services/invite_service.rs:62-304 | a sent invite to a registered user, accepted within seven days, makes them a non-Owner member, and a second accept or a decline is then `InviteAlreadyProcessed` |
| InviteService.LateAcceptanceExpires | backend/src/modules/organizations/application/services/invite_service.rs:206-216 | accepting after the expiry adds no member, marks the invite expired, and any later accept is `InviteAlreadyProcessed` |
| OtlpCommon.InsertInOrderLastWins | backend/src/modules/otlp/types/common.rs:123-129 | inserting key-value pairs into a map one after another keeps exactly the keys seen, each with the value of its last pair |
| OtlpCommon.ToJsonValue | backend/src/modules/otlp/types/common.rs:34-60 | the first present field decides: a string as itself, a boolean, an integer text as a number when it fits in 64 bits and otherwise as text, a finite double as a number and a non-finite one as null, an array element by element, a key-value list as an object of its keys; the result is null exactly for an empty value or a lone non-finite double |
| OtlpCommon.AttributesToJson | backend/src/modules/otlp/types/common.rs:123-129 | an object whose keys are exactly the attribute keys, each holding the converted value of the last attribute with that key |
| OtlpCommon.LaterAttributeWins | backend/src/modules/otlp/types/common.rs:123-129 | of two attributes with one key, the second one's value is kept |
| OtlpCommon.FirstWithKey | backend/src/modules/otlp/types/common.rs:94-99 | the position of the first attribute with the key, and none exactly when no attribute has it |
| OtlpCommon.StringAttribute | backend/src/modules/otlp/types/common.rs:94-106 | present exactly when the first attribute with the key holds a string, and then that string; a later string attribute with the same key is not looked at |
| OtlpCommon.ServiceNameIsFirstJsonIsLast | backend/src/modules/otlp/types/common.rs:86-99 | with two "service.name" attributes the service name is the first one but the resource object holds the second one |
| OtlpCommon.TruncRem | backend/src/modules/otlp/conversion/logs.rs:90-91 | Rust's `%`: the remainder left by division rounded toward zero, with the sign of the dividend |
| OtlpCommon.AsU32 | backend/src/modules/otlp/conversion/logs.rs:91 | the `as u32` cast: the value in [0, 2^32) equal to the input modulo 2^32 |
| OtlpCommon.NanoPartIsBelowASecondOrRefused | backend/src/modules/otlp/conversion/logs.rs:90-92 | the nanosecond part is the true remainder below a second for a non-negative or whole-second count, and otherwise wraps to at least two seconds, which `timestamp_opt` refuses |
| OtlpCommon.ParseNanoTimestamp | backend/src/modules/otlp/conversion/logs.rs:84-94 | empty or non-i64 text gives nothing; a non-negative count gives that instant; a negative count gives its instant only when it is a whole number of seconds |
| OtlpCommon.NonNegativeTimestampSplits | backend/src/modules/otlp/conversion/logs.rs:84-94 | every non-negative i64 written in decimal parses back to the same instant, and its split into seconds and nanoseconds is the ordinary one |
| OtlpCommon.NonEmpty | backend/src/modules/otlp/conversion/logs.rs:51-61 | an empty id becomes absent and any other id is kept |
| OtlpLogs.SeverityToLevel | backend/src/modules/otlp/types/logs.rs:70-84 | a non-empty severity text, upper-cased, is the level |
| OtlpLogs.NumberLevelsParse | backend/src/modules/otlp/types/logs.rs:75-83 | without a text, numbers 1 to 24 give the level of rank (n-1)/4 (TRACE up to FATAL) and every other number INFO, and each such level is accepted by the log level parser |
| OtlpLogs.SeverityTextWins | backend/src/modules/otlp/types/logs.rs:71-73 | with a non-empty severity text the level does not depend on the severity number; the text "warn" gives "WARN" whatever the number |
| OtlpLogs.Message | backend/src/modules/otlp/conversion/logs.rs:23-31 | no body gives the empty message, a string body gives itself, and any other body gives the serialisation of its JSON form |
| OtlpLogs.Prefixed | backend/src/modules/otlp/conversion/logs.rs:37-43 | each resource key appears with "resource." in front and its value, and no other key appears |
| OtlpLogs.Metadata | backend/src/modules/otlp/conversion/logs.rs:35-49 | metadata, when present, is an object |
| OtlpLogs.MetadataAbsentIffNoAttributes | backend/src/modules/otlp/conversion/logs.rs:68-72 | the metadata is absent exactly when the record has no attributes and there is no resource or it has none |
| OtlpLogs.MetadataOwnLastWins | backend/src/modules/otlp/conversion/logs.rs:44-49 | a record attribute's key holds the value of its last occurrence, over any resource key |
| OtlpLogs.MetadataHasResourceKeys | backend/src/modules/otlp/conversion/logs.rs:37-43 | every resource attribute's key appears prefixed with "resource." |
| OtlpLogs.MetadataKeysComeFromAttributes | backend/src/modules/otlp/conversion/logs.rs:35-49 | every metadata key is a record attribute key or a "resource."-prefixed key of a present resource |
| OtlpLogs.ConvertLogRecord | backend/src/modules/otlp/conversion/logs.rs:19-75 | the log input has the record's level and message, its time or else its observed time, the resource's service name as source, the merged metadata, and the trace and span ids with empty ones absent |
| OtlpLogs.ScopeInputs | backend/src/modules/otlp/conversion/logs.rs:19-76 | one input per record of the scope, in order |
| OtlpLogs.ResourceInputLists | backend/src/modules/otlp/conversion/logs.rs:18-77 | one list per scope of the resource, in order |
| OtlpLogs.RequestInputLists | backend/src/modules/otlp/conversion/logs.rs:13-78 | one flattened list per resource of the request, in order |
| OtlpLogs.ConvertOtlpLogs | backend/src/modules/otlp/conversion/logs.rs:10-81 | every input is the conversion of some record of the request, and every record's conversion is an input |
| OtlpLogs.OneInputPerRecordInOrder | backend/src/modules/otlp/conversion/logs.rs:10-81 | the output holds exactly one input per record, at the position of that record in resource, scope and record order, converted with its own resource |
| OtlpLogs.SimpleLogConverts | backend/src/modules/otlp/conversion/logs.rs:103-144 | the record with severity 9 and a string body from a "test-service" resource gives an INFO input with that message and source and no ids |
| OtlpMetrics.NumberValue | backend/src/modules/otlp/types/metrics.rs:98-106 | the double value if present, else the integer text's value when it parses, else 0 |
| OtlpMetrics.CountOf | backend/src/modules/otlp/conversion/metrics.rs:137 | the count text's value when it parses as an i64, else 0 |
| OtlpMetrics.ParsedCountsKeepAllIffAllParse | backend/src/modules/otlp/conversion/metrics.rs:131-135 | the parsed bucket counts lose no entry exactly when every count text parses, and then each is its text's value, in order |
| OtlpMetrics.ExemplarIds | backend/src/modules/otlp/conversion/metrics.rs:78-95 | the trace and span ids of the first exemplar, empty ones absent; no exemplar, no ids |
| OtlpMetrics.TagValue | backend/src/modules/otlp/conversion/metrics.rs:216-223 | a string attribute gives its string; any other gives the rendering of its JSON form, and nothing exactly when that form is null |
| OtlpMetrics.InsertTagsKeys | backend/src/modules/otlp/conversion/metrics.rs:214-237 | the keys after inserting are the old ones plus the prefixed key of every attribute that has a tag value |
| OtlpMetrics.InsertTagsLastWins | backend/src/modules/otlp/conversion/metrics.rs:214-237 | the prefixed key of an attribute holds the tag value of the last tagged attribute with that key |
| OtlpMetrics.InsertTagsKeepsOthers | backend/src/modules/otlp/conversion/metrics.rs:214-237 | a key no inserted attribute writes keeps its old value |
| OtlpMetrics.TagKeys | backend/src/modules/otlp/conversion/metrics.rs:207-240 | the tags hold exactly the tagged point attribute keys and the "resource."-prefixed tagged resource attribute keys |
| OtlpMetrics.OwnAttributeWins | backend/src/modules/otlp/conversion/metrics.rs:227-237 | a point attribute's key holds the tag value of its last tagged occurrence, over any resource tag of the same name |
| OtlpMetrics.ResourceAttributeTagged | backend/src/modules/otlp/conversion/metrics.rs:213-225 | a tagged resource attribute appears under "resource." plus its key, with its last value, unless a point attribute has that whole key |
| OtlpMetrics.Quantiles | backend/src/modules/otlp/conversion/metrics.rs:194 | the bounds of a summary point are its quantiles, in order |
| OtlpMetrics.Zeros | backend/src/modules/otlp/conversion/metrics.rs:195 | one zero count per quantile |
| OtlpMetrics.GaugeInputs | backend/src/modules/otlp/conversion/metrics.rs:32-63 | one input per gauge point, in order |
| OtlpMetrics.SumInputs | backend/src/modules/otlp/conversion/metrics.rs:66-123 | one input per sum point, in order |
| OtlpMetrics.HistogramInputs | backend/src/modules/otlp/conversion/metrics.rs:126-168 | one input per histogram point, in order |
| OtlpMetrics.SummaryInputs | backend/src/modules/otlp/conversion/metrics.rs:171-204 | one input per summary point, in order |
| OtlpMetrics.ConvertOtlpMetric | backend/src/modules/otlp/conversion/metrics.rs:26-205 | one input per gauge, sum, histogram and summary point of the metric |
| OtlpMetrics.ConvertedMetricLayout | backend/src/modules/otlp/conversion/metrics.rs:26-205 | a metric gives one input per gauge, sum, histogram and summary point, in that order, and the gauge's points come first |
| OtlpMetrics.SumPointsFollowGauge | backend/src/modules/otlp/conversion/metrics.rs:66-123 | the sum's i-th point is converted right after all gauge points |
| OtlpMetrics.HistogramPointsFollowSum | backend/src/modules/otlp/conversion/metrics.rs:126-168 | the histogram's i-th point follows all gauge and sum points |
| OtlpMetrics.SummaryPointsComeLast | backend/src/modules/otlp/conversion/metrics.rs:171-204 | the summary's i-th point follows all other points |
| OtlpMetrics.ExponentialHistogramIsDropped | backend/src/modules/otlp/conversion/metrics.rs:26-205 | a metric with only an exponential histogram gives no input |
| OtlpMetrics.NumberPointsAccepted | backend/src/modules/otlp/conversion/metrics.rs:32-123 | gauge and sum inputs always pass ingestion, as gauge or, for a monotonic sum, counter, with the point's value, no histogram data, and a sum's exemplar ids |
| OtlpMetrics.HistogramPointAcceptedIff | backend/src/modules/otlp/conversion/metrics.rs:126-168 | a histogram input passes ingestion exactly when the parsed counts fit the bounds, the bounds ascend strictly and the count is not negative; its value is the sum or 0 |
| OtlpMetrics.WellFormedHistogramAccepted | backend/src/modules/otlp/conversion/metrics.rs:131-163 | a point whose counts all parse and number one more than the bounds is stored with exactly those counts |
| OtlpMetrics.SummaryPointAcceptedIff | backend/src/modules/otlp/conversion/metrics.rs:171-204 | a summary input passes ingestion exactly when its quantiles ascend strictly and its count is not negative, and is stored as a histogram with zero counts and the point's sum |
| OtlpMetrics.ScopeInputLists | backend/src/modules/otlp/conversion/metrics.rs:16-20 | one list per metric of the scope, in order |
| OtlpMetrics.ResourceInputLists | backend/src/modules/otlp/conversion/metrics.rs:15-21 | one flattened list per scope of the resource, in order |
| OtlpMetrics.RequestInputLists | backend/src/modules/otlp/conversion/metrics.rs:13-22 | one flattened list per resource of the request, in order |
| OtlpMetrics.ConvertOtlpMetrics | backend/src/modules/otlp/conversion/metrics.rs:10-24 | every input is one converted from some metric of the request, and every input converted from any of its metrics is there |
| OtlpMetrics.OneInputPerPointInOrder | backend/src/modules/otlp/conversion/metrics.rs:10-24 | every input of every metric appears in the output at its place in resource, scope, metric and point order |
| OtlpTraces.KindToString | backend/src/modules/otlp/types/traces.rs:79-88 | every kind number gives a name the span kind parser accepts |
| OtlpTraces.CodeToString | backend/src/modules/otlp/types/traces.rs:136-142 | every status code gives a name the span status parser accepts |
| OtlpTraces.KindNumbersRoundTrip | backend/src/modules/otlp/types/traces.rs:79-88 | the name of a kind's number parses back to that kind, and a number outside 1 to 5 reads as internal |
| OtlpTraces.CodeNumbersRoundTrip | backend/src/modules/otlp/types/traces.rs:136-142 | the name of a status's code parses back to that status, and a code outside 0 to 2 reads as unset |
| OtlpTraces.KindOfNumber | backend/src/modules/otlp/types/traces.rs:79-88 | numbers 1 to 5 parse back to the kind with that number, and every other number to internal |
| OtlpTraces.CodeOfNumber | backend/src/modules/otlp/types/traces.rs:136-142 | codes 0 to 2 parse back to the status with that code, and every other code to unset |
| OtlpTraces.ConvertEvent | backend/src/modules/otlp/conversion/traces.rs:48-54 | an event is kept exactly when its time parses, with its name, that time and its attributes as an object |
| OtlpTraces.AllEventsKeptIffAllParse | backend/src/modules/otlp/conversion/traces.rs:45-55 | no event is dropped exactly when every event time parses, and then the events are converted in order |
| OtlpTraces.EventsDistribute | backend/src/modules/otlp/conversion/traces.rs:45-55 | converting a list is converting its parts, one event giving itself or nothing |
| OtlpTraces.ConvertLinks | backend/src/modules/otlp/conversion/traces.rs:57-65 | one link per link, in order, with its trace and span ids and its attributes as an object |
| OtlpTraces.ResourceAttributes | backend/src/modules/otlp/conversion/traces.rs:17 | the resource's attributes as an object, or an empty object without a resource |
| OtlpTraces.StatusMessage | backend/src/modules/otlp/conversion/traces.rs:31-35 | present exactly when there is a status with a non-empty message, and then that message |
| OtlpTraces.ConvertOtlpSpan | backend/src/modules/otlp/conversion/traces.rs:20-85 | the input keeps the ids and name, has no parent for an empty parent id, the kind's name, the start time or else now, the end time when it parses, the status name exactly when there is a status, the resource's service name and version and attributes, and the converted attributes, events and links |
| OtlpTraces.ConvertedSpanIsAccepted | backend/src/modules/otlp/conversion/traces.rs:67-85 | every converted span passes the span service's conversion, with the kind and status of its numbers, out-of-range numbers reading as internal and unset |
| OtlpTraces.ScopeInputs | backend/src/modules/otlp/conversion/traces.rs:20-86 | one input per span of the scope, in order |
| OtlpTraces.ResourceInputLists | backend/src/modules/otlp/conversion/traces.rs:19-87 | one list per scope of the resource, in order |
| OtlpTraces.RequestInputLists | backend/src/modules/otlp/conversion/traces.rs:13-88 | one flattened list per resource of the request, in order |
| OtlpTraces.ConvertOtlpTraces | backend/src/modules/otlp/conversion/traces.rs:10-91 | every input is the conversion of some span of the request, and every span's conversion is an input |
| OtlpTraces.OneInputPerSpanInOrder | backend/src/modules/otlp/conversion/traces.rs:10-91 | the output holds exactly one input per span, at its place in resource, scope and span order, converted with its own resource |
| OtlpTraces.SimpleSpanConverts | backend/src/modules/otlp/conversion/traces.rs:113-162 | the server span with status code 1 from a "test-service" resource gives kind "server", status "ok", that service name, and no parent or status message |
| ProjectDomain.NewProjectName | backend/src/modules/projects/domain/project/value_objects.rs:34-51 | accepted exactly when the trimmed name is non-empty and at most 100 bytes, keeping the trimmed text; a refusal carries the reason |
| ProjectDomain.NewApiKeyName | backend/src/modules/projects/domain/api_key/value_objects.rs:34-51 | the same rule as project names, refused as an invalid key name |
| ProjectDomain.NewRetentionDays | backend/src/modules/projects/domain/project/value_objects.rs:66-162 | a retention of each kind is accepted unchanged exactly when it lies between 1 and that kind's maximum |
| ProjectDomain.RetentionDefaults | backend/src/modules/projects/domain/project/value_objects.rs:66-205 | each default (logs 30, metrics 90, traces 14) is accepted; 0 and -1 are refused; logs allow 365 but not 366, traces 90 but not 91 |
| ProjectDomain.NewProject | backend/src/modules/projects/domain/project/entity.rs:24-46 | a new project is live, created and updated now, with the given fields |
| ProjectDomain.UpdateProject | backend/src/modules/projects/domain/project/entity.rs:123-147 | each given field replaces the old one and each absent field keeps it; identity, creation and deletion stay and the update time is now |
| ProjectDomain.UpdatesCompose | backend/src/modules/projects/domain/project/entity.rs:123-147 | two updates are one update with the later fields winning, an empty update only moves the update time, repeating an update changes nothing more, and validated fields keep a project well formed |
| ProjectDomain.SoftDeleteProject | backend/src/modules/projects/domain/project/entity.rs:150-158 | succeeds exactly for a live project, which becomes deleted now with nothing else changed but the update time; otherwise `ProjectAlreadyDeleted` |
| ProjectDomain.ProjectDeletesOnce | backend/src/modules/projects/domain/project/entity.rs:213-228 | a new project can be deleted once and the second deletion is refused |
| ProjectDomain.PrefixFromKey | backend/src/modules/projects/domain/api_key/value_objects.rs:71-77 | the prefix is "alt_pk_" followed by at most eight characters, as many as the key has after its "alt_pk_" or, without it, from its start |
| ProjectDomain.PrefixFromKeySpec | backend/src/modules/projects/domain/api_key/value_objects.rs:71-77 | for a key "alt_pk_" + secret the prefix is "alt_pk_" + the first eight characters of the secret, and taking the prefix of a prefix changes nothing |
| ProjectDomain.PrefixVectors | backend/src/modules/projects/domain/api_key/value_objects.rs:112-123 | "alt_pk_abcdefghijklmnop1234567890" gives "alt_pk_abcdefgh" and "alt_pk_abc" gives itself |
| ProjectDomain.NewApiKey | backend/src/modules/projects/domain/api_key/entity.rs:21-39 | a new key is not revoked, created now, with the given fields and expiry |
| ProjectDomain.RevokeKey | backend/src/modules/projects/domain/api_key/entity.rs:113-117 | the key ends revoked and unusable; a revoked key is unchanged, another gets the revocation time now, and nothing else changes |
| ProjectDomain.ApiKeyLifecycle | backend/src/modules/projects/domain/api_key/entity.rs:98-117 | revoking twice keeps the first time, expiry is lasting and not reached at the expiry instant, a new key without expiry is usable, and a key is usable exactly when not revoked and not past its expiry |
| ProjectService.FindKeyById | backend/src/modules/projects/infrastructure/persistence/postgres_api_key_repo.rs:40-55 | the key with that id when there is one, and nothing exactly when no key has it |
| ProjectService.FindKeyByHash | backend/src/modules/projects/infrastructure/persistence/postgres_api_key_repo.rs:57-73 | a found key has the hash and is not revoked, and nothing is found exactly when every key with the hash is revoked |
| ProjectService.SaveKey | backend/src/modules/projects/infrastructure/persistence/postgres_api_key_repo.rs:95-118 | the saved key is stored, replacing any key with its id, and every other key stays |
| ProjectService.SaveStoredKey | backend/src/modules/projects/infrastructure/persistence/postgres_api_key_repo.rs:95-118 | saving a key that is already stored, alone under its id, changes nothing |
| ProjectService.VerifyOrgMembership | backend/src/modules/projects/application/services/project_service.rs:59-92 | granted exactly for a member of a live organisation who, when admin rights are asked, may update it, giving their role; a plain Member asking for admin rights gets `InsufficientPermissions`, everyone else `NotOrgMember` |
| ProjectService.AdminAccessImpliesMemberAccess | backend/src/modules/projects/application/services/project_service.rs:59-92 | admin access implies member access with the same role, and a plain Member is refused admin access |
| ProjectService.VerifyProjectAccess | backend/src/modules/projects/application/services/project_service.rs:95-116 | a missing or deleted project is `ProjectNotFound`; otherwise the membership check of its organisation decides, giving the project |
| ProjectService.CreateProject | backend/src/modules/projects/application/services/project_service.rs:136-187 | admin rights, a valid name, a name not taken case-insensitively in the organisation and a valid retention are checked in that order, each failure changing nothing; success stores one live project with the trimmed name, the given or default log retention and the default metrics and traces retentions |
| ProjectService.DuplicateNameIsRefused | backend/src/modules/projects/application/services/project_service.rs:149-156 | right after a project is created, another with the same name up to case and surrounding spaces is `ProjectAlreadyExists` |
| ProjectService.ListProjects | backend/src/modules/projects/application/services/project_service.rs:190-217 | a member of the organisation gets exactly its live projects; anyone else `NotOrgMember` |
| ProjectService.GetProject | backend/src/modules/projects/application/services/project_service.rs:220-239 | the project, exactly when it is live and the caller is a member of its organisation |
| ProjectService.UpdateProjectCmd | backend/src/modules/projects/application/services/project_service.rs:242-288 | admin access, a valid name not taken by another project of the organisation and a valid retention are checked in that order, each failure changing nothing; success applies the trimmed name, description and retention and saves the project |
| ProjectService.RenameToOwnNameIsAllowed | backend/src/modules/projects/application/services/project_service.rs:254-266 | renaming a project to its own name is not a clash |
| ProjectService.DeleteProjectCmd | backend/src/modules/projects/application/services/project_service.rs:291-307 | succeeds exactly with admin access to a live project, which becomes deleted; otherwise the access error and no change |
| ProjectService.GenerateApiKey | backend/src/modules/projects/application/services/project_service.rs:119-124 | the key is "alt_pk_" followed by 43 URL-safe base64 characters, and its prefix is its first 15 characters |
| ProjectService.CreateApiKey | backend/src/modules/projects/application/services/project_service.rs:312-358 | succeeds exactly with admin access and a valid name; the stored key has the hash and prefix of the returned plain key, the trimmed name, no revocation, and the expiry the given number of days after now |
| ProjectService.ListApiKeys | backend/src/modules/projects/application/services/project_service.rs:361-386 | a member gets exactly the project's keys, each marked active exactly when usable now |
| ProjectService.KeysOfProject | backend/src/modules/projects/application/services/project_service.rs:373-385 | exactly the project's keys, each with whether it is usable now |
| ProjectService.RevokeApiKey | backend/src/modules/projects/application/services/project_service.rs:389-413 | with admin access, a missing key or a key of another project is `ApiKeyNotFound`; otherwise the key is revoked and saved |
| ProjectService.RevokeTwiceKeepsFirst | backend/src/modules/projects/application/services/project_service.rs:389-413 | revoking a revoked key succeeds and changes nothing |
| ProjectService.ValidateFoundKey | backend/src/modules/projects/application/services/project_service.rs:430-452 | no key is `ApiKeyInvalid`, then revoked, expired and a missing or deleted project are refused in that order; otherwise the key's project |
| ProjectService.ValidateApiKey | backend/src/modules/projects/application/services/project_service.rs:416-453 | a success is the live project of a usable stored key with the key's hash; the refusal is `ApiKeyInvalid` exactly when every key with that hash is revoked, and `ApiKeyRevoked` never happens |
| ProjectService.CreatedKeyValidates | backend/src/modules/projects/application/services/project_service.rs:312-453 | a freshly created key, with a non-negative expiry and a hash no other live key has, validates to its project |
| ProjectService.RevokedKeyIsInvalid | backend/src/modules/projects/application/services/project_service.rs:389-453 | once the only key with a hash is revoked, that plain key is `ApiKeyInvalid` |
| ProjectService.DeletedProjectIsGone | backend/src/modules/projects/application/services/project_service.rs:220-453 | after a deletion the project is not found by get, delete or update, and none of its keys validates |
| Retention.MetricsCycle | backend/src/modules/retention/mod.rs:30-37 | when the active projects cannot be listed, the cycle deletes nothing |
| Retention.MetricsSweepKeepsSurvivors | backend/src/modules/retention/mod.rs:39-61 | after the loop exactly the points no successful deletion reached remain, each project's cutoff being its clock reading minus its metrics retention in days, and the count is the number of points removed |
| Retention.MetricsCycleFacts | backend/src/modules/retention/mod.rs:17-63 | a point of an unlisted project, or at or after every cutoff of its project, survives; a point older than the cutoff of a listed project whose deletion went through is gone |
| Retention.TracesCycle | backend/src/modules/retention/mod.rs:80-87 | when the active projects cannot be listed, the cycle deletes nothing |
| Retention.TracesSweepKeepsSurvivors | backend/src/modules/retention/mod.rs:89-111 | after the loop exactly the spans no successful deletion reached remain, by start time against each project's traces retention, and the count is the number removed |
| Retention.TracesCycleFacts | backend/src/modules/retention/mod.rs:67-113 | a span of an unlisted project, or starting at or after every cutoff of its project, survives; a span that started before the cutoff of a listed project whose deletion went through is gone |
| SpanValues.KindFromStr | backend/src/modules/traces/domain/span/value_objects.rs:14-26 | a kind name parses exactly when its lower-case form is one of the five kind names, and then names the kind parsed; anything else is refused with the text given |
| SpanValues.KindRoundTrip | backend/src/modules/traces/domain/span/value_objects.rs:14-36 | every span kind's name parses back to that kind |
| SpanValues.StatusFromStr | backend/src/modules/traces/domain/span/value_objects.rs:54-64 | a status name parses exactly when its lower-case form is unset, ok or error; anything else is refused with the text given |
| SpanValues.StatusRoundTrip | backend/src/modules/traces/domain/span/value_objects.rs:54-72 | every status code's name parses back to that code |
| SpanValues.UnknownNamesRefused | backend/src/modules/traces/domain/span/value_objects.rs:105-121 | "invalid" is refused as a kind and as a status, and an upper-case kind name is accepted |
| SpanValues.DurationOf | backend/src/modules/traces/domain/span/entity.rs:53-56 | a span has a duration exactly when it has an end time, and start plus duration is the end |
| SpanValues.NewSpan | backend/src/modules/traces/domain/span/entity.rs:34-79 | a new span keeps every field given, stamps the receive time with the clock, and its duration is present exactly when the end time is and spans start to end |
| SpanValues.EndBeforeStartGivesNegativeDuration | backend/src/modules/traces/domain/span/entity.rs:53-56 | an end time before the start gives a negative duration rather than a refusal |
| SpanStore.RowOf | backend/src/modules/traces/infrastructure/persistence/timescale_span_repo.rs:69-102 | the row written for a span stores its kind and status by name, its identifiers, times and duration unchanged, and the clock as receive time |
| SpanStore.RowToSpan | backend/src/modules/traces/infrastructure/persistence/timescale_span_repo.rs:22-51 | a stored row reads back exactly when its kind and status names parse, the kind error first; the span read keeps the row's times, trace, project and service and recomputes a consistent duration |
| SpanStore.ReadBackResetsReceivedAt | backend/src/modules/traces/infrastructure/persistence/timescale_span_repo.rs:22-102 | a span written and read back is the same span except that its receive time is the clock at reading |
| Ordering.SortBy | backend/src/modules/traces/infrastructure/persistence/timescale_span_repo.rs:129 | `ORDER BY` on an integer key: a permutation of the input in ascending key order |
| Ordering.SortedMembers | backend/src/modules/traces/infrastructure/persistence/timescale_span_repo.rs:129 | sorting keeps exactly the elements of the input and its length |
| Ordering.LexTotal | backend/src/modules/traces/infrastructure/persistence/timescale_span_repo.rs:193 | any two texts are comparable in code-point order |
| Ordering.LexTransitive | backend/src/modules/traces/infrastructure/persistence/timescale_span_repo.rs:193 | code-point order on texts is transitive |
| Ordering.LexAntisymmetric | backend/src/modules/traces/infrastructure/persistence/timescale_span_repo.rs:193 | two texts each no later than the other are equal |
| Ordering.Least | backend/src/modules/traces/infrastructure/persistence/timescale_span_repo.rs:193 | `MIN` over texts: none exactly for no text, otherwise one of the texts that sorts no later than any of them |
| Ordering.LeastIgnoresOrder | backend/src/modules/traces/infrastructure/persistence/timescale_span_repo.rs:193 | the least text depends only on which texts there are, not their order or repeats |
| SpanStore.InsertAll | backend/src/modules/traces/infrastructure/persistence/timescale_span_repo.rs:69-108 | inserting a batch keeps every existing row in place, adds only rows of the batch, and leaves the stored keys the union of old and new keys (a row whose key exists is skipped) |
| SpanStore.RowsOf | backend/src/modules/traces/infrastructure/persistence/timescale_span_repo.rs:69-102 | one row per span of the batch, in order |
| SpanStore.SaveBatch | backend/src/modules/traces/infrastructure/persistence/timescale_span_repo.rs:56-115 | an empty batch saves nothing and reports 0; otherwise the batch is stored and its full length reported exactly when every insert and the commit succeed, and any failure leaves the table as it was |
| SpanStore.ResavedBatchReportsFullCount | backend/src/modules/traces/infrastructure/persistence/timescale_span_repo.rs:81-114 | saving a batch whose keys are all stored already inserts nothing yet still reports the batch's length |
| SpanStore.NothingNewInserted | backend/src/modules/traces/infrastructure/persistence/timescale_span_repo.rs:81 | a batch whose keys are all present leaves the table unchanged |
| SpanStore.TraceRows | backend/src/modules/traces/infrastructure/persistence/timescale_span_repo.rs:127-128 | the rows selected for a trace are exactly the stored rows of that project and trace |
| SpanStore.OrderedTraceRows | backend/src/modules/traces/infrastructure/persistence/timescale_span_repo.rs:122-130 | the trace's rows ordered by ascending start time, as a permutation of the selection |
| SpanStore.GetTrace | backend/src/modules/traces/infrastructure/persistence/timescale_span_repo.rs:117-139 | reading a trace succeeds exactly when every selected row reads back, and then gives one span per row in start-time order |
| SpanStore.GetTraceIsTheTrace | backend/src/modules/traces/infrastructure/persistence/timescale_span_repo.rs:117-139 | every span read belongs to the project and trace asked for, they come in ascending start time, and there is one per stored row of the trace |
| SpanStore.ServiceNames | backend/src/modules/traces/infrastructure/persistence/timescale_span_repo.rs:303-321 | the service names listed are exactly the names set on some span of the project |
| SpanStore.DeleteBefore | backend/src/modules/traces/infrastructure/persistence/timescale_span_repo.rs:323-341 | deletion removes exactly the project's spans that started before the instant, keeps all others, and reports how many went |
| SpanSearch.WhereConditions | backend/src/modules/traces/infrastructure/persistence/timescale_span_repo.rs:147-178 | the WHERE clause starts with the project condition at $1 and then has one condition per filter present, numbered consecutively in the order of the filters |
| SpanSearch.BindsFollowPlaceholders | backend/src/modules/traces/infrastructure/persistence/timescale_span_repo.rs:207-239 | the value bound at each placeholder is the value of the filter that placeholder belongs to, and limit and offset are bound at the next two placeholders |
| SpanSearch.Filtered | backend/src/modules/traces/infrastructure/persistence/timescale_span_repo.rs:147-189 | a span is selected exactly when it belongs to the project and satisfies every filter present, the span name through `name ILIKE '%' || filter || '%'` with the filter's `%`, `_` and `\` acting as pattern characters |
| SpanSearch.PercentMatchesAll | backend/src/modules/traces/infrastructure/persistence/timescale_span_repo.rs:219-221 | the pattern `%` matches every text |
| SpanSearch.LiteralThenPercent | backend/src/modules/traces/infrastructure/persistence/timescale_span_repo.rs:219-221 | a pattern without pattern characters followed by `%` matches exactly the texts it starts |
| SpanSearch.PercentThen | backend/src/modules/traces/infrastructure/persistence/timescale_span_repo.rs:219-221 | a leading `%` matches exactly when the rest matches some suffix |
| SpanSearch.LiteralNamePattern | backend/src/modules/traces/infrastructure/persistence/timescale_span_repo.rs:219-221 | for a filter without pattern characters, the bound pattern matches exactly the texts containing it |
| SpanSearch.PlainSpanNameIsSubstring | backend/src/modules/traces/infrastructure/persistence/timescale_span_repo.rs:154-156 | for such a filter, ILIKE selects a span exactly when its lower-cased name contains the lower-cased filter |
| SpanSearch.UnderscoreIsWildcard | backend/src/modules/traces/infrastructure/persistence/timescale_span_repo.rs:219-221 | the filter "a_c" selects the span name "abc", which does not contain "a_c": `_` matches any one character |
| SpanSearch.DistinctTraceIds | backend/src/modules/traces/infrastructure/persistence/timescale_span_repo.rs:246-254 | the traces counted are the trace ids of the selected spans, each once |
| SpanSearch.SummaryFacts | backend/src/modules/traces/infrastructure/persistence/timescale_span_repo.rs:190-201 | a trace summary counts the trace's selected spans and its error spans; names a root span exactly when one has no parent, and then the name of a root that sorts no later than every other root's name; lists exactly the services present; and takes the earliest start, the latest end and their difference |
| SpanSearch.RootNames | backend/src/modules/traces/infrastructure/persistence/timescale_span_repo.rs:193 | the names of exactly the spans without a parent, empty exactly when every span has one |
| SpanSearch.LeastRootName | backend/src/modules/traces/infrastructure/persistence/timescale_span_repo.rs:193 | the least root name sorts no later than the name of any root span |
| SpanSearch.RootSpanName | backend/src/modules/traces/infrastructure/persistence/timescale_span_repo.rs:193 | none exactly when every span has a parent; otherwise the name of a root span sorting no later than every root's name |
| SpanSearch.Summarize | backend/src/modules/traces/infrastructure/persistence/timescale_span_repo.rs:190-201 | the summary carries the trace id and counts every span of the group |
| SpanSearch.RootNameIsLeastNotFirst | backend/src/modules/traces/infrastructure/persistence/timescale_span_repo.rs:193 | roots "zeta" then "alpha" report "alpha": the least name, not the first stored |
| SpanSearch.SearchTraces | backend/src/modules/traces/infrastructure/persistence/timescale_span_repo.rs:141-301 | read with `service_names` defaulting to empty: a search fails only on a negative limit or offset; otherwise the total is the number of distinct selected traces and the page holds at most limit summaries of selected traces, newest start first |
| SpanSearch.DecodeSummaries | backend/src/modules/traces/infrastructure/persistence/models.rs:31-40 | decoding the rows fails with an internal error exactly when some summary has no service name, and otherwise gives the page unchanged |
| SpanSearch.SearchTracesAsWritten | backend/src/modules/traces/infrastructure/persistence/timescale_span_repo.rs:194 | as written, the search fails exactly when the corrected one does or a trace on the page has no service name; otherwise the two agree |
| SpanSearch.NamelessTraceFailsSearch | backend/src/modules/traces/infrastructure/persistence/timescale_span_repo.rs:194 | as written, a page trace none of whose spans has a service name makes the whole search fail though the corrected search succeeds |
| SpanSearch.SingleNamelessSpanFailsSearch | backend/src/modules/traces/infrastructure/persistence/timescale_span_repo.rs:194 | as written, one selected span without a service name makes a first-page search fail |
| SpanSearch.SearchPageFacts | backend/src/modules/traces/infrastructure/persistence/timescale_span_repo.rs:203-207 | a page cut from the start-descending list has at most limit entries, keeps the order and holds only summaries of selected traces |
| TraceService.VerifyTraceAccess | backend/src/modules/traces/application/services/trace_service.rs:49-79 | access is granted exactly when the project exists, is not deleted and the user is a member of its organisation; a missing or deleted project is not found, anything else is not authorised |
| TraceService.InputKind | backend/src/modules/traces/application/services/trace_service.rs:131-136 | an absent kind defaults to internal; a given kind parses as a span kind name or fails the ingest with that text |
| TraceService.InputStatus | backend/src/modules/traces/application/services/trace_service.rs:138-143 | an absent status defaults to unset; a given status parses as a status name or fails the ingest with that text |
| TraceService.ConvertSpan | backend/src/modules/traces/application/services/trace_service.rs:130-185 | an input span converts exactly when its kind and status parse, the kind error first, into a span carrying every input field, the project and a fresh id |
| TraceService.Ingest | backend/src/modules/traces/application/services/trace_service.rs:122-191 | any input that does not convert fails the whole batch with nothing stored; a successful ingest stores the converted spans in input order and reports one per input |
| TraceService.AbsentKindAndStatusDefault | backend/src/modules/traces/application/services/trace_service.rs:131-143 | an input without kind or status is stored as an internal span with unset status |
| TraceService.InvalidKindAbortsBatch | backend/src/modules/traces/application/services/trace_service.rs:130-136 | the first input with an unknown kind stops the ingest with that kind's error and stores nothing |
| TraceService.InvalidStatusAbortsBatch | backend/src/modules/traces/application/services/trace_service.rs:138-143 | the first input with an unknown status (and a valid kind) stops the ingest with that status's error and stores nothing |
| TraceService.MillisToNanos | backend/src/modules/traces/application/services/trace_service.rs:215-216 | a duration filter given in milliseconds becomes exactly that many milliseconds in nanoseconds |
| TraceService.SearchPagination | backend/src/modules/traces/application/services/trace_service.rs:219-222 | the page size defaults to 100 and is capped at 1000, and the offset defaults to 0 |
| TraceService.SearchFilters | backend/src/modules/traces/application/services/trace_service.rs:209-217 | the repository filters carry the request's filters, with the parsed status and durations converted to nanoseconds |
| TraceService.NanosToMillis | backend/src/modules/traces/application/services/trace_service.rs:240 | a duration in nanoseconds is reported as the same duration in (fractional) milliseconds |
| TraceService.SummaryResponse | backend/src/modules/traces/application/services/trace_service.rs:232-241 | a summary is reported with every field of the repository summary and its duration in milliseconds |
| TraceService.SearchTraces | backend/src/modules/traces/application/services/trace_service.rs:194-248 | a search needs project access and a valid status filter; it then reports the repository's total and one response per summary found |
| TraceService.SearchPageIsCapped | backend/src/modules/traces/application/services/trace_service.rs:219-227 | a successful search never returns more than 1000 traces, nor more than 100 when no limit is given |
| TraceService.NegativePagingFails | backend/src/modules/traces/application/services/trace_service.rs:219-227 | a negative limit or offset makes an otherwise valid search fail |
| TraceService.TraceDurationNs | backend/src/modules/traces/application/services/trace_service.rs:271-281 | a trace has a duration exactly when some span has an end time |
| TraceService.TraceDurationIsExtent | backend/src/modules/traces/application/services/trace_service.rs:271-281 | a trace's duration is the latest end time of its spans minus their earliest start time |
| TraceService.TraceServices | backend/src/modules/traces/application/services/trace_service.rs:262-269 | the services of a trace are exactly the service names set on its spans |
| TraceService.GetTrace | backend/src/modules/traces/application/services/trace_service.rs:251-291 | reading a trace needs project access; a trace without spans is not found; otherwise it returns the stored spans, their services and the trace's duration |
| TraceService.UnknownTraceIsNotFound | backend/src/modules/traces/application/services/trace_service.rs:251-260 | a trace id with no stored span of the project is reported not found |
| TraceService.ReadTraceHasItsSpans | backend/src/modules/traces/application/services/trace_service.rs:251-291 | a trace read has one span per stored span of that project and trace, all of them from that trace, in ascending start time |
| TraceService.ListServices | backend/src/modules/traces/application/services/trace_service.rs:293-305 | listing services needs project access and then gives exactly the service names used by the project's spans |
| Text.Trim | backend/src/modules/logging/domain/filter_preset/value_objects.rs:31 | the trimmed name is no longer than the input and neither starts nor ends with Unicode whitespace |
| Text.TrimSpec | backend/src/modules/logging/domain/filter_preset/value_objects.rs:31 | the trimmed name is a slice of the input, and everything cut off before and after it is whitespace |
| Text.TrimIsIdempotent | backend/src/modules/logging/domain/filter_preset/value_objects.rs:31 | trimming a trimmed name changes nothing |
| Text.TrimEmptyIffBlank | backend/src/modules/logging/domain/filter_preset/value_objects.rs:31-36 | a name trims to nothing exactly when it is all whitespace |
| Text.ParseI64 | backend/src/modules/otlp/types/common.rs:40 | a parsed integer lies in the 64-bit signed range |
| Text.ParseI64OfIntToString | backend/src/modules/otlp/types/common.rs:40-41 | a 64-bit integer written in decimal parses back to itself |

## Left out

- HTTP handlers, routing, DTO (de)serialisation, the database pool, transactions other than their all-or-nothing effect, `tracing` logs and background scheduling (the loops' sleep and interval) are not modelled; each task is one cycle over explicit inputs.
- Concurrency: every operation runs alone against the store, so races between requests (two evaluators, two concurrent invites) are out of scope.
- The clock, id generators, the random organisation-slug suffix, the random bytes of an API key and the webhook HTTP delivery are parameters; webhook delivery failures are a parameter and never abort the others.
- SHA-256 hashing of API keys and refresh tokens, JWT signing and password hashing are parameters or left out; the model assumes nothing about the hash beyond being a function.
- JSON serialisation of a non-string value (a log body, an attribute rendered as a tag, span events and links stored as JSON) is a parameter; the JSON decode of stored events and links is assumed to succeed.
- Unicode: case mapping and `is_alphanumeric` are ASCII-only (non-ASCII characters unchanged, not alphanumeric), except for the as-written slug generator of the findings; SQL `ILIKE` and `LOWER` are modelled with the same ASCII mapping, where PostgreSQL folds case by the database locale. Whitespace for `trim` is the full Unicode White_Space set.
- Floating point: `f64` is `real`, so NaN, the infinities and rounding are not represented; `EXTRACT(EPOCH …)` and the nanosecond-to-millisecond division are exact.
- Integer widths: `i64` and `u32` overflow is not modelled except in `parse_nano_timestamp`, whose truncating division and `as u32` cast are written out; the range of chrono's `Duration` (the `unwrap_or(0)` of `num_nanoseconds`) is not modelled.
- Ties under `ORDER BY`: rows with equal sort keys come back in an order the model fixes (storage order or a stable sort), where the database leaves it unspecified.
- Collation: `MIN(name)` and every text comparison use code-point order, where PostgreSQL uses the database collation.
- List orders: the reads of projects, API keys, alert rules, channels, members, invites, presets and activities are modelled in storage order, whatever their `ORDER BY`; no operation of the model depends on that order. The log query's order is a parameter of the query (`ORDER BY timestamp` ascending or descending) and is modelled by the sort field it names.
- AlertEvaluator.FindFiring: takes the last stored firing alert of a rule, where the SQL takes the newest by trigger time; the two agree whenever a rule has at most one firing alert, which the evaluator keeps.
- Repository failures: every repository read and write other than the batch inserts, the trigger and resolve commits and the retention listing (for example the span and summary reads of `trace_service.rs`) is assumed to succeed; a database error there would surface as an internal error, which the model does not produce.
- Auth.NewPassword: the upper- and lower-case checks are ASCII `A`–`Z` and `a`–`z`, whereas `char::is_uppercase` and `char::is_lowercase` also accept other Unicode letters; a password whose only capital is, say, "É" is refused by the model and accepted by the code.
- SpanStore.ReadBackResetsReceivedAt: instants are whole nanoseconds and a written span reads back with its start and end unchanged, whereas `timestamptz` keeps microseconds and drops the rest; likewise the `ON CONFLICT (project_id, start_time, id)` key of the model tells apart two start times within one microsecond, which the database stores as one.
- Organisation service: `create_personal_org`, `list_user_orgs`, `get_default_org_for_user` and `list_activities` are not modelled; they are reads or a variant of `create_org` with no rule of their own. Failures of the activity-log save are ignored by the code and never occur in the model.
- Invite service: `list_org_invites`, `list_user_invites` and `count_user_invites` are not modelled; they are filtered reads.
- Project service: it calls `Project::new` and `Project::update` with fewer arguments than the entity declares; the model creates projects with the default metrics and traces retention and leaves them untouched on update.
- OTLP metrics: exponential histograms are dropped, as in the code.
- Metrics query: the repository ignores the metric-type and tag filters of the query, and so does the model.
- OtlpMetrics.NumberValue: reads the integer text with the `i64` grammar, whereas the code parses it as an `f64`, which also accepts decimals, exponents and "inf"; OTLP sends integers in that field.
- ProjectService.SaveKey: replaces the whole stored row, whereas the upsert only updates the name and the revocation time; the only re-save in the code is a revocation, which changes nothing else.
- MetricsService.InputHistogram: the histogram half of a metric input is built as the code builds it, with no contract of its own; its properties are stated by the ingest members.
- Left out of the traces domain: `Span::reconstruct` (read-back builds spans with `Span::new`, which is what the repository calls) and the `SpanResponse` rendering of events and links.

## Findings

| source | as written | input that shows it | evidently intended | confidence | as-written member | corrected member |
|---|---|---|---|---|---|---|
| backend/src/modules/alerts/infrastructure/evaluator/rule_evaluator.rs:116-119 | the trigger path saves a rule built from the copy read before `mark_evaluated`, so the second write restores the old `last_evaluated_at` | a never-evaluated enabled rule whose condition holds on its first pass is stored with no `last_evaluated_at` | a triggered rule records both its evaluation and its trigger time | not executed | AlertEvaluator.TriggerLosesEvaluationTime, AlertEvaluator.TriggerLosesEvaluationTimeExample | AlertEvaluator.EvaluateRuleStampsTheRule |
| backend/src/modules/alerts/infrastructure/evaluator/rule_evaluator.rs:155-210 | a "levels" list none of whose entries parses leaves an empty level filter, which the clause builder drops, so every log counts as an error | an error-rate rule with levels ["bogus"] and one log in the window reads 100% | no parsed level counts no errors, a rate of 0 | not executed | AlertEvaluator.UnparsableLevelsReadAsAllErrors, AlertEvaluator.UnparsableLevelsExample | AlertEvaluator.ErrorRateCountsOnlyConfiguredLevels, AlertEvaluator.ErrorRateReading |
| backend/src/modules/alerts/application/services/alert_service.rs:104-113 | a negative limit passes the `min(100)` clamp, the query asks for limit+1 = 0 rows and `has_more` is `0 > -1` | `list_alerts` with limit -1 on a project with no alerts returns an empty page with `has_more` true | a negative limit is clamped or refused and `has_more` means rows remain | not executed | AlertServices.ListAlertsAsWritten, AlertServices.NegativeLimitClaimsMore | AlertServices.ListAlerts, AlertServices.ListAlertsPage |
| backend/src/modules/organizations/domain/organization/value_objects.rs:69-107 | `generate` keeps every Unicode alphanumeric character, while `from_string`, used on every read, accepts only ASCII lower-case letters, digits and '-' | an organisation named "café" gets a slug that cannot be read back | generated slugs are always readable | not executed | OrgValues.AccentedNameGivesUnreadableSlug | OrgValues.GeneratedSlugIsReadable |
| backend/src/modules/organizations/application/services/org_service.rs:331-339 | only an added Admin requires an Owner requester, so an Admin may add a new member as Owner | Admin "a" adds registered non-member "b" with role "owner" | only an Owner grants a role above Member, as the invite path does | not executed | OrgService.AdminAddsOwner, OrgService.AdminCanAddOwner | OrgService.AddMemberPermissions |
| backend/src/modules/organizations/application/services/org_service.rs:610-714 | the new owner is promoted and then the requester is demoted, with no check that they differ | the sole Owner transfers ownership to themselves and the organisation is left with no Owner | a transfer never leaves an organisation without an Owner | not executed | OrgService.SelfTransferDemotesLastOwner, OrgService.SelfTransferLeavesNoOwner | OrgService.TransferKeepsOwners |
| backend/src/modules/traces/infrastructure/persistence/timescale_span_repo.rs:194 | `ARRAY_AGG(DISTINCT service_name) FILTER (WHERE service_name IS NOT NULL)` is NULL for a trace none of whose selected spans has a service name, and decoding NULL into the `Vec<String>` of `TraceSummaryRow` fails the whole search | a trace whose selected spans all lack `service_name`, on the requested page | the summary lists no services (a `COALESCE` to an empty array) | not executed | SpanSearch.SearchTracesAsWritten, SpanSearch.NamelessTraceFailsSearch, SpanSearch.SingleNamelessSpanFailsSearch | SpanSearch.SearchTraces |
