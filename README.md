# Nautobot data validation engine — a Dafny model

This project models the rule-evaluation and audit-reconciliation core of the Nautobot
data validation engine plugin:

- `BaseValidator.clean`. It evaluates an instance against the four declarative rule
  families (regular expression, min/max, required, unique) in a fixed order. It then runs
  every audit ruleset bound to the instance's model: first those in the plugin registry,
  then those loaded from git repositories.
- Ruleset discovery: `is_audit_rule_set`, `get_audit_rule_sets_map` and
  `get_audit_rule_sets`.
- `AuditRuleset`: one run of a procedural audit. Each run reconciles the `AuditResult`
  table (one row per audit class, content type, object and attribute):
  - failed attributes are written invalid;
  - every other attribute already recorded for the run's class and object is marked
    valid again (partial recovery);
  - the `"all"` row records the verdict on the whole object.
- `extract_attribute_errors`, which turns a `ValidationError` into a map from attribute to
  messages.
- The compliance inspection of the API (`_audit`, `_validate`). It collects those maps from
  `full_clean` and from each compliance ruleset into one report.

Files:

- `values.dfy`: Python values and model instances, `Option`.
- `rules.dfy`: the four rule families, each a total decision function.
- `errors.dfy`: exceptions as values, `extract_attribute_errors`.
- `ledger.dfy`: the `AuditResult` table as a class with `update_or_create`.
- `registry.dfy`: discovery of rulesets.
- `audit.dfy`: the `AuditRuleset` class and its specification functions (module `Audit`).
  Also the lemmas about what a run leaves in the table (module `Reconciliation`).
- `validator.dfy`: `BaseValidator.clean`.
- `views.dfy`: the compliance view.

Exceptions are values. An operation that may raise returns an `Outcome`: `Normal`, or
`Raised` with an `AuditErr`, a `ValidationErr` or any other exception (`OtherErr`). The error
payload is one of two forms:

- dict form: built from a dict, it has a `message_dict`;
- list form: built from a message or a list of messages, it has only `messages`.

`getattr` on an attribute the instance does not have is modelled as the `AttributeError` it
raises. In `AuditRuleset.clean`, that `AttributeError` is caught by the
`except AttributeError` around the `message_dict` loop, which then falls back to writing the
messages under `"all"`. The model keeps that path exactly.

Some behaviour is not visible in the repository. It enters as parameters:

- the rules a model has;
- the stored rows counted by a uniqueness rule;
- the jinja renderer;
- the regular-expression compiler and matcher;
- what each ruleset's `audit()` does;
- how `instance.full_clean()` ends, for the compliance view;
- the modules loaded from git repositories;
- the clock.

Some behaviour of the code is easy to misread. The model follows the code:

- Min/max checks form one `elif` chain. A value below the minimum is reported once, and the
  maximum is then not checked, so the two violations never both fire.
- `self.validation_error` raises. The first violation ends `clean`: violations do not
  accumulate across rules or families, and the rulesets do not run after a violation.
- The first ruleset whose `clean` raises ends the pass, and the later rulesets do not run.
  That can be an enforced `AuditError`, an `AttributeError` from the sweep, or any other
  exception from `audit()`: the `except AuditError` catches nothing else, so the default
  `NotImplementedError` and a plain `ValidationError` propagate too.
- `get_audit_rule_sets_map()[self.model]` raises `KeyError` when no registry ruleset is bound
  to the model. `clean` then ends there, after the declarative rules passed, and the git
  rulesets do not run.
- When an attribute of an `AuditError`'s `message_dict` does not resolve, `getattr` raises
  and the `except AttributeError` abandons the loop. An attribute listed after it is neither
  written invalid nor excluded, so the sweep marks its stored row valid, although the audit
  reported it as failing.

## Model

| member | source | states |
|---|---|---|
| Rules.RegexCheck | nautobot_data_validation_engine/custom_validators.py:50-79 | A violation is reported on the rule's field. A missing field is a crash, and so is a raw pattern that does not compile. With context processing, a failed render or validation gives the fixed diagnostic before any matching. Once the pattern is settled (rendered under context processing, raw otherwise), a non-string value crashes, and otherwise the rule passes exactly when the pattern matches, reporting the mismatch message with that pattern when it does not. |
| Rules.RegexNoneIsEmptyString | nautobot_data_validation_engine/custom_validators.py:53-55 | A `None` value is matched as the empty string. The rule passes exactly when the pattern matches `""`, both with and without context processing. |
| Rules.RegexMismatchReport | nautobot_data_validation_engine/custom_validators.py:73-79 | A non-matching value reports the custom message, or "Value does not conform to regex: <pattern>" when none is set, where the pattern is the raw one or, under context processing, the rendered one. |
| Rules.MinMaxCheck | nautobot_data_validation_engine/custom_validators.py:82-108 | A crash happens exactly when the field is missing. A pass happens exactly when the value is numeric (`int` or `bool`) and within every bound set. A value below the minimum is reported as below the minimum. |
| Rules.MinMaxOrder | nautobot_data_validation_engine/custom_validators.py:85-108 | The `elif` order: `None` is reported as blank, then a non-numeric value as not numeric, then a value above the maximum when the minimum holds. |
| Rules.RequiredCheck | nautobot_data_validation_engine/custom_validators.py:111-114 | A violation happens exactly for `None` and the empty string, with the custom message or "This field cannot be blank.". A crash happens exactly when the field is missing. |
| Rules.RequiredAcceptsOtherFalsyValues | nautobot_data_validation_engine/custom_validators.py:113 | `0`, `False` and every non-empty string, blank ones included, satisfy a required rule. |
| Rules.CountMatching | nautobot_data_validation_engine/custom_validators.py:121 | The count of stored rows holding the value is at most the number of rows. |
| Rules.CountMatchingIsCount | nautobot_data_validation_engine/custom_validators.py:121 | The count is the number of stored rows whose field holds the value, each row counted once. |
| Rules.CountMatchingAppend | nautobot_data_validation_engine/custom_validators.py:121 | One more stored row holding the value adds exactly one to the count, and any other row adds nothing. |
| Rules.CountMatchingPositive | nautobot_data_validation_engine/custom_validators.py:121 | Any stored row holding the value makes the count at least one. |
| Rules.UniqueCheck | nautobot_data_validation_engine/custom_validators.py:117-128 | A violation happens exactly when the value is not `None` and at least `max_instances` stored rows hold it. A crash happens exactly when the field is missing. |
| Rules.UniqueOneExisting | nautobot_data_validation_engine/custom_validators.py:119-128 | With `max_instances` 1, any stored row already holding a non-`None` value is a violation. |
| Validation.FirstFailureIsFirst | nautobot_data_validation_engine/custom_validators.py:45-128 | The verdict of the rules is `Pass` exactly when every rule passes. Otherwise it is the decision of a failing rule all of whose predecessors pass. |
| Validation.FirstFailureAt | nautobot_data_validation_engine/custom_validators.py:45-128 | A failing rule preceded only by passing rules decides the verdict. |
| Validation.FirstFailureAppend | nautobot_data_validation_engine/custom_validators.py:45-128 | A failure in an earlier family decides the verdict. A family that passes hands the verdict to the next. |
| Validation.CheckRegexRules | nautobot_data_validation_engine/custom_validators.py:50-79 | The regex loop returns the first failing regex rule's decision, or `Pass`. |
| Validation.CheckMinMaxRules | nautobot_data_validation_engine/custom_validators.py:82-108 | The min/max loop returns the first failing min/max rule's decision, or `Pass`. |
| Validation.CheckRequiredRules | nautobot_data_validation_engine/custom_validators.py:111-114 | The required loop returns the first failing required rule's decision, or `Pass`. |
| Validation.CheckUniqueRules | nautobot_data_validation_engine/custom_validators.py:117-128 | The unique loop returns the first failing unique rule's decision, or `Pass`. |
| Validation.CheckOutcome | nautobot_data_validation_engine/custom_validators.py:66-128 | A rule passes exactly when `clean` goes on. A violation raises a `ValidationError` whose attribute errors are exactly that message under the rule's field. A crash is an exception that is not a `ValidationError`. |
| Validation.CheckDeclarativeRules | nautobot_data_validation_engine/custom_validators.py:50-128 | The four rule loops return the first failure of the rules in the order regex, min/max, required, unique, or `Pass`. |
| Validation.Clean | nautobot_data_validation_engine/custom_validators.py:45-146 | A rule violation becomes a `ValidationError({field: message})`, and a crash propagates; the table is unchanged in both cases. With no registry ruleset for the model, there is a `KeyError` and the table is unchanged. Otherwise the registry group, then the git classes of the instance's model, are run in turn until the first raise (`Ran`). |
| Validation.RunRuleset | nautobot_data_validation_engine/custom_validators.py:132 | `audit_class(obj).clean()` on a fresh ruleset ends in one of the outcomes and tables `AuditRuleset.Clean` allows (`CleanStep`). |
| Validation.RunRulesets | nautobot_data_validation_engine/custom_validators.py:131-132 | Each class runs on a fresh `AuditRuleset` in order, and the first raise stops the loop. |
| Validation.RunGitRulesets | nautobot_data_validation_engine/custom_validators.py:134-146 | Each repository's module contributes its `custom_validators` classes in order, and a module without them contributes nothing. |
| Validation.RunModule | nautobot_data_validation_engine/custom_validators.py:139-146 | Classes bound to another model are skipped. Each other class runs in order, and the first raise stops the loop. |
| Validation.RunGitModule | nautobot_data_validation_engine/custom_validators.py:137-146 | One repository extends the run by its module's classes for the model, or by nothing when the module has no `custom_validators`. |
| Validation.RunModuleClass | nautobot_data_validation_engine/custom_validators.py:140-146 | A class bound to another model is skipped; otherwise it runs and extends the run. |
| Validation.RunNext | nautobot_data_validation_engine/custom_validators.py:145-146 | One more ruleset's `clean` after a normal prefix extends the run by that class. |
| Validation.RanStep | nautobot_data_validation_engine/custom_validators.py:131-146 | A ruleset's `clean` after a normal prefix extends the run. |
| Validation.RanStopped | nautobot_data_validation_engine/custom_validators.py:131-146 | After a raise, later rulesets change nothing. |
| Validation.OnlyEnforcedAuditsBlock | nautobot_data_validation_engine/custom_validators.py:232-233 | An `AuditError` escaping the pass comes from a ruleset whose `enforce` is set and whose audit raised it. |
| Validation.OfModelConcat | nautobot_data_validation_engine/custom_validators.py:139-144 | Filtering classes by model distributes over concatenation. |
| Validation.GitRulesetsConcat | nautobot_data_validation_engine/custom_validators.py:134-146 | The classes of a list of modules are those of its parts, in order. |
| Registry.IsAuditRuleSet | nautobot_data_validation_engine/custom_validators.py:149-151 | An entry is an audit ruleset when it is an `AuditRuleset` subclass. |
| Registry.AuditRuleSetKept | nautobot_data_validation_engine/custom_validators.py:149-151 | `is_audit_rule_set` decides the grouping: an entry is kept exactly when it is an audit ruleset, and then as its class. |
| Registry.Rulesets | nautobot_data_validation_engine/custom_validators.py:149-159 | A class is kept exactly when it is an `AuditRuleset` entry of the list. |
| Registry.OfModelMembership | nautobot_data_validation_engine/custom_validators.py:159-161 | A model's group holds exactly the rulesets bound to it. |
| Registry.Models | nautobot_data_validation_engine/custom_validators.py:154-163 | The dictionary's keys are distinct. |
| Registry.ModelsMembership | nautobot_data_validation_engine/custom_validators.py:154-163 | The keys are exactly the models some ruleset is bound to. |
| Registry.ModelsCover | nautobot_data_validation_engine/custom_validators.py:159-161 | The model of every registered ruleset is a key. |
| Registry.GetAuditRuleSetsMap | nautobot_data_validation_engine/custom_validators.py:154-163 | The keys come in order of first appearance. Each maps to its rulesets in registry order. There is no key for a model with no ruleset. |
| Registry.RegisterAll | nautobot_data_validation_engine/custom_validators.py:158-161 | The loop over one registry list leaves the key order and the groups of every ruleset seen so far. |
| Registry.Register | nautobot_data_validation_engine/custom_validators.py:160-161 | One `setdefault` and `append` keeps the key order and groups equal to those of the rulesets seen so far, this one included. |
| Registry.GroupedAppend | nautobot_data_validation_engine/custom_validators.py:160-161 | `setdefault` then `append`: one more ruleset goes to the end of its model's group, creating the group if needed. |
| Registry.GetAuditRuleSets | nautobot_data_validation_engine/custom_validators.py:166-171 | The groups are concatenated in key order. The result is a permutation of the registry's rulesets. |
| Registry.GroupingIsPermutation | nautobot_data_validation_engine/custom_validators.py:166-171 | Concatenating the groups in key order loses no ruleset and duplicates none. |
| Registry.GitRulesetsMembership | nautobot_data_validation_engine/custom_validators.py:137-144 | Every class contributed by the git modules is bound to the instance's model, and every such class of every module is contributed. |
| Errors.AttributeErrors | nautobot_data_validation_engine/utils.py:18-29 | The keys are attributes of the error when it has a `message_dict`, and at most `"all"` otherwise. |
| Errors.ExtractAttributeErrors | nautobot_data_validation_engine/utils.py:18-29 | The loop builds exactly the map `AttributeErrors` describes. |
| Errors.AppendAttribute | nautobot_data_validation_engine/utils.py:23-25 | The inner loop adds one attribute's messages, giving the map of the items seen so far with this one added. |
| Errors.DictEntry | nautobot_data_validation_engine/utils.py:22-25 | An attribute has an entry exactly when messages are listed under it, and the entry is those messages in order. |
| Errors.DictAppendMessage | nautobot_data_validation_engine/utils.py:24-25 | One more message under an attribute extends that attribute's list and leaves every other entry alone. |
| Errors.DictFormEntries | nautobot_data_validation_engine/utils.py:22-25 | Each attribute with messages maps to all of its messages in order. An attribute listed with no messages is absent. |
| Errors.ListFormEntry | nautobot_data_validation_engine/utils.py:26-28 | Without a `message_dict`, the result is empty exactly when there are no messages, and is otherwise the last message, held as one string under `"all"`. |
| Ledger.AuditResults.UpdateOrCreate | nautobot_data_validation_engine/custom_validators.py:248-259 | The row under the key is created or replaced as a whole. No other row changes, and no row with an empty attribute appears. |
| Audit.StoredValueTruthiness | nautobot_data_validation_engine/custom_validators.py:243-255 | A value is stored exactly when the attribute is named and its value is truthy, and the stored value is then `str(v)`. So `0`, `False`, `""` and `None` store `None`. |
| Audit.FallbackIndex | nautobot_data_validation_engine/custom_validators.py:221-228 | The attributes before the index resolve or have no messages. The one at the index, if any, raises `AttributeError`. |
| Audit.AuditRuleset.constructor | nautobot_data_validation_engine/custom_validators.py:186-190 | `class_name` defaults to the class's name, and the timestamp is taken once. |
| Audit.AuditRuleset.AuditResult | nautobot_data_validation_engine/custom_validators.py:240-259 | A falsy attribute is written under `"all"`. A missing attribute raises and writes nothing. Otherwise exactly that key is upserted. |
| Audit.AuditRuleset.MarkExistingAttributesAsValid | nautobot_data_validation_engine/custom_validators.py:196-211 | Every row of the run, other than `"all"` and the excluded attributes, is rewritten as "{attribute} is valid.". It raises exactly when one of those attributes is missing, and then only some of the rows were rewritten. |
| Audit.AuditRuleset.Clean | nautobot_data_validation_engine/custom_validators.py:213-233 | On a pass, the table is swept and `"all"` is written valid. On an `AuditError`, the failures are written, the rest is swept, `"all"` is written invalid, and the error is re-raised only when `enforce` is set. Any other exception propagates and writes nothing. |
| Audit.AuditRuleset.WriteFailures | nautobot_data_validation_engine/custom_validators.py:220-228 | The failure writes and `exclude_attributes` agree with their specification functions, including the `AttributeError` fallback to `"all"`. |
| Audit.AuditRuleset.WriteDictFailures | nautobot_data_validation_engine/custom_validators.py:222-225 | The `message_dict` loop writes each message invalid until the first attribute that does not resolve. `exclude_attributes` then includes that attribute. |
| Audit.AuditRuleset.WriteAttributeFailures | nautobot_data_validation_engine/custom_validators.py:224-225 | One attribute's messages are written invalid, and the last one stays. A missing attribute with messages raises `AttributeError` on the first write and writes nothing. |
| Audit.AuditRuleset.WriteAllMessages | nautobot_data_validation_engine/custom_validators.py:227-228 | Each message is written invalid under `"all"` in turn. |
| Reconciliation.PassedLedgerReconciles | nautobot_data_validation_engine/custom_validators.py:215-218 | After a pass, every row of the run except `"all"` is valid with "{attribute} is valid.". The `"all"` row is valid. No other row changes, and only `"all"` can be new. |
| Reconciliation.PassingAuditIsIdempotent | nautobot_data_validation_engine/custom_validators.py:196-218 | A second passing run of the same class on the same object does not raise, and changes nothing but dates. With the same timestamp it changes nothing. |
| Reconciliation.DictWritesFrame | nautobot_data_validation_engine/custom_validators.py:222-225 | The failure writes create only the failed attributes' keys and leave every other row alone. |
| Reconciliation.DictWritesLastMessage | nautobot_data_validation_engine/custom_validators.py:224-225 | A failed attribute's row holds its last message, marked invalid. |
| Reconciliation.FailedAttributesEndInvalid | nautobot_data_validation_engine/custom_validators.py:219-231 | After an `AuditError`, each failed attribute written before the loop ends ends invalid with its last message. That is every attribute when all resolve, otherwise those before the first that does not. |
| Reconciliation.FallbackKeepsEarlierFailures | nautobot_data_validation_engine/custom_validators.py:219-231 | In a dict error with a resolving `x` followed by a missing `y`, the loop stops at `y` and `x` still ends invalid with its message. |
| Reconciliation.AbandonedAttributesRecover | nautobot_data_validation_engine/custom_validators.py:221-230 | An attribute listed with messages after one that does not resolve is not excluded, and its stored row ends valid. |
| Reconciliation.UnflaggedAttributesRecover | nautobot_data_validation_engine/custom_validators.py:229-230 | After an `AuditError`, every row of the run that was not failed this time, other than `"all"`, becomes valid again. |
| Reconciliation.FailedLedgerFrame | nautobot_data_validation_engine/custom_validators.py:219-231 | An `AuditError` creates no rows besides the failed attributes' rows and `"all"`. `"all"` ends invalid. Rows of other classes or objects keep their contents. |
| Reconciliation.PartialRecovery | nautobot_data_validation_engine/custom_validators.py:213-231 | A run that fails `a` and `b`, followed by a run that fails only `a`, leaves `b` valid and `a` invalid with the newer message. |
| Views.ComplianceView.AuditCall | nautobot_data_validation_engine/api/views.py:71-75 | A `ValidationError`, `AuditError` included, is caught, and its attribute errors replace the report's entries under the same keys. Any other exception propagates and changes nothing. |
| Views.ComplianceView.Validate | nautobot_data_validation_engine/api/views.py:88-100 | The report starts empty and collects `full_clean`, then each rule's `audit`, in turn. `valid` holds exactly when no error was collected. An exception that is not a `ValidationError` ends the call. |
| Views.ComplianceView.AuditRules | nautobot_data_validation_engine/api/views.py:90-93 | The loop over the rule classes collects each `audit` in turn and stops at the first exception that is not a `ValidationError`, which it returns. |
| Views.CollectStopped | nautobot_data_validation_engine/api/views.py:88-93 | Once an exception escapes, later auditors change nothing. |
| Views.CollectEscapes | nautobot_data_validation_engine/api/views.py:71-75 | An exception escapes exactly when some auditor raises one that is not a `ValidationError`. The first such exception is the one that escapes. |
| Views.CollectKeys | nautobot_data_validation_engine/api/views.py:71-93 | A key is in the report exactly when some caught `ValidationError` reports it. |
| Views.CollectLastWins | nautobot_data_validation_engine/api/views.py:71-93 | A key holds the entry of the last caught `ValidationError` that reports it, because `dict.update` replaces. |
| Views.CollectValid | nautobot_data_validation_engine/api/views.py:95-100 | `valid` holds exactly when every caught `ValidationError` extracts to no error. |

## Left out

- Regular expressions, jinja rendering and `validate_regex` are parameters (`Oracles`). The model does not implement Python's `re` semantics.
- Rules.MinMaxCheck: bounds and numeric values are integers. Float fields and float bounds are not modelled.
- Rules.UniqueCheck: `pluralize` is modelled only for integer counts. The rendering of the rule's `str()` is a parameter.
- The ORM is not modelled. The rule store, the stored rows of the model, `ContentType` lookups and `validated_save` are parameters or left out. The content type is a field of the instance.
- Validation.Clean: one timestamp is used for every ruleset of a pass. The source takes `timezone.now()` in each constructor.
- `import_python_file_from_git_repo` and `ensure_git_repository` are outside the model. A module's `custom_validators` list is a parameter, and a module that fails to load is not modelled.
- `datasources.py` and `CustomValidatorIterator` are not part of this model.
- `get_data_compliance_rules_map` and `initialize_request` are not part of this model. The view's rule classes and model label are constructor parameters.
- Views.ComplianceView.Validate: `rule_class(instance)` is not constructed. Each rule's `audit()` is called through the audit procedure directly, as the source calls `rule.audit`, which writes no table rows. `instance.full_clean()` is modelled only by how it ends (normally or with a `ValidationError`). What it does on the way, the plugin validators it runs and the table rows `BaseValidator.clean` writes, is not part of the contract.
- Validation.RunGitModule: entries of a git module's `custom_validators` list are typed as ruleset classes, so every listed entry whose model matches is taken to be an `AuditRuleset` subclass running the base `clean`. The source calls `audit_class(obj).clean()` on any such class, whatever its `clean` does.
- Python dictionary key order is not kept in reports and group maps. `GetAuditRuleSetsMap` returns the key order separately.
- Logging (`LOGGER.exception`) is left out.
- Audit.AuditRuleset.MarkExistingAttributesAsValid: the order in which the database returns rows is not modelled. When the sweep raises, the contract states only which rows may have been rewritten.
- `audit_error` and the default `audit()`, which raises `NotImplementedError`, are covered by the audit procedure parameter.
