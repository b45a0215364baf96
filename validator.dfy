/**
 * `BaseValidator.clean`: the declarative rules of the instance's model, family by family,
 * stopping at the first violation; then every audit ruleset bound to the model, from the
 * registry and from the git repositories, each run on a fresh `AuditRuleset`.
 */
module Validation {
  import opened Common
  import opened Values
  import opened Errors
  import opened Rules
  import opened Registry
  import opened Ledger
  import opened Audit

  // ---------------------------------------------------------------- the declarative rules

  /** The first check that does not pass; `Pass` when all pass. */
  function FirstFailure(checks: seq<Check>): Check
  {
    if checks == [] then Pass
    else if checks[0] != Pass then checks[0]
    else FirstFailure(checks[1..])
  }

  function RegexChecks(rules: seq<RegexRule>, obj: Instance, o: Oracles): seq<Check>
  {
    seq(|rules|, i requires 0 <= i < |rules| => RegexCheck(rules[i], obj, o))
  }

  function MinMaxChecks(rules: seq<MinMaxRule>, obj: Instance): seq<Check>
  {
    seq(|rules|, i requires 0 <= i < |rules| => MinMaxCheck(rules[i], obj))
  }

  function RequiredChecks(rules: seq<RequiredRule>, obj: Instance): seq<Check>
  {
    seq(|rules|, i requires 0 <= i < |rules| => RequiredCheck(rules[i], obj))
  }

  function UniqueChecks(rules: seq<UniqueRule>, obj: Instance, stored: seq<map<string, Value>>): seq<Check>
  {
    seq(|rules|, i requires 0 <= i < |rules| => UniqueCheck(rules[i], obj, stored))
  }

  /** Every rule's decision, in the order `clean` visits them: regex, min/max, required, unique. */
  function DeclarativeChecks(obj: Instance, store: RuleStore, o: Oracles, stored: seq<map<string, Value>>): seq<Check>
  {
    RegexChecks(store.regex, obj, o) + MinMaxChecks(store.minMax, obj)
    + RequiredChecks(store.required, obj) + UniqueChecks(store.unique, obj, stored)
  }

  /** A violation is `self.validation_error({field: message})`; a crash propagates as is. */
  function CheckOutcome(c: Check): (r: Outcome)
    ensures r == Normal <==> c == Pass
    // a violation is a `ValidationError` whose attribute errors are that one message on the field
    ensures c.Violation? ==>
              r.Raised? && r.exc.ValidationErr? && AttributeErrors(r.exc.payload) == map[c.field := MessageList([c.message])]
    // a crash is not a `ValidationError`: `_audit` would let it through
    ensures c == Crash ==> r.Raised? && !IsValidationError(r.exc)
  {
    match c
    case Pass => Normal
    case Violation(field, message) =>
      var items := [(field, [message])];
      DictFormEntries(items, 0);
      assert KeysOf(items) == {field};
      Raised(ValidationErr(DictForm(items)))
    case Crash => Raised(OtherErr)
  }

  /**
   * The verdict of the declarative rules is the first failure: `Pass` exactly when every
   * rule passes, and otherwise the decision of a rule all of whose predecessors pass. Only
   * that one violation is reported; later rules are not evaluated.
   */
  lemma {:induction false} FirstFailureIsFirst(checks: seq<Check>)
    ensures FirstFailure(checks) == Pass <==> forall i :: 0 <= i < |checks| ==> checks[i] == Pass
    ensures FirstFailure(checks) != Pass ==>
              exists i :: 0 <= i < |checks| && checks[i] == FirstFailure(checks)
                          && forall t :: 0 <= t < i ==> checks[t] == Pass
  {
    if checks != [] && checks[0] == Pass {
      var rest := checks[1..];
      FirstFailureIsFirst(rest);
      assert forall i :: 0 < i < |checks| ==> checks[i] == rest[i - 1];
      if FirstFailure(rest) != Pass {
        var i :| 0 <= i < |rest| && rest[i] == FirstFailure(rest) && forall t :: 0 <= t < i ==> rest[t] == Pass;
        assert checks[i + 1] == FirstFailure(checks);
      }
    }
  }

  lemma {:induction false} FirstFailureAt(checks: seq<Check>, i: nat)
    requires i < |checks| && checks[i] != Pass && forall t :: 0 <= t < i ==> checks[t] == Pass
    ensures FirstFailure(checks) == checks[i]
  {
    if i > 0 {
      FirstFailureAt(checks[1..], i - 1);
    }
  }

  /** A failure in the earlier part decides; if the earlier part passes, the later part decides. */
  lemma {:induction false} FirstFailureAppend(a: seq<Check>, b: seq<Check>)
    ensures FirstFailure(a + b) == if FirstFailure(a) != Pass then FirstFailure(a) else FirstFailure(b)
  {
    if a == [] {
      assert a + b == b;
    } else {
      assert (a + b)[0] == a[0];
      assert (a + b)[1..] == a[1..] + b;
      FirstFailureAppend(a[1..], b);
    }
  }

  lemma AllPass(checks: seq<Check>)
    requires forall t :: 0 <= t < |checks| ==> checks[t] == Pass
    ensures FirstFailure(checks) == Pass
  {
    FirstFailureIsFirst(checks);
  }

  /**
   * The four rule loops of `clean`: each rule is checked in turn and the first violation
   * (or crash) ends the pass. `Pass` means every rule passed.
   */
  method CheckDeclarativeRules(obj: Instance, store: RuleStore, o: Oracles, stored: seq<map<string, Value>>)
    returns (r: Check)
    ensures r == FirstFailure(DeclarativeChecks(obj, store, o, stored))
  {
    var regex := RegexChecks(store.regex, obj, o);
    var minMax := MinMaxChecks(store.minMax, obj);
    var required := RequiredChecks(store.required, obj);
    var unique := UniqueChecks(store.unique, obj, stored);
    FirstFailureAppend(regex, minMax);
    FirstFailureAppend(regex + minMax, required);
    FirstFailureAppend(regex + minMax + required, unique);
    r := CheckRegexRules(store.regex, obj, o);
    if r != Pass {
      return;
    }
    r := CheckMinMaxRules(store.minMax, obj);
    if r != Pass {
      return;
    }
    r := CheckRequiredRules(store.required, obj);
    if r != Pass {
      return;
    }
    r := CheckUniqueRules(store.unique, obj, stored);
  }

  /** The regular-expression loop. */
  method CheckRegexRules(rules: seq<RegexRule>, obj: Instance, o: Oracles) returns (r: Check)
    ensures r == FirstFailure(RegexChecks(rules, obj, o))
  {
    ghost var checks := RegexChecks(rules, obj, o);
    var i := 0;
    while i < |rules|
      invariant 0 <= i <= |rules|
      invariant forall t :: 0 <= t < i ==> checks[t] == Pass
    {
      r := RegexCheck(rules[i], obj, o);
      if r != Pass {
        FirstFailureAt(checks, i);
        return;
      }
      i := i + 1;
    }
    AllPass(checks);
    r := Pass;
  }

  /** The min/max loop. */
  method CheckMinMaxRules(rules: seq<MinMaxRule>, obj: Instance) returns (r: Check)
    ensures r == FirstFailure(MinMaxChecks(rules, obj))
  {
    ghost var checks := MinMaxChecks(rules, obj);
    var i := 0;
    while i < |rules|
      invariant 0 <= i <= |rules|
      invariant forall t :: 0 <= t < i ==> checks[t] == Pass
    {
      r := MinMaxCheck(rules[i], obj);
      if r != Pass {
        FirstFailureAt(checks, i);
        return;
      }
      i := i + 1;
    }
    AllPass(checks);
    r := Pass;
  }

  /** The required loop. */
  method CheckRequiredRules(rules: seq<RequiredRule>, obj: Instance) returns (r: Check)
    ensures r == FirstFailure(RequiredChecks(rules, obj))
  {
    ghost var checks := RequiredChecks(rules, obj);
    var i := 0;
    while i < |rules|
      invariant 0 <= i <= |rules|
      invariant forall t :: 0 <= t < i ==> checks[t] == Pass
    {
      r := RequiredCheck(rules[i], obj);
      if r != Pass {
        FirstFailureAt(checks, i);
        return;
      }
      i := i + 1;
    }
    AllPass(checks);
    r := Pass;
  }

  /** The unique loop. */
  method CheckUniqueRules(rules: seq<UniqueRule>, obj: Instance, stored: seq<map<string, Value>>) returns (r: Check)
    ensures r == FirstFailure(UniqueChecks(rules, obj, stored))
  {
    ghost var checks := UniqueChecks(rules, obj, stored);
    var i := 0;
    while i < |rules|
      invariant 0 <= i <= |rules|
      invariant forall t :: 0 <= t < i ==> checks[t] == Pass
    {
      r := UniqueCheck(rules[i], obj, stored);
      if r != Pass {
        FirstFailureAt(checks, i);
        return;
      }
      i := i + 1;
    }
    AllPass(checks);
    r := Pass;
  }

  // ---------------------------------------------------------------- the audit rulesets

  /**
   * Running the ruleset classes in turn from table `before` may end in `outcome` with table
   * `after`: each runs only when all before it returned normally, and the first raise ends
   * the pass.
   */
  ghost predicate Ran(
    classes: seq<RulesetClass>, obj: Instance, now: Timestamp, procedure: AuditProcedure,
    before: map<Key, Row>, outcome: Outcome, after: map<Key, Row>)
    decreases |classes|
  {
    if classes == [] then outcome == Normal && after == before
    else
      var init := classes[..|classes| - 1];
      (outcome.Raised? && Ran(init, obj, now, procedure, before, outcome, after))
      || exists mid :: Ran(init, obj, now, procedure, before, Normal, mid)
                       && CleanStep(Last(classes), obj, now, procedure, mid, outcome, after)
  }

  lemma RanStep(
    classes: seq<RulesetClass>, c: RulesetClass, obj: Instance, now: Timestamp, procedure: AuditProcedure,
    before: map<Key, Row>, mid: map<Key, Row>, outcome: Outcome, after: map<Key, Row>)
    requires Ran(classes, obj, now, procedure, before, Normal, mid)
    requires CleanStep(c, obj, now, procedure, mid, outcome, after)
    ensures Ran(classes + [c], obj, now, procedure, before, outcome, after)
  {
    assert (classes + [c])[..|classes|] == classes;
  }

  lemma {:induction false} RanStopped(
    classes: seq<RulesetClass>, rest: seq<RulesetClass>, obj: Instance, now: Timestamp, procedure: AuditProcedure,
    before: map<Key, Row>, outcome: Outcome, after: map<Key, Row>)
    requires outcome.Raised? && Ran(classes, obj, now, procedure, before, outcome, after)
    ensures Ran(classes + rest, obj, now, procedure, before, outcome, after)
    decreases |rest|
  {
    if rest != [] {
      var init := rest[..|rest| - 1];
      RanStopped(classes, init, obj, now, procedure, before, outcome, after);
      var whole := classes + rest;
      assert whole[..|whole| - 1] == classes + init;
      assert Ran(whole[..|whole| - 1], obj, now, procedure, before, outcome, after);
    } else {
      assert classes + rest == classes;
    }
  }

  /**
   * Only an enforcing ruleset blocks the save with an `AuditError`: a non-enforcing
   * ruleset's failure is recorded and swallowed.
   */
  lemma {:induction false} OnlyEnforcedAuditsBlock(
    classes: seq<RulesetClass>, obj: Instance, now: Timestamp, procedure: AuditProcedure,
    before: map<Key, Row>, e: ErrorPayload, after: map<Key, Row>)
    requires Ran(classes, obj, now, procedure, before, Raised(AuditErr(e)), after)
    ensures exists i :: 0 <= i < |classes| && classes[i].enforce && procedure(classes[i], obj) == Raised(AuditErr(e))
    decreases |classes|
  {
    var init := classes[..|classes| - 1];
    if Ran(init, obj, now, procedure, before, Raised(AuditErr(e)), after) {
      OnlyEnforcedAuditsBlock(init, obj, now, procedure, before, e, after);
      var i :| 0 <= i < |init| && init[i].enforce && procedure(init[i], obj) == Raised(AuditErr(e));
      assert classes[i] == init[i];
    } else {
      var mid :| Ran(init, obj, now, procedure, before, Normal, mid)
                 && CleanStep(Last(classes), obj, now, procedure, mid, Raised(AuditErr(e)), after);
      assert classes[|classes| - 1] == Last(classes);
    }
  }

  /** The rulesets `clean` runs: the registry's group for the model, then the git repositories' classes. */
  function AuditClasses(model: string, obj: Instance, registry: seq<seq<Validator>>, modules: seq<Option<seq<RulesetClass>>>): seq<RulesetClass>
    requires model in Grouped(AllRulesets(registry))
  {
    Grouped(AllRulesets(registry))[model] + GitRulesets(modules, Label(obj))
  }

  /**
   * `BaseValidator.clean` for the validator of `model`. The rules are `get_for_model(model)`,
   * `stored` the stored rows of the instance's model, `registry` the values of
   * `registry["plugin_custom_validators"]`, and `modules` the `custom_validators` list of each
   * repository providing audit rulesets (`None` when its module has none). Every ruleset of
   * the pass is stamped with `now`.
   */
  method Clean(
    model: string, obj: Instance, store: RuleStore, o: Oracles, stored: seq<map<string, Value>>,
    registry: seq<seq<Validator>>, modules: seq<Option<seq<RulesetClass>>>,
    procedure: AuditProcedure, ledger: AuditResults, now: Timestamp)
    returns (outcome: Outcome)
    requires ledger.Valid()
    modifies ledger
    ensures ledger.Valid()
    ensures var c := FirstFailure(DeclarativeChecks(obj, store, o, stored));
            c != Pass ==> outcome == CheckOutcome(c) && ledger.rows == old(ledger.rows)
    // `get_audit_rule_sets_map()[self.model]` raises `KeyError` when no ruleset is bound to the model
    ensures FirstFailure(DeclarativeChecks(obj, store, o, stored)) == Pass && model !in Grouped(AllRulesets(registry)) ==>
              outcome == Raised(OtherErr) && ledger.rows == old(ledger.rows)
    ensures FirstFailure(DeclarativeChecks(obj, store, o, stored)) == Pass && model in Grouped(AllRulesets(registry)) ==>
              Ran(AuditClasses(model, obj, registry, modules), obj, now, procedure, old(ledger.rows), outcome, ledger.rows)
  {
    var c := CheckDeclarativeRules(obj, store, o, stored);
    if c != Pass {
      return CheckOutcome(c);
    }
    var order, groups := GetAuditRuleSetsMap(registry);
    if model !in groups {
      return Raised(OtherErr);
    }
    ghost var before := ledger.rows;
    var group := groups[model];
    outcome := RunRulesets(group, obj, now, procedure, ledger);
    if outcome.Raised? {
      RanStopped(group, GitRulesets(modules, Label(obj)), obj, now, procedure, before, outcome, ledger.rows);
      return;
    }
    outcome := RunGitRulesets(group, modules, obj, now, procedure, ledger, before);
  }

  /** `audit_class(obj).clean()`. */
  method RunRuleset(cls: RulesetClass, obj: Instance, now: Timestamp, procedure: AuditProcedure, ledger: AuditResults)
    returns (outcome: Outcome)
    requires ledger.Valid()
    modifies ledger
    ensures ledger.Valid()
    ensures CleanStep(cls, obj, now, procedure, old(ledger.rows), outcome, ledger.rows)
  {
    var ins := new AuditRuleset(cls, obj, ledger, now, procedure);
    outcome := ins.Clean();
  }

  /** One more `clean` after the classes of `sofar` have run normally. */
  method RunNext(
    ghost sofar: seq<RulesetClass>, c: RulesetClass, obj: Instance, now: Timestamp, procedure: AuditProcedure,
    ledger: AuditResults, ghost before: map<Key, Row>)
    returns (outcome: Outcome)
    requires ledger.Valid() && Ran(sofar, obj, now, procedure, before, Normal, ledger.rows)
    modifies ledger
    ensures ledger.Valid()
    ensures Ran(sofar + [c], obj, now, procedure, before, outcome, ledger.rows)
  {
    ghost var mid := ledger.rows;
    outcome := RunRuleset(c, obj, now, procedure, ledger);
    RanStep(sofar, c, obj, now, procedure, before, mid, outcome, ledger.rows);
  }

  /** `for audit_class in ...: audit_class(obj).clean()` over the registry's group for the model. */
  method RunRulesets(classes: seq<RulesetClass>, obj: Instance, now: Timestamp, procedure: AuditProcedure, ledger: AuditResults)
    returns (outcome: Outcome)
    requires ledger.Valid()
    modifies ledger
    ensures ledger.Valid()
    ensures Ran(classes, obj, now, procedure, old(ledger.rows), outcome, ledger.rows)
  {
    ghost var before := ledger.rows;
    ghost var sofar: seq<RulesetClass> := [];
    outcome := Normal;
    var i := 0;
    while i < |classes|
      invariant 0 <= i <= |classes| && ledger.Valid()
      invariant sofar == classes[..i]
      invariant Ran(sofar, obj, now, procedure, before, Normal, ledger.rows)
    {
      outcome := RunNext(sofar, classes[i], obj, now, procedure, ledger, before);
      PrefixStep(classes, i);
      sofar := sofar + [classes[i]];
      if outcome.Raised? {
        RanStopped(sofar, classes[i + 1..], obj, now, procedure, before, outcome, ledger.rows);
        assert sofar + classes[i + 1..] == classes;
        return;
      }
      i := i + 1;
    }
    assert sofar == classes;
    outcome := Normal;
  }

  lemma PrefixStep<T>(s: seq<T>, i: nat)
    requires i < |s|
    ensures s[..i] + [s[i]] == s[..i + 1]
  {
  }

  /**
   * The loop over the git repositories' modules, after the registry's group has run
   * normally: the classes of each module's `custom_validators` whose model is the
   * instance's, in order.
   */
  method RunGitRulesets(
    group: seq<RulesetClass>, modules: seq<Option<seq<RulesetClass>>>, obj: Instance, now: Timestamp,
    procedure: AuditProcedure, ledger: AuditResults, ghost before: map<Key, Row>)
    returns (outcome: Outcome)
    requires ledger.Valid() && Ran(group, obj, now, procedure, before, Normal, ledger.rows)
    modifies ledger
    ensures ledger.Valid()
    ensures Ran(group + GitRulesets(modules, Label(obj)), obj, now, procedure, before, outcome, ledger.rows)
  {
    var modelLabel := Label(obj);
    var r := 0;
    assert modules[..0] == [];
    assert group + GitRulesets(modules[..0], modelLabel) == group;
    while r < |modules|
      invariant 0 <= r <= |modules| && ledger.Valid()
      invariant Ran(group + GitRulesets(modules[..r], modelLabel), obj, now, procedure, before, Normal, ledger.rows)
    {
      outcome := RunGitModule(group, modules, r, modelLabel, obj, now, procedure, ledger, before);
      if outcome.Raised? {
        GitRest(group, modules, r, modelLabel);
        RanStopped(group + GitRulesets(modules[..r + 1], modelLabel), GitRulesets(modules[r + 1..], modelLabel),
                   obj, now, procedure, before, outcome, ledger.rows);
        return;
      }
      r := r + 1;
    }
    assert modules[..r] == modules;
    outcome := Normal;
  }

  /** One repository of the git loop: its module's classes, or nothing without `custom_validators`. */
  method RunGitModule(
    ghost group: seq<RulesetClass>, modules: seq<Option<seq<RulesetClass>>>, r: nat, modelLabel: string,
    obj: Instance, now: Timestamp, procedure: AuditProcedure, ledger: AuditResults, ghost before: map<Key, Row>)
    returns (outcome: Outcome)
    requires r < |modules| && ledger.Valid()
    requires Ran(group + GitRulesets(modules[..r], modelLabel), obj, now, procedure, before, Normal, ledger.rows)
    modifies ledger
    ensures ledger.Valid()
    ensures Ran(group + GitRulesets(modules[..r + 1], modelLabel), obj, now, procedure, before, outcome, ledger.rows)
  {
    GitStep(group, modules, r, modelLabel);
    if modules[r].Some? {
      outcome := RunModule(group + GitRulesets(modules[..r], modelLabel), modules[r].value, modelLabel,
                           obj, now, procedure, ledger, before);
    } else {
      outcome := Normal;
      assert group + GitRulesets(modules[..r], modelLabel) + [] == group + GitRulesets(modules[..r], modelLabel);
    }
  }

  lemma GitStep(group: seq<RulesetClass>, modules: seq<Option<seq<RulesetClass>>>, r: nat, modelLabel: string)
    requires r < |modules|
    ensures group + GitRulesets(modules[..r + 1], modelLabel)
            == group + GitRulesets(modules[..r], modelLabel) + (if modules[r].Some? then OfModel(modules[r].value, modelLabel) else [])
  {
    GitRulesetsPrefix(modules, r, modelLabel);
  }

  lemma GitRest(group: seq<RulesetClass>, modules: seq<Option<seq<RulesetClass>>>, r: nat, modelLabel: string)
    requires r < |modules|
    ensures group + GitRulesets(modules[..r + 1], modelLabel) + GitRulesets(modules[r + 1..], modelLabel)
            == group + GitRulesets(modules, modelLabel)
  {
    assert modules[..r + 1] + modules[r + 1..] == modules;
    GitRulesetsConcat(modules[..r + 1], modules[r + 1..], modelLabel);
  }

  /** The classes of one module's `custom_validators`, skipping those bound to another model. */
  method RunModule(
    ghost done: seq<RulesetClass>, validators: seq<RulesetClass>, modelLabel: string, obj: Instance, now: Timestamp,
    procedure: AuditProcedure, ledger: AuditResults, ghost before: map<Key, Row>)
    returns (outcome: Outcome)
    requires ledger.Valid() && Ran(done, obj, now, procedure, before, Normal, ledger.rows)
    modifies ledger
    ensures ledger.Valid()
    ensures Ran(done + OfModel(validators, modelLabel), obj, now, procedure, before, outcome, ledger.rows)
  {
    var j := 0;
    assert validators[..0] == [];
    assert done + OfModel(validators[..0], modelLabel) == done;
    while j < |validators|
      invariant 0 <= j <= |validators| && ledger.Valid()
      invariant Ran(done + OfModel(validators[..j], modelLabel), obj, now, procedure, before, Normal, ledger.rows)
    {
      outcome := RunModuleClass(done, validators, j, modelLabel, obj, now, procedure, ledger, before);
      if outcome.Raised? {
        ModuleRest(done, validators, j, modelLabel);
        RanStopped(done + OfModel(validators[..j + 1], modelLabel), OfModel(validators[j + 1..], modelLabel),
                   obj, now, procedure, before, outcome, ledger.rows);
        return;
      }
      j := j + 1;
    }
    assert validators[..j] == validators;
    outcome := Normal;
  }

  /** One class of a module's `custom_validators`: skipped when bound to another model. */
  method RunModuleClass(
    ghost done: seq<RulesetClass>, validators: seq<RulesetClass>, j: nat, modelLabel: string,
    obj: Instance, now: Timestamp, procedure: AuditProcedure, ledger: AuditResults, ghost before: map<Key, Row>)
    returns (outcome: Outcome)
    requires j < |validators| && ledger.Valid()
    requires Ran(done + OfModel(validators[..j], modelLabel), obj, now, procedure, before, Normal, ledger.rows)
    modifies ledger
    ensures ledger.Valid()
    ensures Ran(done + OfModel(validators[..j + 1], modelLabel), obj, now, procedure, before, outcome, ledger.rows)
  {
    var c := validators[j];
    ModuleStep(done, validators, j, modelLabel);
    if modelLabel == c.model {
      outcome := RunNext(done + OfModel(validators[..j], modelLabel), c, obj, now, procedure, ledger, before);
    } else {
      outcome := Normal;
      assert done + OfModel(validators[..j], modelLabel) + [] == done + OfModel(validators[..j], modelLabel);
    }
  }

  lemma ModuleStep(done: seq<RulesetClass>, validators: seq<RulesetClass>, j: nat, modelLabel: string)
    requires j < |validators|
    ensures done + OfModel(validators[..j + 1], modelLabel)
            == done + OfModel(validators[..j], modelLabel) + (if validators[j].model == modelLabel then [validators[j]] else [])
  {
    assert validators[..j + 1] == validators[..j] + [validators[j]];
    OfModelAppend(validators[..j], validators[j], modelLabel);
  }

  lemma ModuleRest(done: seq<RulesetClass>, validators: seq<RulesetClass>, j: nat, modelLabel: string)
    requires j < |validators|
    ensures done + OfModel(validators[..j + 1], modelLabel) + OfModel(validators[j + 1..], modelLabel)
            == done + OfModel(validators, modelLabel)
  {
    assert validators[..j + 1] + validators[j + 1..] == validators;
    OfModelConcat(validators[..j + 1], validators[j + 1..], modelLabel);
  }

  lemma GitRulesetsPrefix(modules: seq<Option<seq<RulesetClass>>>, r: nat, modelLabel: string)
    requires r < |modules|
    ensures GitRulesets(modules[..r + 1], modelLabel)
            == GitRulesets(modules[..r], modelLabel) + (if modules[r].Some? then OfModel(modules[r].value, modelLabel) else [])
  {
    assert modules[..r + 1][..r] == modules[..r];
  }

  lemma {:induction false} OfModelConcat(a: seq<RulesetClass>, b: seq<RulesetClass>, m: string)
    ensures OfModel(a + b, m) == OfModel(a, m) + OfModel(b, m)
    decreases |b|
  {
    if b == [] {
      assert a + b == a;
    } else {
      var init, x := b[..|b| - 1], Last(b);
      assert b == init + [x];
      assert a + b == (a + init) + [x];
      OfModelConcat(a, init, m);
      OfModelAppend(a + init, x, m);
      OfModelAppend(init, x, m);
      var tail := if x.model == m then [x] else [];
      calc {
        OfModel(a + b, m);
        OfModel((a + init) + [x], m);
        OfModel(a + init, m) + tail;
        (OfModel(a, m) + OfModel(init, m)) + tail;
        OfModel(a, m) + (OfModel(init, m) + tail);
        OfModel(a, m) + OfModel(init + [x], m);
      }
    }
  }

  lemma {:induction false} GitRulesetsConcat(a: seq<Option<seq<RulesetClass>>>, b: seq<Option<seq<RulesetClass>>>, m: string)
    ensures GitRulesets(a + b, m) == GitRulesets(a, m) + GitRulesets(b, m)
    decreases |b|
  {
    if b == [] {
      assert a + b == a;
    } else {
      var init, x := b[..|b| - 1], Last(b);
      var tail := if x.Some? then OfModel(x.value, m) else [];
      assert (a + b)[..|a + b| - 1] == a + init;
      assert Last(a + b) == x;
      calc {
        GitRulesets(a + b, m);
        GitRulesets(a + init, m) + tail;
        { GitRulesetsConcat(a, init, m); }
        (GitRulesets(a, m) + GitRulesets(init, m)) + tail;
        GitRulesets(a, m) + (GitRulesets(init, m) + tail);
        GitRulesets(a, m) + GitRulesets(b, m);
      }
    }
  }
}
