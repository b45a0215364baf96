/**
 * The four declarative rule families of `BaseValidator.clean` and the decision each rule
 * makes about one instance. Each check is a value: it passes, reports one violation on the
 * rule's field (what `self.validation_error` raises), or crashes (an exception other than a
 * `ValidationError`, such as `getattr` on a missing attribute).
 */
module Rules {
  import opened Common
  import opened Values

  /** A regular-expression rule; `display` is the rule's `str()`, an empty `errorMessage` is unset. */
  datatype RegexRule = RegexRule(
    display: string, field: string, pattern: string, contextProcessing: bool, errorMessage: string)

  /** A min/max rule; bounds are integers here, `None` when unset. */
  datatype MinMaxRule = MinMaxRule(
    display: string, field: string, min: Option<int>, max: Option<int>, errorMessage: string)

  datatype RequiredRule = RequiredRule(display: string, field: string, errorMessage: string)

  datatype UniqueRule = UniqueRule(display: string, field: string, maxInstances: int, errorMessage: string)

  /** What the four `get_for_model(self.model)` queries return for one model, in their order. */
  datatype RuleStore = RuleStore(
    regex: seq<RegexRule>, minMax: seq<MinMaxRule>, required: seq<RequiredRule>, unique: seq<UniqueRule>)

  /**
   * The foreign collaborators of a regular-expression rule: `render_jinja2` against the
   * context of the instance (`None` when rendering raises), whether `validate_regex` accepts
   * a pattern (and so whether it compiles), and `re.match` (a match at the start of the string).
   */
  datatype Oracles = Oracles(
    render: (string, Instance) -> Option<string>,
    compiles: string -> bool,
    matches: (string, string) -> bool)

  datatype Check = Pass | Violation(field: string, message: string) | Crash

  // ---------------------------------------------------------------- regular expressions

  const RenderErrorPrefix := "There was an error rendering the regular expression in the data validation rule '"
  const RenderErrorSuffix := "'. Either fix the validation rule or disable it in order to save this data."
  const RegexMismatchPrefix := "Value does not conform to regex: "

  function RenderErrorMessage(rule: RegexRule): string
  {
    RenderErrorPrefix + rule.display + RenderErrorSuffix
  }

  function RegexMismatchMessage(rule: RegexRule, pattern: string): string
  {
    Or(rule.errorMessage, RegexMismatchPrefix + pattern)
  }

  /** Rendering the pattern, or validating what it rendered to, failed. */
  predicate RenderFails(rule: RegexRule, obj: Instance, o: Oracles)
  {
    var rendered := o.render(rule.pattern, obj);
    rendered.None? || !o.compiles(rendered.value)
  }

  /** The value that is matched: `None` is coerced to the empty string. */
  function RegexSubject(rule: RegexRule, obj: Instance): Value
    requires rule.field in obj.fields
  {
    if obj.fields[rule.field].NoneValue? then Str("") else obj.fields[rule.field]
  }

  /** `re.match(pattern, subject)`; a subject that is not a string makes it raise `TypeError`. */
  function MatchStep(rule: RegexRule, pattern: string, subject: Value, o: Oracles): Check
  {
    if !subject.Str? then Crash
    else if o.matches(pattern, subject.s) then Pass
    else Violation(rule.field, RegexMismatchMessage(rule, pattern))
  }

  function RegexCheck(rule: RegexRule, obj: Instance, o: Oracles): (r: Check)
    ensures r.Violation? ==> r.field == rule.field
    ensures rule.field !in obj.fields ==> r == Crash
    // a failed render or validation is the fixed diagnostic, and matching is never reached
    ensures rule.field in obj.fields && rule.contextProcessing && RenderFails(rule, obj, o) ==>
              r == Violation(rule.field, RenderErrorMessage(rule))
    // a pass means the (rendered or raw) pattern matched the subject
    ensures r == Pass ==> rule.field in obj.fields && RegexSubject(rule, obj).Str?
    ensures r == Pass && !rule.contextProcessing ==>
              o.compiles(rule.pattern) && o.matches(rule.pattern, RegexSubject(rule, obj).s)
    ensures r == Pass && rule.contextProcessing ==>
              o.render(rule.pattern, obj).Some? && o.compiles(o.render(rule.pattern, obj).value)
              && o.matches(o.render(rule.pattern, obj).value, RegexSubject(rule, obj).s)
    // a raw pattern that does not compile makes `re.match` raise
    ensures rule.field in obj.fields && !rule.contextProcessing && !o.compiles(rule.pattern) ==> r == Crash
    // once the pattern is settled, the decision is exactly the match or its mismatch report
    ensures rule.field in obj.fields && (rule.contextProcessing ==> !RenderFails(rule, obj, o))
            && (!rule.contextProcessing ==> o.compiles(rule.pattern)) ==>
              var p := if rule.contextProcessing then o.render(rule.pattern, obj).value else rule.pattern;
              var subject := RegexSubject(rule, obj);
              r == (if !subject.Str? then Crash
                    else if o.matches(p, subject.s) then Pass
                    else Violation(rule.field, RegexMismatchMessage(rule, p)))
  {
    if rule.field !in obj.fields then Crash
    else
      var subject := RegexSubject(rule, obj);
      if rule.contextProcessing then
        var rendered := o.render(rule.pattern, obj);
        if rendered.None? || !o.compiles(rendered.value) then Violation(rule.field, RenderErrorMessage(rule))
        else MatchStep(rule, rendered.value, subject, o)
      else if !o.compiles(rule.pattern) then Crash
      else MatchStep(rule, rule.pattern, subject, o)
  }

  /** A `None` field value is matched exactly as the empty string would be: it is never skipped. */
  lemma RegexNoneIsEmptyString(rule: RegexRule, obj: Instance, o: Oracles)
    requires rule.field in obj.fields && obj.fields[rule.field] == NoneValue
    ensures RegexSubject(rule, obj) == Str("")
    ensures !rule.contextProcessing && o.compiles(rule.pattern) ==>
              (RegexCheck(rule, obj, o) == Pass <==> o.matches(rule.pattern, ""))
    ensures rule.contextProcessing && !RenderFails(rule, obj, o) ==>
              (RegexCheck(rule, obj, o) == Pass <==> o.matches(o.render(rule.pattern, obj).value, ""))
  {
  }

  /**
   * Without a custom message, a non-match names the pattern it was matched against: the
   * raw pattern, or under context processing the one it rendered to.
   */
  lemma RegexMismatchReport(rule: RegexRule, obj: Instance, o: Oracles, s: string)
    requires rule.field in obj.fields && RegexSubject(rule, obj) == Str(s)
    ensures !rule.contextProcessing && o.compiles(rule.pattern) && !o.matches(rule.pattern, s) ==>
              RegexCheck(rule, obj, o) == Violation(rule.field, Or(rule.errorMessage, RegexMismatchPrefix + rule.pattern))
    ensures rule.contextProcessing && !RenderFails(rule, obj, o) && !o.matches(o.render(rule.pattern, obj).value, s) ==>
              RegexCheck(rule, obj, o) ==
                Violation(rule.field, Or(rule.errorMessage, RegexMismatchPrefix + o.render(rule.pattern, obj).value))
  {
  }

  // ---------------------------------------------------------------- min/max

  // `mix/max` is the source's own wording
  const MinMaxBlankPrefix := "Value does not conform to mix/max validation: min "
  const NotNumericPrefix := "Unable to validate against min/max rule "
  const NotNumericSuffix := " because the field value is not numeric."
  const BelowMinPrefix := "Value is less than minimum value: "
  const AboveMaxPrefix := "Value is more than maximum value: "

  function MinMaxBlankMessage(rule: MinMaxRule): string
  {
    Or(rule.errorMessage, MinMaxBlankPrefix + OptionString(rule.min) + ", max " + OptionString(rule.max))
  }

  function NotNumericMessage(rule: MinMaxRule): string
  {
    NotNumericPrefix + rule.display + NotNumericSuffix
  }

  function BelowMinMessage(rule: MinMaxRule): string
  {
    Or(rule.errorMessage, BelowMinPrefix + OptionString(rule.min))
  }

  function AboveMaxMessage(rule: MinMaxRule): string
  {
    Or(rule.errorMessage, AboveMaxPrefix + OptionString(rule.max))
  }

  /** The value lies within every bound the rule sets. */
  predicate WithinBounds(rule: MinMaxRule, n: int)
  {
    (rule.min.None? || rule.min.value <= n) && (rule.max.None? || n <= rule.max.value)
  }

  /** One `elif` chain: `None`, then not numeric, then below the minimum, then above the maximum. */
  function MinMaxCheck(rule: MinMaxRule, obj: Instance): (r: Check)
    ensures r.Violation? ==> r.field == rule.field
    ensures r == Crash <==> rule.field !in obj.fields
    ensures r == Pass <==>
              rule.field in obj.fields && IsNumeric(obj.fields[rule.field])
              && WithinBounds(rule, Numeric(obj.fields[rule.field]))
    // a value below the minimum is reported as such, never as above the maximum
    ensures rule.field in obj.fields && IsNumeric(obj.fields[rule.field]) && rule.min.Some?
              && Numeric(obj.fields[rule.field]) < rule.min.value ==>
              r == Violation(rule.field, BelowMinMessage(rule))
  {
    if rule.field !in obj.fields then Crash
    else
      var v := obj.fields[rule.field];
      if v.NoneValue? then Violation(rule.field, MinMaxBlankMessage(rule))
      else if !IsNumeric(v) then Violation(rule.field, NotNumericMessage(rule))
      else if rule.min.Some? && Numeric(v) < rule.min.value then Violation(rule.field, BelowMinMessage(rule))
      else if rule.max.Some? && Numeric(v) > rule.max.value then Violation(rule.field, AboveMaxMessage(rule))
      else Pass
  }

  /** The order of the chain: blank and non-numeric values are reported before any bound is looked at. */
  lemma MinMaxOrder(rule: MinMaxRule, obj: Instance)
    requires rule.field in obj.fields
    ensures obj.fields[rule.field] == NoneValue ==>
              MinMaxCheck(rule, obj) == Violation(rule.field, MinMaxBlankMessage(rule))
    ensures obj.fields[rule.field] != NoneValue && !IsNumeric(obj.fields[rule.field]) ==>
              MinMaxCheck(rule, obj) == Violation(rule.field, NotNumericMessage(rule))
    ensures IsNumeric(obj.fields[rule.field]) && (rule.min.None? || rule.min.value <= Numeric(obj.fields[rule.field]))
              && rule.max.Some? && Numeric(obj.fields[rule.field]) > rule.max.value ==>
              MinMaxCheck(rule, obj) == Violation(rule.field, AboveMaxMessage(rule))
  {
  }

  // ---------------------------------------------------------------- required

  const BlankMessage := "This field cannot be blank."

  function RequiredCheck(rule: RequiredRule, obj: Instance): (r: Check)
    ensures r == Crash <==> rule.field !in obj.fields
    // fires exactly for `None` and the empty string
    ensures r.Violation? <==>
              rule.field in obj.fields && (obj.fields[rule.field] == NoneValue || obj.fields[rule.field] == Str(""))
    ensures r.Violation? ==> r == Violation(rule.field, Or(rule.errorMessage, BlankMessage))
  {
    if rule.field !in obj.fields then Crash
    else
      var v := obj.fields[rule.field];
      if v == NoneValue || v == Str("") then Violation(rule.field, Or(rule.errorMessage, BlankMessage))
      else Pass
  }

  /** Other falsy values, and every non-empty string (blank ones included), satisfy a required rule. */
  lemma RequiredAcceptsOtherFalsyValues(rule: RequiredRule, obj: Instance)
    requires rule.field in obj.fields
    requires var v := obj.fields[rule.field]; v == Int(0) || v == Bool(false) || (v.Str? && v.s != "")
    ensures RequiredCheck(rule, obj) == Pass
  {
  }

  // ---------------------------------------------------------------- unique

  /** `_default_manager.filter(**{field: v}).count()` over the stored rows of the model. */
  function CountMatching(stored: seq<map<string, Value>>, field: string, v: Value): (n: nat)
    ensures n <= |stored|
  {
    if stored == [] then 0
    else CountMatching(stored[..|stored| - 1], field, v)
         + (if field in Last(stored) && Last(stored)[field] == v then 1 else 0)
  }

  /** A stored row that holds the value adds one to the count: the instance itself counts once saved. */
  lemma {:induction false} CountMatchingAppend(stored: seq<map<string, Value>>, row: map<string, Value>, field: string, v: Value)
    ensures CountMatching(stored + [row], field, v)
            == CountMatching(stored, field, v) + (if field in row && row[field] == v then 1 else 0)
  {
    assert (stored + [row])[..|stored + [row]| - 1] == stored;
  }

  /** The stored rows whose field holds the value: what `filter(**{field: v})` selects. */
  function Holding(stored: seq<map<string, Value>>, field: string, v: Value): set<nat>
  {
    set i: nat | i < |stored| && field in stored[i] && stored[i][field] == v
  }

  /** The count is the number of stored rows holding the value, each row once. */
  lemma {:induction false} CountMatchingIsCount(stored: seq<map<string, Value>>, field: string, v: Value)
    ensures CountMatching(stored, field, v) == |Holding(stored, field, v)|
  {
    if stored != [] {
      CountMatchingIsCount(stored[..|stored| - 1], field, v);
      HoldingStep(stored, field, v);
    }
  }

  lemma HoldingStep(stored: seq<map<string, Value>>, field: string, v: Value)
    requires stored != []
    ensures var n := |stored| - 1;
            n !in Holding(stored[..n], field, v)
            && Holding(stored, field, v)
               == Holding(stored[..n], field, v) + (if field in stored[n] && stored[n][field] == v then {n} else {})
  {
    var n := |stored| - 1;
    var init := stored[..n];
    var step: set<nat> := if field in stored[n] && stored[n][field] == v then {n} else {};
    var before, after := Holding(init, field, v), Holding(stored, field, v);
    forall i: nat ensures i in after <==> i in before + step {
      if i < n {
        assert stored[i] == init[i];
      }
    }
    assert after == before + step;
  }

  /** Any stored row holding the value makes the count positive. */
  lemma {:induction false} CountMatchingPositive(stored: seq<map<string, Value>>, field: string, v: Value, i: nat)
    requires i < |stored| && field in stored[i] && stored[i][field] == v
    ensures CountMatching(stored, field, v) >= 1
  {
    if i < |stored| - 1 {
      CountMatchingPositive(stored[..|stored| - 1], field, v, i);
    }
  }

  const UniquePrefix := "There can only be "
  const UniqueSuffix := " with this value."

  function UniqueMessage(rule: UniqueRule): string
  {
    Or(rule.errorMessage, UniquePrefix + DecimalString(rule.maxInstances) + " instance"
      + (if rule.maxInstances == 1 then "" else "s") + UniqueSuffix)
  }

  function UniqueCheck(rule: UniqueRule, obj: Instance, stored: seq<map<string, Value>>): (r: Check)
    ensures r == Crash <==> rule.field !in obj.fields
    // `None` never violates; otherwise the count, including the instance's own stored row, decides
    ensures r.Violation? <==>
              rule.field in obj.fields && obj.fields[rule.field] != NoneValue
              && CountMatching(stored, rule.field, obj.fields[rule.field]) >= rule.maxInstances
    ensures r.Violation? ==> r == Violation(rule.field, UniqueMessage(rule))
  {
    if rule.field !in obj.fields then Crash
    else
      var v := obj.fields[rule.field];
      if v != NoneValue && CountMatching(stored, rule.field, v) >= rule.maxInstances
      then Violation(rule.field, UniqueMessage(rule))
      else Pass
  }

  /** With `max_instances == 1`, any stored row already holding the value is a violation. */
  lemma UniqueOneExisting(rule: UniqueRule, obj: Instance, stored: seq<map<string, Value>>, i: nat)
    requires rule.maxInstances == 1 && rule.field in obj.fields && obj.fields[rule.field] != NoneValue
    requires i < |stored| && rule.field in stored[i] && stored[i][rule.field] == obj.fields[rule.field]
    ensures UniqueCheck(rule, obj, stored).Violation?
  {
    CountMatchingPositive(stored, rule.field, obj.fields[rule.field], i);
  }
}
