/**
 * The data-compliance inspection of one instance (`DataComplianceObjectAPIView._validate`):
 * `full_clean` and then the `audit()` of every compliance ruleset of the model are each
 * run under `_audit`, which turns a `ValidationError` into attribute errors merged into
 * the report; any other exception escapes the call.
 */
module Views {
  import opened Common
  import opened Values
  import opened Errors
  import opened Registry
  import opened Audit

  /** The dictionary `_validate` returns: `model`, `id`, `valid` and `errors`. */
  datatype Report = Report(model: string, id: int, valid: bool, errors: map<string, ErrorEntry>)

  /** How `_validate` ends: with a report, or with an exception other than a `ValidationError`. */
  datatype Response = Compliance(report: Report) | Failed(exc: Exception)

  /** The compliance errors after a sequence of `_audit` calls; `Escaped` when one let an exception through. */
  datatype Collected = Audited(errors: map<string, ErrorEntry>) | Escaped(exc: Exception, errors: map<string, ErrorEntry>)

  /** `compliance_errors.update(extract_attribute_errors(ex))` for each caught `ValidationError`, in turn. */
  function Collect(outcomes: seq<Outcome>): Collected
  {
    if outcomes == [] then Audited(map[])
    else
      var before := Collect(outcomes[..|outcomes| - 1]);
      var o := Last(outcomes);
      if before.Escaped? || o == Normal then before
      else if IsValidationError(o.exc) then Audited(before.errors + AttributeErrors(o.exc.payload))
      else Escaped(o.exc, before.errors)
  }

  /** What each auditor of `_validate` does: `instance.full_clean`, then each ruleset's `audit`. */
  function Outcomes(fullClean: Outcome, rules: seq<RulesetClass>, instance: Instance, procedure: AuditProcedure): seq<Outcome>
  {
    [fullClean] + seq(|rules|, i requires 0 <= i < |rules| => procedure(rules[i], instance))
  }

  /** `_audit` lets this outcome's exception through. */
  predicate Escapes(o: Outcome)
  {
    o.Raised? && !IsValidationError(o.exc)
  }

  /** The outcome is a caught `ValidationError` whose extraction has key `a`. */
  predicate Reports(o: Outcome, a: string)
  {
    o.Raised? && IsValidationError(o.exc) && a in AttributeErrors(o.exc.payload)
  }

  class ComplianceView {
    /** `self.compliance_errors`. */
    var complianceErrors: map<string, ErrorEntry>
    /** `self.model._meta.label_lower`. */
    const modelLabel: string
    /** `self.rules`: the compliance ruleset classes of the model. */
    const rules: seq<RulesetClass>

    constructor (modelLabel: string, rules: seq<RulesetClass>)
      ensures this.modelLabel == modelLabel && this.rules == rules && complianceErrors == map[]
    {
      this.modelLabel := modelLabel;
      this.rules := rules;
      complianceErrors := map[];
    }

    /**
     * `_audit(auditor)`, where `outcome` is how `auditor()` ends. A `ValidationError` (an
     * `AuditError` included) is caught and its attribute errors replace the entries under
     * the same keys; any other exception propagates.
     */
    method AuditCall(outcome: Outcome) returns (propagated: Outcome)
      modifies this
      ensures Escapes(outcome) ==> propagated == outcome && complianceErrors == old(complianceErrors)
      ensures !Escapes(outcome) ==> propagated == Normal
      ensures outcome == Normal ==> complianceErrors == old(complianceErrors)
      ensures outcome.Raised? && IsValidationError(outcome.exc) ==>
                complianceErrors == old(complianceErrors) + AttributeErrors(outcome.exc.payload)
    {
      if outcome == Normal {
        return Normal;
      }
      if !IsValidationError(outcome.exc) {
        return outcome;
      }
      var errors := ExtractAttributeErrors(outcome.exc.payload);
      complianceErrors := complianceErrors + errors;
      propagated := Normal;
    }

    /**
     * `_validate(instance)`: `fullClean` is how `instance.full_clean()` ends and `procedure`
     * what each ruleset's `audit()` does. The instance is valid exactly when no error was
     * collected.
     */
    method Validate(instance: Instance, fullClean: Outcome, procedure: AuditProcedure) returns (response: Response)
      modifies this
      ensures var c := Collect(Outcomes(fullClean, rules, instance, procedure));
              complianceErrors == c.errors
              && response == (if c.Escaped? then Failed(c.exc)
                              else Compliance(Report(modelLabel, instance.id, c.errors == map[], c.errors)))
    {
      ghost var outcomes := Outcomes(fullClean, rules, instance, procedure);
      OutcomesAt(fullClean, rules, instance, procedure);
      complianceErrors := map[];
      assert outcomes[..1] == [fullClean];
      assert outcomes[..1][..0] == [];
      var propagated := AuditCall(fullClean);
      if propagated.Raised? {
        CollectStopped(outcomes, 1);
        return Failed(propagated.exc);
      }
      propagated := AuditRules(outcomes, instance, procedure);
      if propagated.Raised? {
        return Failed(propagated.exc);
      }
      response := Compliance(Report(modelLabel, instance.id, complianceErrors == map[], complianceErrors));
    }

    /** The loop of `_validate` over the rulesets, after `full_clean` was audited without escaping. */
    method AuditRules(ghost outcomes: seq<Outcome>, instance: Instance, procedure: AuditProcedure) returns (propagated: Outcome)
      requires |outcomes| == |rules| + 1
      requires forall i :: 0 <= i < |rules| ==> outcomes[i + 1] == procedure(rules[i], instance)
      requires Collect(outcomes[..1]) == Audited(complianceErrors)
      modifies this
      ensures var c := Collect(outcomes);
              complianceErrors == c.errors && (c.Escaped? <==> propagated.Raised?)
              && (c.Escaped? ==> propagated.exc == c.exc)
    {
      var i := 0;
      while i < |rules|
        invariant 0 <= i <= |rules|
        invariant Collect(outcomes[..i + 1]) == Audited(complianceErrors)
      {
        ghost var before := outcomes[..i + 1];
        var outcome := procedure(rules[i], instance);
        assert outcomes[..i + 2] == before + [outcome];
        propagated := AuditCall(outcome);
        CollectAppend(before, outcome);
        if propagated.Raised? {
          CollectStopped(outcomes, i + 2);
          return;
        }
        i := i + 1;
      }
      assert outcomes[..i + 1] == outcomes;
      propagated := Normal;
    }
  }

  lemma OutcomesAt(fullClean: Outcome, rules: seq<RulesetClass>, instance: Instance, procedure: AuditProcedure)
    ensures var o := Outcomes(fullClean, rules, instance, procedure);
            |o| == |rules| + 1 && o[0] == fullClean
            && forall i :: 0 <= i < |rules| ==> o[i + 1] == procedure(rules[i], instance)
  {
  }

  lemma CollectAppend(outcomes: seq<Outcome>, o: Outcome)
    ensures Collect(outcomes + [o]) ==
              var before := Collect(outcomes);
              if before.Escaped? || o == Normal then before
              else if IsValidationError(o.exc) then Audited(before.errors + AttributeErrors(o.exc.payload))
              else Escaped(o.exc, before.errors)
  {
    assert (outcomes + [o])[..|outcomes|] == outcomes;
  }

  /** Once an exception has escaped, later auditors change nothing (`_validate` has already ended). */
  lemma {:induction false} CollectStopped(outcomes: seq<Outcome>, n: nat)
    requires 0 < n <= |outcomes| && Collect(outcomes[..n]).Escaped?
    ensures Collect(outcomes) == Collect(outcomes[..n])
    decreases |outcomes| - n
  {
    if n < |outcomes| {
      assert outcomes[..n + 1][..n] == outcomes[..n];
      CollectStopped(outcomes, n + 1);
    } else {
      assert outcomes[..n] == outcomes;
    }
  }

  /** An exception escapes exactly when some auditor raises one that is not a `ValidationError`; the first one does. */
  lemma {:induction false} CollectEscapes(outcomes: seq<Outcome>)
    ensures Collect(outcomes).Escaped? <==> exists i :: 0 <= i < |outcomes| && Escapes(outcomes[i])
    ensures Collect(outcomes).Escaped? ==>
              exists i :: 0 <= i < |outcomes| && outcomes[i] == Raised(Collect(outcomes).exc)
                          && forall t :: 0 <= t < i ==> !Escapes(outcomes[t])
  {
    if outcomes != [] {
      var init := outcomes[..|outcomes| - 1];
      CollectEscapes(init);
      assert forall t :: 0 <= t < |init| ==> init[t] == outcomes[t];
      if Collect(init).Escaped? {
        var i :| 0 <= i < |init| && init[i] == Raised(Collect(init).exc) && forall t :: 0 <= t < i ==> !Escapes(init[t]);
        assert outcomes[i] == init[i];
      } else if Escapes(Last(outcomes)) {
        assert outcomes[|outcomes| - 1] == Last(outcomes);
      } else {
        forall i | 0 <= i < |outcomes| ensures !Escapes(outcomes[i]) {
          if i < |init| {
            assert outcomes[i] == init[i];
          }
        }
      }
    }
  }

  /** A key is in the report exactly when some caught `ValidationError` reports it. */
  lemma {:induction false} CollectKeys(outcomes: seq<Outcome>, a: string)
    requires !Collect(outcomes).Escaped?
    ensures a in Collect(outcomes).errors <==> exists i :: 0 <= i < |outcomes| && Reports(outcomes[i], a)
  {
    if outcomes != [] {
      var init := outcomes[..|outcomes| - 1];
      var o := Last(outcomes);
      assert outcomes[|outcomes| - 1] == o;
      assert !Collect(init).Escaped?;
      CollectKeys(init, a);
      assert a in Collect(outcomes).errors <==> a in Collect(init).errors || Reports(o, a);
      if a in Collect(init).errors {
        var i :| 0 <= i < |init| && Reports(init[i], a);
        assert outcomes[i] == init[i];
      } else if !Reports(o, a) {
        forall i | 0 <= i < |outcomes| ensures !Reports(outcomes[i], a) {
          if i < |init| {
            assert outcomes[i] == init[i];
          }
        }
      }
    }
  }

  /** The report holds, under a key, the entry of the last caught `ValidationError` that reports it (`dict.update` replaces). */
  lemma {:induction false} CollectLastWins(outcomes: seq<Outcome>, a: string, i: nat)
    requires !Collect(outcomes).Escaped?
    requires i < |outcomes| && Reports(outcomes[i], a)
    requires forall j :: i < j < |outcomes| ==> !Reports(outcomes[j], a)
    ensures a in Collect(outcomes).errors
    ensures Collect(outcomes).errors[a] == AttributeErrors(outcomes[i].exc.payload)[a]
  {
    var init := outcomes[..|outcomes| - 1];
    var o := Last(outcomes);
    assert outcomes[|outcomes| - 1] == o;
    assert !Collect(init).Escaped?;
    if i < |outcomes| - 1 {
      assert init[i] == outcomes[i];
      assert forall j :: i < j < |init| ==> init[j] == outcomes[j];
      CollectLastWins(init, a, i);
      assert !Reports(o, a);
    }
  }

  /** The instance is reported valid exactly when every caught `ValidationError` extracts to no error. */
  lemma CollectValid(outcomes: seq<Outcome>)
    requires !Collect(outcomes).Escaped?
    ensures Collect(outcomes).errors == map[] <==>
              forall i :: 0 <= i < |outcomes| && outcomes[i].Raised? && IsValidationError(outcomes[i].exc) ==>
                            AttributeErrors(outcomes[i].exc.payload) == map[]
  {
    if Collect(outcomes).errors != map[] {
      var a :| a in Collect(outcomes).errors;
      CollectKeys(outcomes, a);
    } else {
      forall i | 0 <= i < |outcomes| && outcomes[i].Raised? && IsValidationError(outcomes[i].exc)
        ensures AttributeErrors(outcomes[i].exc.payload) == map[]
      {
        if AttributeErrors(outcomes[i].exc.payload) != map[] {
          var a :| a in AttributeErrors(outcomes[i].exc.payload);
          CollectKeys(outcomes, a);
          assert Reports(outcomes[i], a);
        }
      }
    }
  }
}
