/**
 * `AuditRuleset`: one run of a procedural audit over one instance, and the way it
 * reconciles the `AuditResult` table — failed attributes are written invalid, every other
 * attribute already recorded for the run's class and instance is re-marked valid, and the
 * `"all"` row records the verdict on the whole object.
 */
module Audit {
  import opened Common
  import opened Values
  import opened Errors
  import opened Registry
  import opened Ledger

  /** What the `audit()` method a ruleset class defines does for an instance. */
  type AuditProcedure = (RulesetClass, Instance) -> Outcome

  /** What one run writes under: its `class_name`, its instance and the time taken once at construction. */
  datatype AuditRun = AuditRun(className: string, instance: Instance, date: Timestamp)

  /** `self.class_name or self.__class__.__name__`. */
  function DefaultClassName(cls: RulesetClass): string
  {
    Or(cls.classNameAttr, cls.typeName)
  }

  // ---------------------------------------------------------------- one write (`audit_result`)

  /** A falsy attribute (`None` or empty) is stored under `"all"`. */
  function StoredAttribute(attribute: string): string
  {
    if attribute == "" then "all" else attribute
  }

  function OwnerKey(run: AuditRun, attribute: string): Key
  {
    Key(run.className, run.instance.contentType, run.instance.id, StoredAttribute(attribute))
  }

  /** The key of the whole-object row. */
  function AllKey(run: AuditRun): Key
  {
    OwnerKey(run, "")
  }

  /** `getattr(instance, attribute)` succeeds, or is not attempted because the attribute is falsy. */
  predicate Resolvable(run: AuditRun, attribute: string)
  {
    attribute == "" || attribute in run.instance.fields
  }

  /** `str(attribute_value) if attribute_value else None`. */
  function StoredValue(run: AuditRun, attribute: string): Option<string>
  {
    if attribute != "" && attribute in run.instance.fields && Truthy(run.instance.fields[attribute])
    then Some(PyStr(run.instance.fields[attribute]))
    else None
  }

  function ResultRow(run: AuditRun, message: string, attribute: string, valid: bool): Row
  {
    Row(run.date, StoredValue(run, attribute), message, valid)
  }

  /**
   * A value is stored exactly when the attribute is named and its value is truthy, and then
   * it is `str(v)`; so every falsy value (`0`, `False`, `""`, `None`, an empty container)
   * stores `None`.
   */
  lemma StoredValueTruthiness(run: AuditRun, attribute: string)
    requires attribute in run.instance.fields
    ensures var v := run.instance.fields[attribute];
            (StoredValue(run, attribute).Some? <==> attribute != "" && Truthy(v))
            && (StoredValue(run, attribute).Some? ==> StoredValue(run, attribute) == Some(PyStr(v)))
            && (v in {NoneValue, Int(0), Bool(false), Str("")} ==> StoredValue(run, attribute) == None)
  {
  }

  // ---------------------------------------------------------------- the sweep (`mark_existing_attributes_as_valid`)

  /** The row belongs to the run's class and instance. */
  predicate Owned(run: AuditRun, k: Key)
  {
    k.className == run.className && k.contentType == run.instance.contentType && k.objectId == run.instance.id
  }

  /** The rows the sweep rewrites: the run's own, apart from `"all"` and the excluded attributes. */
  function Candidates(run: AuditRun, rows: map<Key, Row>, exclude: set<string>): set<Key>
  {
    set k | k in rows && Owned(run, k) && k.attribute != "all" && k.attribute !in exclude
  }

  /** Some row to rewrite names an attribute the instance does not have, so `getattr` raises. */
  predicate SweepRaises(run: AuditRun, rows: map<Key, Row>, exclude: set<string>)
  {
    exists k :: k in Candidates(run, rows, exclude) && k.attribute !in run.instance.fields
  }

  function SweptRow(run: AuditRun, k: Key): Row
  {
    ResultRow(run, k.attribute + " is valid.", k.attribute, true)
  }

  /** The table after a sweep that does not raise. */
  function Swept(run: AuditRun, rows: map<Key, Row>, exclude: set<string>): map<Key, Row>
  {
    map k | k in rows :: if k in Candidates(run, rows, exclude) then SweptRow(run, k) else rows[k]
  }

  /** The table part way through a sweep: some candidates rewritten, nothing else changed. */
  ghost predicate PartlySwept(run: AuditRun, before: map<Key, Row>, after: map<Key, Row>, exclude: set<string>)
  {
    after.Keys == before.Keys
    && forall k :: k in before ==>
         after[k] == before[k] || (k in Candidates(run, before, exclude) && after[k] == SweptRow(run, k))
  }

  /**
   * The sweep part way: the keys in `attributes - pending` are rewritten valid (their
   * attributes resolved), every other row is as it was.
   */
  ghost predicate SweepAt(run: AuditRun, before: map<Key, Row>, rows: map<Key, Row>, attributes: set<Key>, pending: set<Key>)
  {
    pending <= attributes && attributes <= before.Keys && rows.Keys == before.Keys
    && (forall k :: k in before && k !in attributes ==> rows[k] == before[k])
    && (forall k :: k in pending ==> rows[k] == before[k])
    && (forall k :: k in attributes - pending ==> rows[k] == SweptRow(run, k) && k.attribute in run.instance.fields)
  }

  lemma SweepStep(run: AuditRun, before: map<Key, Row>, rows: map<Key, Row>, attributes: set<Key>, pending: set<Key>, k: Key)
    requires SweepAt(run, before, rows, attributes, pending) && k in pending && k.attribute in run.instance.fields
    ensures SweepAt(run, before, rows[k := SweptRow(run, k)], attributes, pending - {k})
  {
  }

  lemma SweepStopped(run: AuditRun, before: map<Key, Row>, rows: map<Key, Row>, exclude: set<string>, pending: set<Key>, k: Key)
    requires SweepAt(run, before, rows, Candidates(run, before, exclude), pending)
    requires k in pending && k.attribute !in run.instance.fields
    ensures SweepRaises(run, before, exclude) && PartlySwept(run, before, rows, exclude)
  {
  }

  lemma SweepFinished(run: AuditRun, before: map<Key, Row>, rows: map<Key, Row>, exclude: set<string>)
    requires SweepAt(run, before, rows, Candidates(run, before, exclude), {})
    ensures !SweepRaises(run, before, exclude) && rows == Swept(run, before, exclude)
  {
    assert forall k :: k in Candidates(run, before, exclude) ==> k in Candidates(run, before, exclude) - {};
  }

  // ---------------------------------------------------------------- the failure writes of `clean`

  /** Writing an item's messages does not raise: there are none, or its attribute resolves. */
  predicate Writable(run: AuditRun, item: (string, seq<string>))
  {
    item.1 == [] || Resolvable(run, item.0)
  }

  /** How many items are written before an `AttributeError` sends `clean` to its fallback. */
  function FallbackIndex(run: AuditRun, items: seq<(string, seq<string>)>): (f: nat)
    ensures f <= |items|
    ensures forall i :: 0 <= i < f ==> Writable(run, items[i])
    ensures f < |items| ==> !Writable(run, items[f])
  {
    if items == [] then 0
    else if !Writable(run, items[0]) then 0
    else
      var f := FallbackIndex(run, items[1..]);
      assert forall i :: 0 < i <= f ==> items[i] == items[1..][i - 1];
      1 + f
  }

  /** Each item's messages written invalid in turn; the last message of an attribute is what stays. */
  function DictWrites(run: AuditRun, rows: map<Key, Row>, items: seq<(string, seq<string>)>): map<Key, Row>
  {
    if items == [] then rows
    else
      var rest := DictWrites(run, rows, items[..|items| - 1]);
      var item := Last(items);
      if item.1 == [] then rest else rest[OwnerKey(run, item.0) := ResultRow(run, Last(item.1), item.0, false)]
  }

  /** Messages written invalid under `"all"` in turn. */
  function AllWrites(run: AuditRun, rows: map<Key, Row>, messages: seq<string>): map<Key, Row>
  {
    if messages == [] then rows else rows[AllKey(run) := ResultRow(run, Last(messages), "", false)]
  }

  /** The table after the `try`/`except AttributeError` part of the failure path. */
  function FailureWrites(run: AuditRun, rows: map<Key, Row>, e: ErrorPayload): map<Key, Row>
  {
    match e
    case ListForm(messages) => AllWrites(run, rows, messages)
    case DictForm(items) =>
      var f := FallbackIndex(run, items);
      var written := DictWrites(run, rows, items[..f]);
      if f == |items| then written else AllWrites(run, written, Messages(e))
  }

  /** The attributes appended to `exclude_attributes` before the sweep. */
  function FailureExclude(run: AuditRun, e: ErrorPayload): set<string>
  {
    match e
    case ListForm(_) => {}
    case DictForm(items) =>
      var f := FallbackIndex(run, items);
      var n := if f == |items| then f else f + 1;
      set i | 0 <= i < n :: items[i].0
  }

  /** The table after a passing audit whose sweep does not raise. */
  function PassedLedger(run: AuditRun, rows: map<Key, Row>): map<Key, Row>
  {
    Swept(run, rows, {})[AllKey(run) := ResultRow(run, run.instance.display + " is valid", "", true)]
  }

  /** The table after an `AuditError` whose sweep does not raise. */
  function FailedLedger(run: AuditRun, rows: map<Key, Row>, e: ErrorPayload): map<Key, Row>
  {
    Swept(run, FailureWrites(run, rows, e), FailureExclude(run, e))
      [AllKey(run) := ResultRow(run, run.instance.display + " is not valid", "", false)]
  }

  /**
   * The (outcome, table) pairs one `AuditRuleset(obj).clean()` of class `cls` may end in,
   * from table `before`: what `AuditRuleset.Clean` guarantees.
   */
  ghost predicate CleanStep(
    cls: RulesetClass, obj: Instance, now: Timestamp, procedure: AuditProcedure,
    before: map<Key, Row>, outcome: Outcome, after: map<Key, Row>)
  {
    var run := AuditRun(DefaultClassName(cls), obj, now);
    var result := procedure(cls, obj);
    if result == Normal then
      if SweepRaises(run, before, {}) then outcome == Raised(OtherErr) && PartlySwept(run, before, after, {})
      else outcome == Normal && after == PassedLedger(run, before)
    else if result.exc.AuditErr? then
      var e := result.exc.payload;
      var mid := FailureWrites(run, before, e);
      if SweepRaises(run, mid, FailureExclude(run, e)) then
        outcome == Raised(OtherErr) && PartlySwept(run, mid, after, FailureExclude(run, e))
      else
        outcome == (if cls.enforce then Raised(AuditErr(e)) else Normal) && after == FailedLedger(run, before, e)
    else
      outcome == result && after == before
  }

  // ---------------------------------------------------------------- the class

  class AuditRuleset {
    const cls: RulesetClass
    const run: AuditRun
    const enforce: bool
    const ledger: AuditResults
    const procedure: AuditProcedure

    /** `__init__`: `class_name` defaults to the class's name; the timestamp is taken once, here. */
    constructor (cls: RulesetClass, obj: Instance, ledger: AuditResults, now: Timestamp, procedure: AuditProcedure)
      ensures this.cls == cls && this.ledger == ledger && this.procedure == procedure
      ensures run == AuditRun(DefaultClassName(cls), obj, now) && enforce == cls.enforce
    {
      this.cls := cls;
      this.run := AuditRun(DefaultClassName(cls), obj, now);
      this.enforce := cls.enforce;
      this.ledger := ledger;
      this.procedure := procedure;
    }

    /** What `self.audit()` does. */
    function AuditOutcome(): Outcome
    {
      procedure(cls, run.instance)
    }

    /**
     * `audit_result`: upsert the row for `attribute` (`""` standing for `None`). `raised`
     * is the `AttributeError` of `getattr` on an attribute the instance does not have,
     * in which case nothing is written.
     */
    method AuditResult(message: string, attribute: string, valid: bool) returns (raised: bool)
      requires ledger.Valid()
      modifies ledger
      ensures ledger.Valid()
      ensures raised == !Resolvable(run, attribute)
      ensures raised ==> ledger.rows == old(ledger.rows)
      ensures !raised ==> ledger.rows == old(ledger.rows)[OwnerKey(run, attribute) := ResultRow(run, message, attribute, valid)]
    {
      if attribute != "" && attribute !in run.instance.fields {
        return true;
      }
      ledger.UpdateOrCreate(OwnerKey(run, attribute), ResultRow(run, message, attribute, valid));
      raised := false;
    }

    /**
     * `mark_existing_attributes_as_valid`: the run's rows, other than `"all"` and the
     * excluded attributes, are read once and each rewritten valid, in the order the
     * database returns them.
     */
    method MarkExistingAttributesAsValid(exclude: seq<string>) returns (raised: bool)
      requires ledger.Valid()
      modifies ledger
      ensures ledger.Valid()
      ensures raised == SweepRaises(run, old(ledger.rows), set a | a in exclude)
      ensures !raised ==> ledger.rows == Swept(run, old(ledger.rows), set a | a in exclude)
      ensures raised ==> PartlySwept(run, old(ledger.rows), ledger.rows, set a | a in exclude)
    {
      ghost var excluded := set a | a in exclude;
      ghost var before := ledger.rows;
      var attributes := Candidates(run, ledger.rows, set a | a in exclude);
      var pending := attributes;
      while pending != {}
        invariant ledger.Valid() && SweepAt(run, before, ledger.rows, attributes, pending)
        decreases pending
      {
        var k :| k in pending;
        assert OwnerKey(run, k.attribute) == k;
        ghost var mid := ledger.rows;
        raised := AuditResult(k.attribute + " is valid.", k.attribute, true);
        if raised {
          SweepStopped(run, before, mid, excluded, pending, k);
          return;
        }
        SweepStep(run, before, mid, attributes, pending, k);
        pending := pending - {k};
      }
      raised := false;
      SweepFinished(run, before, ledger.rows, excluded);
    }

    /**
     * `clean`: run the audit and reconcile the table. An `AuditError` is recorded; it
     * propagates, after every write, only when the class enforces. Any other exception
     * from `audit()` propagates before anything is written.
     */
    method Clean() returns (outcome: Outcome)
      requires ledger.Valid()
      modifies ledger
      ensures ledger.Valid()
      ensures AuditOutcome() == Normal ==>
                if SweepRaises(run, old(ledger.rows), {}) then
                  outcome == Raised(OtherErr) && PartlySwept(run, old(ledger.rows), ledger.rows, {})
                else
                  outcome == Normal && ledger.rows == PassedLedger(run, old(ledger.rows))
      ensures AuditOutcome().Raised? && AuditOutcome().exc.AuditErr? ==>
                var e := AuditOutcome().exc.payload;
                var mid := FailureWrites(run, old(ledger.rows), e);
                if SweepRaises(run, mid, FailureExclude(run, e)) then
                  outcome == Raised(OtherErr) && PartlySwept(run, mid, ledger.rows, FailureExclude(run, e))
                else
                  outcome == (if enforce then Raised(AuditErr(e)) else Normal)
                  && ledger.rows == FailedLedger(run, old(ledger.rows), e)
      ensures AuditOutcome().Raised? && !AuditOutcome().exc.AuditErr? ==>
                outcome == AuditOutcome() && ledger.rows == old(ledger.rows)
    {
      var result := procedure(cls, run.instance);
      if result == Normal {
        var raised := MarkExistingAttributesAsValid([]);
        assert (set a: string | a in []) == {};
        if raised {
          return Raised(OtherErr);
        }
        raised := AuditResult(run.instance.display + " is valid", "", true);
        return Normal;
      }
      if !result.exc.AuditErr? {
        return result;
      }
      var e := result.exc.payload;
      var exclude := WriteFailures(e);
      // `finally`
      var raised := MarkExistingAttributesAsValid(exclude);
      if raised {
        return Raised(OtherErr);
      }
      raised := AuditResult(run.instance.display + " is not valid", "", false);
      if enforce {
        return Raised(AuditErr(e));
      }
      return Normal;
    }

    /**
     * The `try`/`except AttributeError` part of `clean`'s failure path: each message of
     * `message_dict` is written invalid under its attribute; an `AttributeError` (the
     * error has no `message_dict`, or `getattr` fails on one of its attributes) writes
     * every message of the error under `"all"` instead. Returns `exclude_attributes`.
     */
    method WriteFailures(e: ErrorPayload) returns (exclude: seq<string>)
      requires ledger.Valid()
      modifies ledger
      ensures ledger.Valid()
      ensures ledger.rows == FailureWrites(run, old(ledger.rows), e)
      ensures (set a | a in exclude) == FailureExclude(run, e)
    {
      match e {
        case DictForm(items) =>
          var fellBack;
          exclude, fellBack := WriteDictFailures(items);
          if fellBack {
            WriteAllMessages(Messages(e));
          }
        case ListForm(messages) =>
          exclude := [];
          WriteAllMessages(messages);
          assert (set a | a in exclude) == {};
      }
    }

    /** `for message in messages: self.audit_result(message=message, valid=False)`. */
    method WriteAllMessages(messages: seq<string>)
      requires ledger.Valid()
      modifies ledger
      ensures ledger.Valid()
      ensures ledger.rows == AllWrites(run, old(ledger.rows), messages)
    {
      ghost var before := ledger.rows;
      var j := 0;
      while j < |messages|
        invariant 0 <= j <= |messages|
        invariant ledger.Valid()
        invariant ledger.rows == AllWrites(run, before, messages[..j])
      {
        var raised := AuditResult(messages[j], "", false);
        j := j + 1;
      }
      assert messages[..j] == messages;
    }

    /**
     * The `message_dict` loop: `fellBack` is the `AttributeError` that ends it, raised
     * by `getattr` on an attribute the instance does not have.
     */
    method WriteDictFailures(items: seq<(string, seq<string>)>) returns (exclude: seq<string>, fellBack: bool)
      requires ledger.Valid()
      modifies ledger
      ensures ledger.Valid()
      ensures fellBack <==> FallbackIndex(run, items) < |items|
      ensures ledger.rows == DictWrites(run, old(ledger.rows), items[..FallbackIndex(run, items)])
      ensures (set a | a in exclude) == FailureExclude(run, DictForm(items))
    {
      ghost var before := ledger.rows;
      exclude := [];
      var i := 0;
      fellBack := false;
      while i < |items| && !fellBack
        invariant 0 <= i <= |items|
        invariant ledger.Valid()
        invariant WritablePrefix(run, items, i)
        invariant ledger.rows == DictWrites(run, before, items[..i])
        invariant fellBack ==> i < |items| && !Writable(run, items[i])
        invariant |exclude| == (if fellBack then i + 1 else i)
        invariant forall t :: 0 <= t < |exclude| ==> exclude[t] == items[t].0
        decreases |items| - i, if fellBack then 0 else 1
      {
        exclude := exclude + [items[i].0];
        fellBack := WriteAttributeFailures(items[i].0, items[i].1);
        if !fellBack {
          WritablePrefixStep(run, items, i);
          DictWritesAppend(run, before, items, i);
          i := i + 1;
        }
      }
      FallbackIndexAt(run, items, i, fellBack);
      ExcludeIsFailureExclude(run, items, i, fellBack, exclude);
    }

    /**
     * `for message in messages: self.audit_result(message=message, attribute=attribute, valid=False)`:
     * the last message stays; `raised` is the `AttributeError` of the first write when the
     * attribute does not resolve.
     */
    method WriteAttributeFailures(attribute: string, messages: seq<string>) returns (raised: bool)
      requires ledger.Valid()
      modifies ledger
      ensures ledger.Valid()
      ensures raised <==> !Writable(run, (attribute, messages))
      ensures raised || messages == [] ==> ledger.rows == old(ledger.rows)
      ensures !raised && messages != [] ==>
                ledger.rows == old(ledger.rows)[OwnerKey(run, attribute) := ResultRow(run, Last(messages), attribute, false)]
    {
      ghost var before := ledger.rows;
      raised := false;
      var j := 0;
      while j < |messages|
        invariant 0 <= j <= |messages|
        invariant ledger.Valid()
        invariant j > 0 ==> Resolvable(run, attribute)
        invariant ledger.rows == if j == 0 then before
                                 else before[OwnerKey(run, attribute) := ResultRow(run, messages[j - 1], attribute, false)]
      {
        raised := AuditResult(messages[j], attribute, false);
        if raised {
          return;
        }
        j := j + 1;
      }
    }
  }

  // ---------------------------------------------------------------- proof steps for Clean

  lemma DictWritesAppend(run: AuditRun, rows: map<Key, Row>, items: seq<(string, seq<string>)>, i: nat)
    requires i < |items|
    ensures DictWrites(run, rows, items[..i + 1]) ==
              if items[i].1 == [] then DictWrites(run, rows, items[..i])
              else DictWrites(run, rows, items[..i])[OwnerKey(run, items[i].0) := ResultRow(run, Last(items[i].1), items[i].0, false)]
  {
    assert items[..i + 1][..i] == items[..i];
  }

  /** The first `i` items are written without an `AttributeError`. */
  predicate WritablePrefix(run: AuditRun, items: seq<(string, seq<string>)>, i: nat)
    requires i <= |items|
  {
    forall t :: 0 <= t < i ==> Writable(run, items[t])
  }

  lemma WritablePrefixStep(run: AuditRun, items: seq<(string, seq<string>)>, i: nat)
    requires i < |items| && WritablePrefix(run, items, i) && Writable(run, items[i])
    ensures WritablePrefix(run, items, i + 1)
  {
  }

  lemma FallbackIndexAt(run: AuditRun, items: seq<(string, seq<string>)>, i: nat, fellBack: bool)
    requires i <= |items|
    requires WritablePrefix(run, items, i)
    requires fellBack ==> i < |items| && !Writable(run, items[i])
    requires !fellBack ==> i == |items|
    ensures FallbackIndex(run, items) == i
  {
  }

  lemma ExcludeIsFailureExclude(run: AuditRun, items: seq<(string, seq<string>)>, i: nat, fellBack: bool, exclude: seq<string>)
    requires i <= |items| && FallbackIndex(run, items) == i
    requires fellBack ==> i < |items|
    requires !fellBack ==> i == |items|
    requires |exclude| == (if fellBack then i + 1 else i)
    requires forall t :: 0 <= t < |exclude| ==> exclude[t] == items[t].0
    ensures (set a | a in exclude) == FailureExclude(run, DictForm(items))
  {
    var n := |exclude|;
    forall a | a in exclude ensures a in FailureExclude(run, DictForm(items)) {
      var t :| 0 <= t < n && exclude[t] == a;
    }
    forall a | a in FailureExclude(run, DictForm(items)) ensures a in exclude {
      var t :| 0 <= t < n && items[t].0 == a;
      assert exclude[t] == a;
    }
  }
}

/**
 * What one run leaves in the `AuditResult` table, stated over the specification functions
 * that `AuditRuleset.Clean` is proved against.
 */
module Reconciliation {
  import opened Common
  import opened Errors
  import opened Ledger
  import opened Audit

  /** The table with every timestamp erased. */
  function Undated(rows: map<Key, Row>): map<Key, Row>
  {
    map k | k in rows :: rows[k].(date := 0)
  }

  /** The keys a dict-form failure writes invalid, one per attribute that has messages. */
  function WrittenKeys(run: AuditRun, items: seq<(string, seq<string>)>): set<Key>
  {
    set i | 0 <= i < |items| && items[i].1 != [] :: OwnerKey(run, items[i].0)
  }

  /** The attribute keys a failure writes (the fallback writes only `"all"`). */
  function FailureKeys(run: AuditRun, e: ErrorPayload): set<Key>
  {
    match e
    case ListForm(_) => {}
    case DictForm(items) => WrittenKeys(run, items[..FallbackIndex(run, items)])
  }

  /**
   * After a passing audit every row the run owns, other than `"all"`, is valid with the
   * message "{attribute} is valid."; the `"all"` row is valid; no other row changes and
   * no row is created besides `"all"`.
   */
  lemma PassedLedgerReconciles(run: AuditRun, rows: map<Key, Row>)
    ensures PassedLedger(run, rows).Keys == rows.Keys + {AllKey(run)}
    ensures forall k :: k in rows && Owned(run, k) && k.attribute != "all" ==>
              PassedLedger(run, rows)[k] == SweptRow(run, k)
              && PassedLedger(run, rows)[k].valid && PassedLedger(run, rows)[k].message == k.attribute + " is valid."
    ensures forall k :: k in rows && !Owned(run, k) ==> PassedLedger(run, rows)[k] == rows[k]
    ensures PassedLedger(run, rows)[AllKey(run)] == ResultRow(run, run.instance.display + " is valid", "", true)
  {
  }

  /**
   * Running a passing audit a second time, for the same class and instance, raises no
   * more than the first did and leaves the same table apart from dates; with the same
   * timestamp it leaves exactly the same table.
   */
  lemma PassingAuditIsIdempotent(first: AuditRun, second: AuditRun, rows: map<Key, Row>)
    requires first.className == second.className && first.instance == second.instance
    requires !SweepRaises(first, rows, {})
    ensures !SweepRaises(second, PassedLedger(first, rows), {})
    ensures Undated(PassedLedger(second, PassedLedger(first, rows))) == Undated(PassedLedger(first, rows))
    ensures first.date == second.date ==> PassedLedger(second, PassedLedger(first, rows)) == PassedLedger(first, rows)
  {
    var once := PassedLedger(first, rows);
    var twice := PassedLedger(second, once);
    PassedCandidates(first, second, rows);
    forall k | k in once
      ensures Undated(twice)[k] == Undated(once)[k]
      ensures first.date == second.date ==> twice[k] == once[k]
    {
      PassedTwiceAt(first, second, rows, k);
    }
    assert AllKey(second) == AllKey(first);
    assert twice.Keys == once.Keys;
    assert Undated(twice).Keys == Undated(once).Keys;
    assert Undated(twice) == Undated(once);
  }

  /** The second pass would rewrite exactly the rows the first did. */
  lemma PassedCandidates(first: AuditRun, second: AuditRun, rows: map<Key, Row>)
    requires first.className == second.className && first.instance == second.instance
    ensures Candidates(second, PassedLedger(first, rows), {}) == Candidates(first, rows, {})
  {
    var once := PassedLedger(first, rows);
    PassedLedgerReconciles(first, rows);
    forall k | k in once && Owned(second, k) && k.attribute != "all" ensures k in rows {
      assert k != AllKey(first);
    }
  }

  /** One row of `PassingAuditIsIdempotent`: the second pass rewrites it with only the date changed. */
  lemma PassedTwiceAt(first: AuditRun, second: AuditRun, rows: map<Key, Row>, k: Key)
    requires first.className == second.className && first.instance == second.instance
    requires k in PassedLedger(first, rows)
    ensures k in PassedLedger(second, PassedLedger(first, rows))
    ensures PassedLedger(second, PassedLedger(first, rows))[k].(date := 0) == PassedLedger(first, rows)[k].(date := 0)
    ensures first.date == second.date ==> PassedLedger(second, PassedLedger(first, rows))[k] == PassedLedger(first, rows)[k]
  {
    var once := PassedLedger(first, rows);
    PassedLedgerReconciles(first, rows);
    PassedLedgerReconciles(second, once);
    if k != AllKey(first) && Owned(first, k) && k.attribute != "all" {
      assert k in rows;
    }
  }

  lemma {:induction false} DictWritesFrame(run: AuditRun, rows: map<Key, Row>, items: seq<(string, seq<string>)>)
    ensures DictWrites(run, rows, items).Keys == rows.Keys + WrittenKeys(run, items)
    ensures forall k :: k in rows && k !in WrittenKeys(run, items) ==> DictWrites(run, rows, items)[k] == rows[k]
  {
    if items != [] {
      DictWritesFrame(run, rows, items[..|items| - 1]);
      WrittenKeysStep(run, items);
    }
  }

  lemma WrittenKeysStep(run: AuditRun, items: seq<(string, seq<string>)>)
    requires items != []
    ensures WrittenKeys(run, items) ==
              WrittenKeys(run, items[..|items| - 1]) + (if Last(items).1 == [] then {} else {OwnerKey(run, Last(items).0)})
  {
    var init := items[..|items| - 1];
    assert forall i :: 0 <= i < |init| ==> init[i] == items[i];
    assert items[|items| - 1] == Last(items);
  }

  /** With distinct attributes, an attribute's row holds the last message listed for it. */
  lemma {:induction false} DictWritesLastMessage(run: AuditRun, rows: map<Key, Row>, items: seq<(string, seq<string>)>, i: nat)
    requires DistinctAttributes(items) && i < |items| && items[i].1 != [] && items[i].0 !in {"", "all"}
    ensures OwnerKey(run, items[i].0) in DictWrites(run, rows, items)
    ensures DictWrites(run, rows, items)[OwnerKey(run, items[i].0)] == ResultRow(run, Last(items[i].1), items[i].0, false)
  {
    var init := items[..|items| - 1];
    assert forall t :: 0 <= t < |init| ==> init[t] == items[t];
    if i < |items| - 1 {
      DictWritesLastMessage(run, rows, init, i);
      assert OwnerKey(run, Last(items).0) != OwnerKey(run, items[i].0);
    }
  }

  lemma FailureWritesFrame(run: AuditRun, rows: map<Key, Row>, e: ErrorPayload)
    ensures rows.Keys <= FailureWrites(run, rows, e).Keys
    ensures FailureWrites(run, rows, e).Keys <= rows.Keys + FailureKeys(run, e) + {AllKey(run)}
  {
    if e.DictForm? {
      DictWritesFrame(run, rows, e.items[..FallbackIndex(run, e.items)]);
    }
  }

  /**
   * After an `AuditError`, each failed attribute written before the loop ends (all of them,
   * or those before the first that does not resolve) is invalid and holds the last message
   * listed for it: the `"all"` fallback does not touch it and the sweep excludes it.
   */
  lemma FailedAttributesEndInvalid(run: AuditRun, rows: map<Key, Row>, items: seq<(string, seq<string>)>, i: nat)
    requires DistinctAttributes(items) && i < FallbackIndex(run, items)
    requires items[i].1 != [] && items[i].0 !in {"", "all"}
    ensures OwnerKey(run, items[i].0) in FailedLedger(run, rows, DictForm(items))
    ensures FailedLedger(run, rows, DictForm(items))[OwnerKey(run, items[i].0)]
            == ResultRow(run, Last(items[i].1), items[i].0, false)
  {
    var f := FallbackIndex(run, items);
    var written := items[..f];
    assert written[i] == items[i];
    assert DistinctAttributes(written) by {
      forall a, b | 0 <= a < b < |written| ensures written[a].0 != written[b].0 {
        assert written[a] == items[a] && written[b] == items[b];
      }
    }
    DictWritesLastMessage(run, rows, written, i);
    assert OwnerKey(run, items[i].0) != AllKey(run);
    assert items[i].0 in FailureExclude(run, DictForm(items));
  }

  /** The example of a dict with a resolving `x` and a missing `y`: `x` still ends invalid with its message. */
  lemma FallbackKeepsEarlierFailures(run: AuditRun, rows: map<Key, Row>, x: string, y: string, m: string, n: string)
    requires x !in {"", "all"} && x in run.instance.fields && y != "" && y != x && y !in run.instance.fields
    ensures FallbackIndex(run, [(x, [m]), (y, [n])]) == 1
    ensures FailedLedger(run, rows, DictForm([(x, [m]), (y, [n])]))[OwnerKey(run, x)] == ResultRow(run, m, x, false)
  {
    var items := [(x, [m]), (y, [n])];
    assert items[1..] == [(y, [n])];
    FailedAttributesEndInvalid(run, rows, items, 0);
  }

  /**
   * After an `AuditError`, every row the run owns whose attribute is neither `"all"` nor
   * excluded by the failure becomes valid: attributes that no longer fail recover.
   */
  lemma UnflaggedAttributesRecover(run: AuditRun, rows: map<Key, Row>, e: ErrorPayload, k: Key)
    requires k in rows && Owned(run, k) && k.attribute != "all" && k.attribute !in FailureExclude(run, e)
    ensures k in FailedLedger(run, rows, e)
    ensures FailedLedger(run, rows, e)[k] == SweptRow(run, k)
    ensures FailedLedger(run, rows, e)[k].valid && FailedLedger(run, rows, e)[k].message == k.attribute + " is valid."
  {
    FailureWritesFrame(run, rows, e);
    assert k in Candidates(run, FailureWrites(run, rows, e), FailureExclude(run, e));
  }

  /**
   * When an attribute of a `message_dict` does not resolve, the loop is abandoned there:
   * an attribute listed after it, though it has messages, is neither written nor excluded,
   * so the sweep marks its stored row valid.
   */
  lemma AbandonedAttributesRecover(run: AuditRun, rows: map<Key, Row>, items: seq<(string, seq<string>)>, t: nat)
    requires DistinctAttributes(items) && FallbackIndex(run, items) < t < |items|
    requires items[t].1 != [] && items[t].0 !in {"", "all"} && OwnerKey(run, items[t].0) in rows
    ensures items[t].0 !in FailureExclude(run, DictForm(items))
    ensures OwnerKey(run, items[t].0) in FailedLedger(run, rows, DictForm(items))
    ensures FailedLedger(run, rows, DictForm(items))[OwnerKey(run, items[t].0)] == SweptRow(run, OwnerKey(run, items[t].0))
    ensures FailedLedger(run, rows, DictForm(items))[OwnerKey(run, items[t].0)].valid
  {
    var f := FallbackIndex(run, items);
    forall i | 0 <= i < f + 1 ensures items[i].0 != items[t].0 {}
    UnflaggedAttributesRecover(run, rows, DictForm(items), OwnerKey(run, items[t].0));
  }

  /**
   * An `AuditError` creates no row besides the failed attributes' rows and `"all"`, which
   * ends invalid; rows other than the run's keep their contents.
   */
  lemma FailedLedgerFrame(run: AuditRun, rows: map<Key, Row>, e: ErrorPayload)
    ensures rows.Keys + {AllKey(run)} <= FailedLedger(run, rows, e).Keys
    ensures FailedLedger(run, rows, e).Keys <= rows.Keys + FailureKeys(run, e) + {AllKey(run)}
    ensures FailedLedger(run, rows, e)[AllKey(run)] == ResultRow(run, run.instance.display + " is not valid", "", false)
    ensures forall k :: k in rows && !Owned(run, k) ==> FailedLedger(run, rows, e)[k] == rows[k]
  {
    FailureWritesFrame(run, rows, e);
    if e.DictForm? {
      var f := FallbackIndex(run, e.items);
      DictWritesFrame(run, rows, e.items[..f]);
      forall k | k in rows && !Owned(run, k)
        ensures FailureWrites(run, rows, e)[k] == rows[k]
      {
        assert k !in WrittenKeys(run, e.items[..f]);
      }
    }
  }

  /**
   * Partial recovery over two runs: a first run fails attributes `a` and `b`, a second
   * (same class, same instance) fails only `a`. Afterwards `b` is valid and `a` is
   * invalid with the second run's message.
   */
  lemma PartialRecovery(
    first: AuditRun, second: AuditRun, rows: map<Key, Row>, a: string, b: string, ma: string, mb: string, ma2: string)
    requires first.className == second.className && first.instance == second.instance
    requires a != b && a !in {"", "all"} && b !in {"", "all"}
    requires a in first.instance.fields && b in first.instance.fields
    ensures var afterFirst := FailedLedger(first, rows, DictForm([(a, [ma]), (b, [mb])]));
            var afterSecond := FailedLedger(second, afterFirst, DictForm([(a, [ma2])]));
            OwnerKey(second, a) in afterSecond && OwnerKey(second, b) in afterSecond
            && afterSecond[OwnerKey(second, b)].valid
            && !afterSecond[OwnerKey(second, a)].valid && afterSecond[OwnerKey(second, a)].message == ma2
  {
    var one := [(a, [ma]), (b, [mb])];
    var two := [(a, [ma2])];
    var afterFirst := FailedLedger(first, rows, DictForm(one));
    assert FallbackIndex(first, one) == 2;
    assert FallbackIndex(second, two) == 1;
    FailedAttributesEndInvalid(first, rows, one, 1);
    var kb := OwnerKey(second, b);
    assert kb == OwnerKey(first, b);
    assert b !in FailureExclude(second, DictForm(two));
    UnflaggedAttributesRecover(second, afterFirst, DictForm(two), kb);
    FailedAttributesEndInvalid(second, afterFirst, two, 0);
    var afterSecond := FailedLedger(second, afterFirst, DictForm(two));
    assert afterSecond[kb].valid;
    assert !afterSecond[OwnerKey(second, a)].valid;
    assert afterSecond[OwnerKey(second, a)].message == ma2;
  }
}
