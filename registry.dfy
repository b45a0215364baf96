/**
 * Discovery of audit rulesets: the registry's validator classes grouped by the model they
 * are bound to (`get_audit_rule_sets_map`), the flat list of them (`get_audit_rule_sets`),
 * and the classes a git repository's `custom_validators` list contributes for one model.
 */
module Registry {
  import opened Common

  /**
   * An `AuditRuleset` subclass: its `__name__`, its `class_name` attribute (empty when
   * `None`), the `model` it is bound to (`"app_label.model_name"`) and its `enforce` flag.
   */
  datatype RulesetClass = RulesetClass(typeName: string, classNameAttr: string, model: string, enforce: bool)

  /** An entry of a `registry["plugin_custom_validators"]` list. */
  datatype Validator = AuditRulesetClass(ruleset: RulesetClass) | OtherValidator(name: string)

  /** `is_audit_rule_set`: a class that subclasses `AuditRuleset`. */
  predicate IsAuditRuleSet(v: Validator)
  {
    v.AuditRulesetClass?
  }

  /** `is_audit_rule_set` decides which entries the grouping keeps: exactly the `AuditRuleset` subclasses. */
  lemma AuditRuleSetKept(v: Validator)
    ensures IsAuditRuleSet(v) <==> Rulesets([v]) != []
    ensures IsAuditRuleSet(v) ==> Rulesets([v]) == [v.ruleset]
  {
    assert [v][..0] == [];
  }

  /** The registry's lists, one after another, in registry order. */
  function Flatten(registry: seq<seq<Validator>>): seq<Validator>
  {
    if registry == [] then [] else Flatten(registry[..|registry| - 1]) + Last(registry)
  }

  /** The audit rulesets among `vs`, in order. */
  function Rulesets(vs: seq<Validator>): (r: seq<RulesetClass>)
    ensures forall c :: c in r <==> AuditRulesetClass(c) in vs
  {
    if vs == [] then []
    else
      var rest := Rulesets(vs[..|vs| - 1]);
      assert vs == vs[..|vs| - 1] + [Last(vs)];
      if IsAuditRuleSet(Last(vs)) then rest + [Last(vs).ruleset] else rest
  }

  /** Every audit ruleset in the registry, in registry order. */
  function AllRulesets(registry: seq<seq<Validator>>): seq<RulesetClass>
  {
    Rulesets(Flatten(registry))
  }

  /** The rulesets bound to model `m`, in their original order. */
  function OfModel(s: seq<RulesetClass>, m: string): (r: seq<RulesetClass>)
    ensures |r| <= |s|
  {
    if s == [] then []
    else
      var rest := OfModel(s[..|s| - 1], m);
      if Last(s).model == m then rest + [Last(s)] else rest
  }

  /** A group holds exactly the rulesets bound to its model. */
  lemma {:induction false} OfModelMembership(s: seq<RulesetClass>, m: string)
    ensures forall c :: c in OfModel(s, m) <==> c in s && c.model == m
  {
    if s != [] {
      OfModelMembership(s[..|s| - 1], m);
      assert s == s[..|s| - 1] + [Last(s)];
    }
  }

  predicate Distinct<T(==)>(s: seq<T>)
  {
    forall i, j :: 0 <= i < j < |s| ==> s[i] != s[j]
  }

  /** The models the rulesets are bound to, each once, in order of first appearance. */
  function Models(s: seq<RulesetClass>): (r: seq<string>)
    ensures Distinct(r)
  {
    if s == [] then []
    else
      var rest := Models(s[..|s| - 1]);
      assert s == s[..|s| - 1] + [Last(s)];
      if Last(s).model in rest then rest else rest + [Last(s).model]
  }

  /** A model is a key exactly when some ruleset is bound to it. */
  lemma {:induction false} ModelsMembership(s: seq<RulesetClass>)
    ensures forall m :: m in Models(s) <==> exists c :: c in s && c.model == m
  {
    if s != [] {
      var init := s[..|s| - 1];
      ModelsMembership(init);
      assert s == init + [Last(s)];
    }
  }

  /** The dictionary `get_audit_rule_sets_map` builds, without its key order. */
  function Grouped(s: seq<RulesetClass>): map<string, seq<RulesetClass>>
  {
    map m | m in Models(s) :: OfModel(s, m)
  }

  /** The groups of `keys`, one after another. */
  function ConcatOf(keys: seq<string>, s: seq<RulesetClass>): seq<RulesetClass>
  {
    if keys == [] then [] else ConcatOf(keys[..|keys| - 1], s) + OfModel(s, Last(keys))
  }

  /**
   * `get_audit_rule_sets_map`: `setdefault` then `append` for each audit ruleset, in registry
   * order. `order` is the dictionary's key order. A model no ruleset is bound to has no key.
   */
  method GetAuditRuleSetsMap(registry: seq<seq<Validator>>) returns (order: seq<string>, groups: map<string, seq<RulesetClass>>)
    ensures order == Models(AllRulesets(registry))
    ensures groups == Grouped(AllRulesets(registry))
    ensures groups.Keys == set m | m in order
  {
    order, groups := [], map[];
    var i := 0;
    while i < |registry|
      invariant 0 <= i <= |registry|
      invariant order == Models(AllRulesets(registry[..i])) && groups == Grouped(AllRulesets(registry[..i]))
    {
      FlattenAppend(registry, i);
      order, groups := RegisterAll(Flatten(registry[..i]), registry[i], order, groups);
      i := i + 1;
    }
    assert registry[..i] == registry;
    GroupedKeys(AllRulesets(registry));
  }

  /** The loop over one registry list: each audit ruleset of `validators`, in turn, after those of `seen`. */
  method RegisterAll(ghost seen: seq<Validator>, validators: seq<Validator>, order0: seq<string>, groups0: map<string, seq<RulesetClass>>)
    returns (order: seq<string>, groups: map<string, seq<RulesetClass>>)
    requires order0 == Models(Rulesets(seen)) && groups0 == Grouped(Rulesets(seen))
    ensures order == Models(Rulesets(seen + validators)) && groups == Grouped(Rulesets(seen + validators))
  {
    order, groups := order0, groups0;
    var j := 0;
    assert seen + validators[..j] == seen;
    while j < |validators|
      invariant 0 <= j <= |validators|
      invariant order == Models(Rulesets(seen + validators[..j])) && groups == Grouped(Rulesets(seen + validators[..j]))
    {
      var v := validators[j];
      ghost var before := seen + validators[..j];
      RulesetsAppend(before, v);
      assert seen + validators[..j + 1] == before + [v];
      if IsAuditRuleSet(v) {
        order, groups := Register(Rulesets(before), v.ruleset, order, groups);
      }
      j := j + 1;
    }
    assert validators[..j] == validators;
  }

  /** `setdefault(model, [])` then `append`, for one ruleset. */
  method Register(ghost done: seq<RulesetClass>, c: RulesetClass, order0: seq<string>, groups0: map<string, seq<RulesetClass>>)
    returns (order: seq<string>, groups: map<string, seq<RulesetClass>>)
    requires order0 == Models(done) && groups0 == Grouped(done)
    ensures order == Models(done + [c]) && groups == Grouped(done + [c])
  {
    GroupedAppend(done, c);
    GroupedKeys(done);
    var group := if c.model in groups0 then groups0[c.model] else [];
    order := if c.model in groups0 then order0 else order0 + [c.model];
    groups := groups0[c.model := group + [c]];
  }

  lemma FlattenAppend(registry: seq<seq<Validator>>, i: nat)
    requires i < |registry|
    ensures Flatten(registry[..i + 1]) == Flatten(registry[..i]) + registry[i]
  {
    assert registry[..i + 1][..i] == registry[..i];
  }

  lemma RulesetsAppend(vs: seq<Validator>, v: Validator)
    ensures Rulesets(vs + [v]) == Rulesets(vs) + (if IsAuditRuleSet(v) then [v.ruleset] else [])
  {
    assert (vs + [v])[..|vs|] == vs;
  }

  lemma GroupedKeys(s: seq<RulesetClass>)
    ensures Grouped(s).Keys == set m | m in Models(s)
  {
  }

  /** Appending one ruleset adds it to the end of its model's group, creating the group if need be. */
  lemma GroupedAppend(s: seq<RulesetClass>, c: RulesetClass)
    ensures Models(s + [c]) == if c.model in Models(s) then Models(s) else Models(s) + [c.model]
    ensures Grouped(s + [c]) ==
      Grouped(s)[c.model := (if c.model in Grouped(s) then Grouped(s)[c.model] else []) + [c]]
  {
    ModelsAppend(s, c);
    var g, h := Grouped(s), Grouped(s + [c]);
    var expected := g[c.model := (if c.model in g then g[c.model] else []) + [c]];
    GroupedKeys(s);
    GroupedKeys(s + [c]);
    assert h.Keys == expected.Keys;
    forall m | m in h
      ensures h[m] == expected[m]
    {
      OfModelAppend(s, c, m);
      if m == c.model && m !in g {
        ModelsCover(s);
        OfModelNone(s, m);
      }
    }
  }

  /** The model of every ruleset is a key. */
  lemma {:induction false} ModelsCover(s: seq<RulesetClass>)
    ensures forall c :: c in s ==> c.model in Models(s)
  {
    if s != [] {
      var init := s[..|s| - 1];
      ModelsCover(init);
      assert s == init + [Last(s)];
      ModelsAppend(init, Last(s));
    }
  }

  lemma {:induction false} OfModelNone(s: seq<RulesetClass>, m: string)
    requires forall c :: c in s ==> c.model != m
    ensures OfModel(s, m) == []
  {
    if s != [] {
      assert forall c :: c in s[..|s| - 1] ==> c in s;
      OfModelNone(s[..|s| - 1], m);
    }
  }

  lemma ModelsAppend(s: seq<RulesetClass>, c: RulesetClass)
    ensures Models(s + [c]) == if c.model in Models(s) then Models(s) else Models(s) + [c.model]
  {
    var t := s + [c];
    assert t[..|t| - 1] == s;
  }

  lemma OfModelAppend(s: seq<RulesetClass>, c: RulesetClass, m: string)
    ensures OfModel(s + [c], m) == OfModel(s, m) + (if c.model == m then [c] else [])
  {
    var t := s + [c];
    assert t[..|t| - 1] == s;
  }

  /** `get_audit_rule_sets`: the groups of the map, concatenated in key order. */
  method GetAuditRuleSets(registry: seq<seq<Validator>>) returns (r: seq<RulesetClass>)
    ensures r == ConcatOf(Models(AllRulesets(registry)), AllRulesets(registry))
    // a regrouping of the registry's rulesets: each one, as often as it is registered
    ensures multiset(r) == multiset(AllRulesets(registry))
  {
    var order, groups := GetAuditRuleSetsMap(registry);
    ghost var s := AllRulesets(registry);
    r := [];
    var k := 0;
    while k < |order|
      invariant 0 <= k <= |order|
      invariant r == ConcatOf(order[..k], s)
    {
      ConcatOfStep(order, k, s);
      assert groups[order[k]] == OfModel(s, order[k]);
      r := r + groups[order[k]];
      k := k + 1;
    }
    assert order[..k] == order;
    GroupingIsPermutation(s);
  }

  lemma ConcatOfStep(keys: seq<string>, k: nat, s: seq<RulesetClass>)
    requires k < |keys|
    ensures ConcatOf(keys[..k + 1], s) == ConcatOf(keys[..k], s) + OfModel(s, keys[k])
  {
    assert keys[..k + 1][..k] == keys[..k];
  }

  // ---------------------------------------------------------------- the permutation argument

  /** The rulesets whose model is in `ms`, in order. */
  function Among(s: seq<RulesetClass>, ms: set<string>): seq<RulesetClass>
  {
    if s == [] then []
    else Among(s[..|s| - 1], ms) + (if Last(s).model in ms then [Last(s)] else [])
  }

  lemma {:induction false} AmongSplit(s: seq<RulesetClass>, ms: set<string>, m: string)
    requires m !in ms
    ensures multiset(Among(s, ms + {m})) == multiset(Among(s, ms)) + multiset(OfModel(s, m))
  {
    if s != [] {
      AmongSplit(s[..|s| - 1], ms, m);
    }
  }

  lemma {:induction false} ConcatOfIsAmong(keys: seq<string>, s: seq<RulesetClass>)
    requires Distinct(keys)
    ensures multiset(ConcatOf(keys, s)) == multiset(Among(s, set k | k in keys))
  {
    if keys == [] {
      assert (set k | k in keys) == {};
      AmongNone(s);
    } else {
      var init := keys[..|keys| - 1];
      ConcatOfIsAmong(init, s);
      assert (set k | k in keys) == (set k | k in init) + {Last(keys)} by {
        assert keys == init + [Last(keys)];
      }
      AmongSplit(s, (set k | k in init), Last(keys));
    }
  }

  lemma {:induction false} AmongNone(s: seq<RulesetClass>)
    ensures Among(s, {}) == []
  {
    if s != [] {
      AmongNone(s[..|s| - 1]);
    }
  }

  lemma {:induction false} AmongAll(s: seq<RulesetClass>, ms: set<string>)
    requires forall c :: c in s ==> c.model in ms
    ensures Among(s, ms) == s
  {
    if s != [] {
      AmongAll(s[..|s| - 1], ms);
      assert s == s[..|s| - 1] + [Last(s)];
    }
  }

  /** Concatenating the groups in key order loses and duplicates no ruleset. */
  lemma GroupingIsPermutation(s: seq<RulesetClass>)
    ensures multiset(ConcatOf(Models(s), s)) == multiset(s)
  {
    ConcatOfIsAmong(Models(s), s);
    ModelsCover(s);
    AmongAll(s, set k | k in Models(s));
  }

  // ---------------------------------------------------------------- git-loaded rulesets

  /**
   * The classes that the git repositories' `custom_validators` lists contribute for an
   * instance labelled `modelLabel`, in repository order. A module without `custom_validators`
   * is `None` and contributes nothing.
   */
  function GitRulesets(modules: seq<Option<seq<RulesetClass>>>, modelLabel: string): seq<RulesetClass>
  {
    if modules == [] then []
    else
      var rest := GitRulesets(modules[..|modules| - 1], modelLabel);
      if Last(modules).Some? then rest + OfModel(Last(modules).value, modelLabel) else rest
  }

  /**
   * Every contributed class is bound to the instance's model, and every class of every
   * module that is bound to it is contributed.
   */
  lemma {:induction false} GitRulesetsMembership(modules: seq<Option<seq<RulesetClass>>>, modelLabel: string)
    ensures forall c :: c in GitRulesets(modules, modelLabel) ==> c.model == modelLabel
    ensures forall i, c :: 0 <= i < |modules| && modules[i].Some? && c in modules[i].value && c.model == modelLabel ==>
              c in GitRulesets(modules, modelLabel)
  {
    if modules != [] {
      var init := modules[..|modules| - 1];
      GitRulesetsMembership(init, modelLabel);
      assert forall i :: 0 <= i < |init| ==> init[i] == modules[i];
      if Last(modules).Some? {
        OfModelMembership(Last(modules).value, modelLabel);
      }
    }
  }

}
