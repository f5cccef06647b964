/** Merging review-rule configurations (internal/dsl/loader.go) and their validation
  * (internal/dsl/parser.go).
  */
module ConfigMerge {
  import opened Options

  datatype Rule = Rule(id: string, body: string)

  datatype Config = Config(version: string, ruleBase: string, rules: seq<Rule>)

  predicate HasId(rules: seq<Rule>, id: string) {
    exists k :: 0 <= k < |rules| && rules[k].id == id
  }

  /** Each ID's first rule, in order. */
  function FirstWins(rules: seq<Rule>): seq<Rule> {
    if rules == [] then []
    else
      var init, last := rules[..|rules| - 1], rules[|rules| - 1];
      if HasId(init, last.id) then FirstWins(init) else FirstWins(init) + [last]
  }

  function AllRules(configs: seq<Config>): seq<Rule> {
    if configs == [] then [] else AllRules(configs[..|configs| - 1]) + configs[|configs| - 1].rules
  }

  function Merged(configs: seq<Config>): Config {
    if configs == [] then Config("", "", [])
    else Config(configs[0].version, configs[0].ruleBase, FirstWins(AllRules(configs)))
  }

  ghost predicate Marks(ids: set<string>, rules: seq<Rule>) {
    forall id :: id in ids <==> HasId(rules, id)
  }

  lemma HasIdAppend(a: seq<Rule>, b: seq<Rule>, id: string)
    ensures HasId(a + b, id) <==> HasId(a, id) || HasId(b, id)
  {
    if HasId(a, id) {
      var k :| 0 <= k < |a| && a[k].id == id;
      assert (a + b)[k].id == id;
    }
    if HasId(b, id) {
      var k :| 0 <= k < |b| && b[k].id == id;
      assert (a + b)[|a| + k].id == id;
    }
  }

  lemma FirstWinsStep(rules: seq<Rule>, r: Rule)
    ensures FirstWins(rules + [r]) == if HasId(rules, r.id) then FirstWins(rules) else FirstWins(rules) + [r]
  {
  }

  lemma MarksAppend(ids: set<string>, rules: seq<Rule>, r: Rule)
    requires Marks(ids, rules)
    ensures Marks(ids + {r.id}, rules + [r]) && (r.id in ids <==> HasId(rules, r.id))
    ensures r.id in ids ==> Marks(ids, rules + [r])
  {
    forall id ensures HasId(rules + [r], id) <==> HasId(rules, id) || id == r.id {
      HasIdAppend(rules, [r], id);
      assert [r][0].id == r.id;
    }
  }

  /** The inner loop of MergeConfigs. */
  method TakeRules(config: Config, ghost before: seq<Rule>, ids0: set<string>, result0: seq<Rule>)
    returns (ids: set<string>, result: seq<Rule>)
    requires Marks(ids0, before) && result0 == FirstWins(before)
    ensures Marks(ids, before + config.rules) && result == FirstWins(before + config.rules)
  {
    hide Marks, HasId, FirstWins;
    ids, result := ids0, result0;
    ghost var seen := before;
    for i := 0 to |config.rules|
      invariant seen == before + config.rules[..i] && Marks(ids, seen) && result == FirstWins(seen)
    {
      var rule := config.rules[i];
      assert before + config.rules[..i + 1] == seen + [rule];
      FirstWinsStep(seen, rule);
      MarksAppend(ids, seen, rule);
      if rule.id !in ids {
        ids := ids + {rule.id};
        result := result + [rule];
      }
      seen := seen + [rule];
    }
    assert config.rules[..|config.rules|] == config.rules;
  }

  method MergeConfigs(configs: seq<Config>) returns (result: Config)
    ensures result == Merged(configs)
  {
    if |configs| == 0 {
      return Config("", "", []);
    }
    var ids: set<string>, rules: seq<Rule> := {}, [];
    for i := 0 to |configs|
      invariant Marks(ids, AllRules(configs[..i])) && rules == FirstWins(AllRules(configs[..i]))
    {
      assert configs[..i + 1][..i] == configs[..i];
      ids, rules := TakeRules(configs[i], AllRules(configs[..i]), ids, rules);
    }
    assert configs[..|configs|] == configs;
    result := Config(configs[0].version, configs[0].ruleBase, rules);
  }

  // ---------- What merging keeps ----------

  /** The first rule with an ID. */
  function Lookup(rules: seq<Rule>, id: string): Option<Rule> {
    if rules == [] then None
    else if rules[0].id == id then Some(rules[0])
    else Lookup(rules[1..], id)
  }

  predicate DistinctIds(rules: seq<Rule>) {
    forall i, j | 0 <= i < j < |rules| :: rules[i].id != rules[j].id
  }

  lemma {:induction false} LookupAppend(rules: seq<Rule>, r: Rule, id: string)
    ensures Lookup(rules + [r], id) ==
      if HasId(rules, id) then Lookup(rules, id) else if r.id == id then Some(r) else None
    ensures HasId(rules, id) <==> Lookup(rules, id).Some?
  {
    if rules == [] {
      assert ([] + [r])[1..] == [] && rules + [r] == [r];
    } else {
      assert (rules + [r])[1..] == rules[1..] + [r];
      LookupAppend(rules[1..], r, id);
      assert rules == [rules[0]] + rules[1..];
      HasIdAppend([rules[0]], rules[1..], id);
      assert [rules[0]][0].id == rules[0].id;
    }
  }

  /** Every ID keeps its first rule, and no ID is kept twice. */
  lemma {:induction false} FirstRuleWins(rules: seq<Rule>, id: string)
    ensures Lookup(FirstWins(rules), id) == Lookup(rules, id)
    ensures HasId(FirstWins(rules), id) <==> HasId(rules, id)
    ensures DistinctIds(FirstWins(rules))
  {
    if rules == [] {
    } else {
      var init, last := rules[..|rules| - 1], rules[|rules| - 1];
      assert rules == init + [last];
      FirstRuleWins(init, id);
      FirstRuleWins(init, last.id);
      LookupAppend(init, last, id);
      LookupAppend(FirstWins(init), last, id);
      HasIdAppend(init, [last], id);
      HasIdAppend(FirstWins(init), [last], id);
      assert [last][0].id == last.id;
    }
  }

  /** Filtering a front part first makes no difference. */
  lemma {:induction false} FirstWinsTwice(a: seq<Rule>, b: seq<Rule>)
    ensures FirstWins(FirstWins(a) + b) == FirstWins(a + b)
  {
    if b == [] {
      assert FirstWins(a) + b == FirstWins(a) && a + b == a;
      DistinctKept(FirstWins(a));
      FirstRuleWins(a, "");
    } else {
      var init, last := b[..|b| - 1], b[|b| - 1];
      FirstWinsTwice(a, init);
      assert a + b == (a + init) + [last] && FirstWins(a) + b == (FirstWins(a) + init) + [last];
      FirstWinsStep(a + init, last);
      FirstWinsStep(FirstWins(a) + init, last);
      HasIdAppend(a, init, last.id);
      HasIdAppend(FirstWins(a), init, last.id);
      FirstRuleWins(a, last.id);
    }
  }

  lemma {:induction false} DistinctKept(rules: seq<Rule>)
    ensures DistinctIds(rules) ==> FirstWins(rules) == rules
  {
    if rules == [] {
    } else {
      var init, last := rules[..|rules| - 1], rules[|rules| - 1];
      assert rules == init + [last];
      DistinctKept(init);
      assert DistinctIds(rules) ==> DistinctIds(init) && !HasId(init, last.id);
    }
  }

  lemma {:induction false} AllRulesAppend(xs: seq<Config>, ys: seq<Config>)
    ensures AllRules(xs + ys) == AllRules(xs) + AllRules(ys)
  {
    if ys == [] {
      assert xs + ys == xs;
    } else {
      assert (xs + ys)[..|xs + ys| - 1] == xs + ys[..|ys| - 1];
      AllRulesAppend(xs, ys[..|ys| - 1]);
    }
  }

  /** Merging can be done in stages: some configurations first, the result with the rest. */
  lemma MergeInStages(xs: seq<Config>, ys: seq<Config>)
    requires xs != []
    ensures Merged(xs + ys) == Merged([Merged(xs)] + ys)
  {
    AllRulesAppend(xs, ys);
    AllRulesAppend([Merged(xs)], ys);
    assert [Merged(xs)][..0] == [];
    assert AllRules([Merged(xs)]) == FirstWins(AllRules(xs));
    FirstWinsTwice(AllRules(xs), AllRules(ys));
  }

  /** Version and rule base are those of the first configuration, and a configuration without repeated IDs is merged
    * with nothing to itself. */
  lemma MergedHeader(configs: seq<Config>)
    ensures configs != [] ==>
      Merged(configs).version == configs[0].version && Merged(configs).ruleBase == configs[0].ruleBase
    ensures |configs| == 1 && DistinctIds(configs[0].rules) ==> Merged(configs) == configs[0]
  {
    if |configs| == 1 {
      assert AllRules(configs[..0]) == [] && AllRules(configs) == configs[0].rules;
      DistinctKept(configs[0].rules);
    }
  }

  lemma {:induction false} FirstWinsPrefix(a: seq<Rule>, b: seq<Rule>)
    ensures FirstWins(a) <= FirstWins(a + b)
  {
    if b == [] {
      assert a + b == a;
    } else {
      assert a + b == (a + b[..|b| - 1]) + [b[|b| - 1]];
      FirstWinsPrefix(a, b[..|b| - 1]);
      FirstWinsStep(a + b[..|b| - 1], b[|b| - 1]);
    }
  }

  lemma {:induction false} LookupFirst(a: seq<Rule>, b: seq<Rule>, id: string)
    ensures Lookup(a + b, id) == if HasId(a, id) then Lookup(a, id) else Lookup(b, id)
  {
    if b == [] {
      assert a + b == a;
      LookupAppend(a, Rule("", ""), id);
    } else {
      var init, last := b[..|b| - 1], b[|b| - 1];
      assert a + b == (a + init) + [last] && b == init + [last];
      LookupFirst(a, init, id);
      LookupAppend(a + init, last, id);
      LookupAppend(init, last, id);
      LookupAppend(a, last, id);
      HasIdAppend(a, init, id);
    }
  }

  lemma {:induction false} NoneHasId(configs: seq<Config>, id: string)
    requires forall c | c in configs :: !HasId(c.rules, id)
    ensures !HasId(AllRules(configs), id)
  {
    if configs == [] {
    } else {
      var init, last := configs[..|configs| - 1], configs[|configs| - 1];
      NoneHasId(init, id);
      HasIdAppend(AllRules(init), last.rules, id);
    }
  }

  /** The first configuration that has a rule with the ID decides: its first such rule is kept. What earlier
    * configurations give comes first. */
  lemma FirstConfigWins(configs: seq<Config>, k: nat, id: string)
    requires k < |configs| && HasId(configs[k].rules, id)
    requires forall j | 0 <= j < k :: !HasId(configs[j].rules, id)
    ensures Lookup(Merged(configs).rules, id) == Lookup(configs[k].rules, id)
    ensures Merged(configs[..k]).rules <= Merged(configs).rules
  {
    var before, at, after := configs[..k], [configs[k]], configs[k + 1..];
    assert configs == before + (at + after);
    AllRulesAppend(before, at + after);
    AllRulesAppend(at, after);
    assert at[..0] == [] && AllRules(at) == configs[k].rules;
    NoneHasId(before, id);
    LookupFirst(AllRules(before), configs[k].rules + AllRules(after), id);
    LookupFirst(configs[k].rules, AllRules(after), id);
    FirstRuleWins(AllRules(configs), id);
    FirstWinsPrefix(AllRules(before), configs[k].rules + AllRules(after));
  }

  /** `place[i]` tells where the i-th of `kept` stands in `rules`; the order is the same. */
  ghost predicate InOrder(rules: seq<Rule>, kept: seq<Rule>, place: seq<nat>) {
    && |place| == |kept|
    && (forall i | 0 <= i < |kept| :: place[i] < |rules| && rules[place[i]] == kept[i])
    && (forall i, j | 0 <= i < j < |kept| :: place[i] < place[j])
  }

  /** Merging keeps rules in the order in which they come. */
  lemma {:induction false} OrderKept(rules: seq<Rule>) returns (place: seq<nat>)
    ensures InOrder(rules, FirstWins(rules), place)
  {
    if rules == [] {
      place := [];
    } else {
      var n := |rules| - 1;
      place := OrderKept(rules[..n]);
      if !HasId(rules[..n], rules[n].id) {
        place := place + [n];
      }
    }
  }

  // ---------- Validation ----------

  datatype Refusal = NoRules | BadRule(index: nat) | DuplicateId(index: nat)

  /** `accepts` stands for the checks of a single rule, which ignore its position. */
  predicate Acceptable(config: Config, accepts: Rule -> bool) {
    config.rules != [] && DistinctIds(config.rules) && forall r | r in config.rules :: accepts(r)
  }

  /** Validate; it reports the first rule that fails, and a rule's own faults before a duplicate ID. */
  method Validate(config: Config, accepts: Rule -> bool) returns (refusal: Option<Refusal>)
    ensures refusal.None? <==> Acceptable(config, accepts)
    ensures refusal == Some(NoRules) <==> config.rules == []
    ensures refusal.Some? && refusal.value != NoRules ==>
      var i := refusal.value.index;
      && i < |config.rules| && DistinctIds(config.rules[..i]) && (forall r | r in config.rules[..i] :: accepts(r))
      && (refusal.value.BadRule? <==> !accepts(config.rules[i]))
      && (refusal.value.DuplicateId? ==> HasId(config.rules[..i], config.rules[i].id))
  {
    if |config.rules| == 0 {
      return Some(NoRules);
    }
    var ids: set<string> := {};
    for i := 0 to |config.rules|
      invariant Marks(ids, config.rules[..i]) && DistinctIds(config.rules[..i])
      invariant forall r | r in config.rules[..i] :: accepts(r)
    {
      var rule := config.rules[i];
      if !accepts(rule) {
        return Some(BadRule(i));
      }
      if rule.id in ids {
        var k :| 0 <= k < i && config.rules[..i][k].id == rule.id;
        return Some(DuplicateId(i));
      }
      MarksStep(ids, config.rules, i);
      ids := ids + {rule.id};
    }
    assert config.rules[..|config.rules|] == config.rules;
    refusal := None;
  }

  lemma MarksStep(ids: set<string>, rules: seq<Rule>, i: nat)
    requires i < |rules| && Marks(ids, rules[..i]) && rules[i].id !in ids && DistinctIds(rules[..i])
    ensures Marks(ids + {rules[i].id}, rules[..i + 1]) && DistinctIds(rules[..i + 1])
  {
  }

  /** A merged configuration is accepted exactly when there is a rule and every rule that is first with its ID is
    * accepted. */
  lemma MergedAcceptableIff(configs: seq<Config>, accepts: Rule -> bool)
    ensures Acceptable(Merged(configs), accepts) <==>
      AllRules(configs) != [] &&
      forall r | r in AllRules(configs) && Lookup(AllRules(configs), r.id) == Some(r) :: accepts(r)
  {
    var all := AllRules(configs);
    FirstRuleWins(all, "");
    forall r ensures r in FirstWins(all) <==> r in all && Lookup(all, r.id) == Some(r) {
      FirstRuleWins(all, r.id);
      LookupIn(all, r.id);
      LookupIn(FirstWins(all), r.id);
      LookupDistinct(FirstWins(all), r);
    }
    if all != [] {
      FirstRuleWins(all, all[0].id);
      assert HasId(all, all[0].id);
    }
  }

  lemma {:induction false} LookupIn(rules: seq<Rule>, id: string)
    ensures Lookup(rules, id).Some? ==> Lookup(rules, id).value in rules && Lookup(rules, id).value.id == id
  {
    if rules == [] {
    } else {
      LookupIn(rules[1..], id);
    }
  }

  lemma {:induction false} LookupDistinct(rules: seq<Rule>, r: Rule)
    requires DistinctIds(rules)
    ensures r in rules ==> Lookup(rules, r.id) == Some(r)
  {
    if r in rules && rules[0] != r {
      LookupDistinct(rules[1..], r);
    }
  }

  /** Merging one or more accepted configurations gives an accepted one. */
  lemma MergeKeepsAcceptable(configs: seq<Config>, accepts: Rule -> bool)
    requires configs != [] && forall c | c in configs :: Acceptable(c, accepts)
    ensures Acceptable(Merged(configs), accepts)
  {
    RulesAccepted(configs, accepts);
    MergedAcceptableIff(configs, accepts);
  }

  lemma {:induction false} RulesAccepted(configs: seq<Config>, accepts: Rule -> bool)
    requires forall c | c in configs :: Acceptable(c, accepts)
    ensures configs != [] ==> AllRules(configs) != []
    ensures forall r | r in AllRules(configs) :: accepts(r)
  {
    if configs == [] {
    } else {
      assert configs[|configs| - 1] in configs;
      RulesAccepted(configs[..|configs| - 1], accepts);
    }
  }
}
