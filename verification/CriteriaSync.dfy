/** Bringing the stored criteria in line with a seed: rules are upserted, the others of the same
    configuration deactivated. */
module CriteriaSync {
  import opened ReviewTypes
  import opened CriteriaValidation

  datatype RuleId = RuleId(code: string, ruleKey: string)

  datatype StoredRule = StoredRule(rule: Rule, active: bool)

  datatype StoredConfig = StoredConfig(config: Config, workspaceId: Option<Id>, active: bool)

  datatype Tables = Tables(configs: map<string, StoredConfig>, rules: map<RuleId, StoredRule>)

  function Keys(c: Config): set<string> { set r | r in c.rules :: r.ruleKey }

  function Upserted(rules: map<RuleId, StoredRule>, c: Config, k: nat): map<RuleId, StoredRule>
    requires k <= |c.rules|
  {
    if k == 0 then rules
    else Upserted(rules, c, k - 1)[RuleId(c.code, c.rules[k - 1].ruleKey) := StoredRule(c.rules[k - 1], true)]
  }

  /** The active rules of a configuration that the seed no longer has. */
  function Stale(rules: map<RuleId, StoredRule>, c: Config): set<RuleId> {
    set id | id in rules && id.code == c.code && id.ruleKey !in Keys(c) && rules[id].active
  }

  function Deactivated(rules: map<RuleId, StoredRule>, ids: set<RuleId>): map<RuleId, StoredRule> {
    map id | id in rules :: if id in ids then rules[id].(active := false) else rules[id]
  }

  lemma NoneDeactivated(rules: map<RuleId, StoredRule>)
    ensures Deactivated(rules, {}) == rules
  {
  }

  lemma OneMoreDeactivated(rules: map<RuleId, StoredRule>, ids: set<RuleId>, id: RuleId)
    requires id in rules && id !in ids
    ensures var before := Deactivated(rules, ids);
            before.Keys == rules.Keys
            && before[id := before[id].(active := false)] == Deactivated(rules, ids + {id})
  {
  }

  function SyncRules(rules: map<RuleId, StoredRule>, c: Config): map<RuleId, StoredRule> {
    var upserted := Upserted(rules, c, |c.rules|);
    Deactivated(upserted, Stale(upserted, c))
  }

  datatype Outcome = Invalid(problems: seq<Problem>) | MissingWorkspace(code: string) | Synced(deactivated: nat)

  function Workspace(workspaces: map<string, Id>, c: Config): Option<Option<Id>> {
    if c.workspaceCode.None? || c.workspaceCode.value == "" then Some(None)
    else if c.workspaceCode.value in workspaces then Some(Some(workspaces[c.workspaceCode.value]))
    else None
  }

  /** The tables after one configuration, and the number of rules it deactivated. */
  function SyncOne(t: Tables, c: Config, workspaceId: Option<Id>): (Tables, nat) {
    (Tables(t.configs[c.code := StoredConfig(c, workspaceId, true)], SyncRules(t.rules, c)),
     |Stale(Upserted(t.rules, c, |c.rules|), c)|)
  }

  /** The same after the first k configurations, if every workspace is there. */
  function SyncAll(t: Tables, configs: seq<Config>, k: nat, workspaces: map<string, Id>): Option<(Tables, nat)>
    requires k <= |configs|
  {
    if k == 0 then Some((t, 0))
    else
      var before, c := SyncAll(t, configs, k - 1, workspaces), configs[k - 1];
      if before.None? || Workspace(workspaces, c).None? then None
      else
        var (tables, count) := SyncOne(before.value.0, c, Workspace(workspaces, c).value);
        Some((tables, before.value.1 + count))
  }

  class CriteriaTables {
    var configs: map<string, StoredConfig>
    var rules: map<RuleId, StoredRule>

    ghost function Value(): Tables
      reads this
    {
      Tables(configs, rules)
    }

    method UpsertRules(c: Config)
      modifies this`rules
      ensures rules == Upserted(old(rules), c, |c.rules|)
    {
      for k := 0 to |c.rules|
        invariant rules == Upserted(old(rules), c, k)
      {
        rules := rules[RuleId(c.code, c.rules[k].ruleKey) := StoredRule(c.rules[k], true)];
      }
    }

    method DeactivateOthers(c: Config) returns (count: nat)
      modifies this`rules
      ensures rules == Deactivated(old(rules), Stale(old(rules), c)) && count == |Stale(old(rules), c)|
    {
      var stale := Stale(rules, c);
      assert stale <= rules.Keys;
      hide Stale, Deactivated;
      count := 0;
      var done: set<RuleId> := {};
      NoneDeactivated(rules);
      while done != stale
        invariant done <= stale <= rules.Keys && count == |done|
        invariant rules == Deactivated(old(rules), done)
        decreases stale - done
      {
        assert stale - done != {};
        var id :| id in stale && id !in done;
        OneMoreDeactivated(old(rules), done, id);
        rules := rules[id := rules[id].(active := false)];
        done := done + {id};
        count := count + 1;
      }
    }

    method SyncConfig(c: Config, workspaceId: Option<Id>) returns (deactivated: nat)
      modifies this
      ensures (Value(), deactivated) == SyncOne(old(Value()), c, workspaceId)
    {
      configs := configs[c.code := StoredConfig(c, workspaceId, true)];
      UpsertRules(c);
      deactivated := DeactivateOthers(c);
    }

    /** Validates, then synchronises every configuration in one transaction, rolled back if a workspace is missing. */
    method SeedNormalizedCriteria(seed: seq<Config>, workspaces: map<string, Id>) returns (outcome: Outcome)
      modifies this
      ensures outcome.Invalid? <==> SeedProblems(seed, |seed|) != []
      ensures outcome.Invalid? ==> outcome.problems == SeedProblems(seed, |seed|)
      ensures var result := SyncAll(old(Value()), seed, |seed|, workspaces);
              && (outcome.Synced? ==> result == Some((Value(), outcome.deactivated)))
              && (outcome.MissingWorkspace? ==> result.None?)
      ensures !outcome.Synced? ==> Value() == old(Value())
    {
      hide SyncOne, SeedProblems, Workspace;
      var problems := ValidateSeedCriteria(seed);
      if problems != [] { return Invalid(problems); }
      var savedConfigs, savedRules, deactivated := configs, rules, 0;
      for k := 0 to |seed|
        invariant SyncAll(old(Value()), seed, k, workspaces) == Some((Value(), deactivated))
      {
        var c := seed[k];
        var workspaceId := Workspace(workspaces, c);
        if workspaceId.None? {
          NoneAfterNone(old(Value()), seed, k + 1, workspaces);
          configs, rules := savedConfigs, savedRules;
          return MissingWorkspace(c.code);
        }
        var count := SyncConfig(c, workspaceId.value);
        deactivated := deactivated + count;
      }
      return Synced(deactivated);
    }
  }

  lemma {:induction false} NoneAfterNone(t: Tables, configs: seq<Config>, k: nat, workspaces: map<string, Id>)
    requires k <= |configs| && SyncAll(t, configs, k, workspaces).None?
    ensures SyncAll(t, configs, |configs|, workspaces).None?
    decreases |configs| - k
  {
    if k < |configs| {
      NoneAfterNone(t, configs, k + 1, workspaces);
    }
  }

  // ---------- What a synchronisation leaves ----------

  predicate DistinctKeys(c: Config) {
    forall k, l :: 0 <= k < l < |c.rules| ==> c.rules[k].ruleKey != c.rules[l].ruleKey
  }

  /** The active rules of the configuration are exactly the seed's, as the seed has them. */
  ghost predicate InLine(rules: map<RuleId, StoredRule>, c: Config) {
    && (forall id :: id in rules && id.code == c.code && rules[id].active ==> id.ruleKey in Keys(c))
    && forall k :: 0 <= k < |c.rules| ==>
         var id := RuleId(c.code, c.rules[k].ruleKey);
         id in rules && rules[id] == StoredRule(c.rules[k], true)
  }

  /** The configuration and its rules are stored as the seed has them. */
  ghost predicate Settled(t: Tables, c: Config, workspaces: map<string, Id>) {
    && InLine(t.rules, c) && Workspace(workspaces, c).Some?
    && c.code in t.configs && t.configs[c.code] == StoredConfig(c, Workspace(workspaces, c).value, true)
  }

  lemma KeyOfRule(c: Config, k: nat)
    requires k < |c.rules|
    ensures c.rules[k].ruleKey in Keys(c)
  {
  }

  lemma {:induction false} UpsertedElsewhere(rules: map<RuleId, StoredRule>, c: Config, k: nat)
    requires k <= |c.rules|
    ensures var after := Upserted(rules, c, k);
            && rules.Keys <= after.Keys
            && forall id :: id in after && (id.code != c.code || id.ruleKey !in Keys(c)) ==>
                 id in rules && after[id] == rules[id]
  {
    if k > 0 {
      UpsertedElsewhere(rules, c, k - 1);
      KeyOfRule(c, k - 1);
      hide Keys;
    }
  }

  lemma {:induction false} UpsertedAt(rules: map<RuleId, StoredRule>, c: Config, k: nat, l: nat)
    requires l < k <= |c.rules| && DistinctKeys(c)
    ensures var id := RuleId(c.code, c.rules[l].ruleKey);
            id in Upserted(rules, c, k) && Upserted(rules, c, k)[id] == StoredRule(c.rules[l], true)
  {
    if l < k - 1 {
      UpsertedAt(rules, c, k - 1, l);
    }
  }

  lemma UpsertedIs(rules: map<RuleId, StoredRule>, c: Config, k: nat)
    requires k <= |c.rules| && DistinctKeys(c)
    ensures var after := Upserted(rules, c, k);
            && rules.Keys <= after.Keys
            && (forall id :: id in after && (id.code != c.code || id.ruleKey !in Keys(c)) ==>
                  id in rules && after[id] == rules[id])
            && forall l :: 0 <= l < k ==>
                 var id := RuleId(c.code, c.rules[l].ruleKey);
                 id in after && after[id] == StoredRule(c.rules[l], true)
  {
    UpsertedElsewhere(rules, c, k);
    forall l | 0 <= l < k
      ensures var id := RuleId(c.code, c.rules[l].ruleKey);
              id in Upserted(rules, c, k) && Upserted(rules, c, k)[id] == StoredRule(c.rules[l], true)
    {
      UpsertedAt(rules, c, k, l);
    }
    hide Upserted, Keys;
  }

  lemma SyncBringsInLine(rules: map<RuleId, StoredRule>, c: Config)
    requires DistinctKeys(c)
    ensures InLine(SyncRules(rules, c), c)
    ensures rules.Keys <= SyncRules(rules, c).Keys
    ensures forall id :: id in SyncRules(rules, c) && id.code != c.code ==>
              id in rules && SyncRules(rules, c)[id] == rules[id]
  {
    UpsertedIs(rules, c, |c.rules|);
    forall k | 0 <= k < |c.rules|
      ensures RuleId(c.code, c.rules[k].ruleKey) !in Stale(Upserted(rules, c, |c.rules|), c)
    {
      assert c.rules[k] in c.rules;
    }
  }

  lemma {:induction false} UpsertingAgain(rules: map<RuleId, StoredRule>, c: Config, k: nat)
    requires k <= |c.rules| && InLine(rules, c)
    ensures Upserted(rules, c, k) == rules
  {
    if k > 0 {
      UpsertingAgain(rules, c, k - 1);
    }
  }

  lemma SyncingAgain(rules: map<RuleId, StoredRule>, c: Config)
    requires InLine(rules, c)
    ensures SyncRules(rules, c) == rules && Stale(Upserted(rules, c, |c.rules|), c) == {}
  {
    UpsertingAgain(rules, c, |c.rules|);
  }

  lemma SyncOneSettles(t: Tables, c: Config, workspaces: map<string, Id>)
    requires DistinctKeys(c) && Workspace(workspaces, c).Some?
    ensures var after := SyncOne(t, c, Workspace(workspaces, c).value).0;
            && Settled(after, c, workspaces) && t.rules.Keys <= after.rules.Keys
            && forall id :: id in after.rules && id.code != c.code ==> id in t.rules && after.rules[id] == t.rules[id]
  {
    hide SyncRules, InLine, Workspace, Stale;
    SyncBringsInLine(t.rules, c);
  }

  lemma SyncOneKeepsOthers(t: Tables, c: Config, d: Config, workspaces: map<string, Id>)
    requires DistinctKeys(c) && Workspace(workspaces, c).Some? && Settled(t, d, workspaces) && c.code != d.code
    ensures Settled(SyncOne(t, c, Workspace(workspaces, c).value).0, d, workspaces)
  {
    hide SyncRules, Workspace, Stale;
    SyncBringsInLine(t.rules, c);
  }

  lemma SyncOneAgain(t: Tables, c: Config, workspaces: map<string, Id>)
    requires Settled(t, c, workspaces)
    ensures SyncOne(t, c, Workspace(workspaces, c).value) == (t, 0)
  {
    hide InLine, SyncRules, Workspace, Stale;
    SyncingAgain(t.rules, c);
    assert t.configs[c.code := StoredConfig(c, Workspace(workspaces, c).value, true)] == t.configs;
  }

  lemma SyncAllStep(t: Tables, configs: seq<Config>, k: nat, workspaces: map<string, Id>)
    requires k < |configs| && SyncAll(t, configs, k + 1, workspaces).Some?
    ensures SyncAll(t, configs, k, workspaces).Some? && Workspace(workspaces, configs[k]).Some?
    ensures SyncAll(t, configs, k + 1, workspaces).value.0
            == SyncOne(SyncAll(t, configs, k, workspaces).value.0, configs[k],
                       Workspace(workspaces, configs[k]).value).0
  {
  }

  /** No row is gone, and only rules of the first k configurations have changed. */
  ghost predicate TouchesOnly(before: Tables, after: Tables, configs: seq<Config>, k: nat) {
    && before.rules.Keys <= after.rules.Keys
    && forall id :: id in after.rules && !CodeSeen(configs, k, id.code) ==>
         id in before.rules && after.rules[id] == before.rules[id]
  }

  lemma TouchesOneMore(a: Tables, b: Tables, configs: seq<Config>, k: nat, workspaces: map<string, Id>)
    requires k < |configs| && TouchesOnly(a, b, configs, k) && DistinctKeys(configs[k])
             && Workspace(workspaces, configs[k]).Some?
    ensures TouchesOnly(a, SyncOne(b, configs[k], Workspace(workspaces, configs[k]).value).0, configs, k + 1)
  {
    hide Settled, SyncOne, Workspace, DistinctKeys;
    var c := configs[k];
    SyncOneSettles(b, c, workspaces);
    assert CodeSeen(configs, k + 1, c.code);
    assert forall code :: CodeSeen(configs, k, code) ==> CodeSeen(configs, k + 1, code);
  }

  lemma NothingSynced(t: Tables, configs: seq<Config>, workspaces: map<string, Id>)
    ensures SyncAll(t, configs, 0, workspaces) == Some((t, 0)) && TouchesOnly(t, t, configs, 0)
  {
  }

  /** A sync of a good seed deletes no row and leaves the rules of other configurations untouched. */
  lemma {:induction false} SyncKeepsOtherRules(t: Tables, configs: seq<Config>, k: nat, workspaces: map<string, Id>)
    requires GoodSeed(configs) && k <= |configs| && SyncAll(t, configs, k, workspaces).Some?
    ensures TouchesOnly(t, SyncAll(t, configs, k, workspaces).value.0, configs, k)
  {
    hide TouchesOnly, SyncAll, SyncOne, Workspace, GoodSeed, DistinctKeys;
    if k == 0 {
      NothingSynced(t, configs, workspaces);
    } else {
      SyncAllStep(t, configs, k - 1, workspaces);
      SyncKeepsOtherRules(t, configs, k - 1, workspaces);
      GoodKeys(configs, k - 1);
      TouchesOneMore(t, SyncAll(t, configs, k - 1, workspaces).value.0, configs, k - 1, workspaces);
    }
  }

  lemma SettlesOneMore(t: Tables, configs: seq<Config>, k: nat, workspaces: map<string, Id>)
    requires GoodSeed(configs) && k < |configs| && Workspace(workspaces, configs[k]).Some?
    requires forall l :: 0 <= l < k ==> Settled(t, configs[l], workspaces)
    ensures var after := SyncOne(t, configs[k], Workspace(workspaces, configs[k]).value).0;
            forall l :: 0 <= l <= k ==> Settled(after, configs[l], workspaces)
  {
    hide Settled, SyncOne, Workspace, GoodSeed, DistinctKeys;
    GoodKeys(configs, k);
    SyncOneSettles(t, configs[k], workspaces);
    forall l | 0 <= l < k
      ensures Settled(SyncOne(t, configs[k], Workspace(workspaces, configs[k]).value).0, configs[l], workspaces)
    {
      GoodCodes(configs, l, k);
      SyncOneKeepsOthers(t, configs[k], configs[l], workspaces);
    }
  }

  /** After a sync of a good seed the active rules of each of its configurations are exactly the seed's. */
  lemma {:induction false} SyncSettlesAll(t: Tables, configs: seq<Config>, k: nat, workspaces: map<string, Id>)
    requires GoodSeed(configs) && k <= |configs| && SyncAll(t, configs, k, workspaces).Some?
    ensures forall l :: 0 <= l < k ==> Settled(SyncAll(t, configs, k, workspaces).value.0, configs[l], workspaces)
  {
    hide Settled, SyncAll, SyncOne, Workspace, GoodSeed;
    if k > 0 {
      SyncAllStep(t, configs, k - 1, workspaces);
      SyncSettlesAll(t, configs, k - 1, workspaces);
      SettlesOneMore(SyncAll(t, configs, k - 1, workspaces).value.0, configs, k - 1, workspaces);
    }
  }

  lemma GoodKeys(configs: seq<Config>, k: nat)
    requires GoodSeed(configs) && k < |configs|
    ensures DistinctKeys(configs[k])
  {
    assert GoodConfig(configs[k]);
  }

  lemma GoodCodes(configs: seq<Config>, k: nat, l: nat)
    requires GoodSeed(configs) && k < l < |configs|
    ensures configs[k].code != configs[l].code
  {
  }

  lemma {:induction false} AllSettled(t: Tables, configs: seq<Config>, k: nat, workspaces: map<string, Id>)
    requires k <= |configs| && forall l :: 0 <= l < |configs| ==> Settled(t, configs[l], workspaces)
    ensures SyncAll(t, configs, k, workspaces) == Some((t, 0))
  {
    hide InLine, SyncOne, Workspace;
    if k > 0 {
      AllSettled(t, configs, k - 1, workspaces);
      SyncOneAgain(t, configs[k - 1], workspaces);
    }
  }

  /** A second sync of the same seed changes nothing and deactivates no rule. */
  lemma SecondSyncChangesNothing(t: Tables, configs: seq<Config>, workspaces: map<string, Id>)
    requires GoodSeed(configs) && SyncAll(t, configs, |configs|, workspaces).Some?
    ensures var after := SyncAll(t, configs, |configs|, workspaces).value.0;
            SyncAll(after, configs, |configs|, workspaces) == Some((after, 0))
  {
    hide SyncAll, Settled;
    SyncSettlesAll(t, configs, |configs|, workspaces);
    AllSettled(SyncAll(t, configs, |configs|, workspaces).value.0, configs, |configs|, workspaces);
  }

  // ---------- Workspaces, and what is counted ----------

  /** The configuration names no workspace, or one that is there. */
  predicate Located(workspaces: map<string, Id>, c: Config) {
    c.workspaceCode in {None, Some("")} || c.workspaceCode.value in workspaces
  }

  /** The workspace it is stored with. */
  function LocatedAt(workspaces: map<string, Id>, c: Config): Option<Id>
    requires Located(workspaces, c)
  {
    if c.workspaceCode in {None, Some("")} then None else Some(workspaces[c.workspaceCode.value])
  }

  lemma WorkspaceIs(workspaces: map<string, Id>, c: Config)
    ensures Workspace(workspaces, c) == if Located(workspaces, c) then Some(LocatedAt(workspaces, c)) else None
  {
  }

  /** A synchronisation goes through exactly if every workspace the seed names is there. */
  lemma {:induction false} SyncsIff(t: Tables, configs: seq<Config>, k: nat, workspaces: map<string, Id>)
    requires k <= |configs|
    ensures SyncAll(t, configs, k, workspaces).Some? <==> forall l :: 0 <= l < k ==> Located(workspaces, configs[l])
  {
    hide SyncOne, Workspace, Located;
    if k > 0 {
      SyncsIff(t, configs, k - 1, workspaces);
      WorkspaceIs(workspaces, configs[k - 1]);
    }
  }

  /** The rule of the seed is stored as it stands there, active, and so is its configuration, with its workspace. */
  predicate StoredAs(t: Tables, c: Config, i: nat, workspace: Option<Id>)
    requires i < |c.rules|
  {
    && c.code in t.configs && t.configs[c.code] == StoredConfig(c, workspace, true)
    && RuleId(c.code, c.rules[i].ruleKey) in t.rules
    && t.rules[RuleId(c.code, c.rules[i].ruleKey)] == StoredRule(c.rules[i], true)
  }

  /** After a sync of a good seed all of it is stored and active, and no other rule of its configurations is. */
  lemma SeedIsStored(t: Tables, configs: seq<Config>, workspaces: map<string, Id>)
    requires GoodSeed(configs) && forall l :: 0 <= l < |configs| ==> Located(workspaces, configs[l])
    ensures SyncAll(t, configs, |configs|, workspaces).Some?
    ensures var after := SyncAll(t, configs, |configs|, workspaces).value.0;
            && (forall l, i :: 0 <= l < |configs| && 0 <= i < |configs[l].rules| ==>
                  StoredAs(after, configs[l], i, LocatedAt(workspaces, configs[l])))
            && (forall id, l :: id in after.rules && 0 <= l < |configs| && id.code == configs[l].code
                                && after.rules[id].active ==>
                  exists i :: 0 <= i < |configs[l].rules| && configs[l].rules[i].ruleKey == id.ruleKey)
  {
    hide SyncAll, GoodSeed, Workspace, LocatedAt, Settled;
    SyncsIff(t, configs, |configs|, workspaces);
    SyncSettlesAll(t, configs, |configs|, workspaces);
    var after := SyncAll(t, configs, |configs|, workspaces).value.0;
    forall l | 0 <= l < |configs|
      ensures (forall i :: 0 <= i < |configs[l].rules| ==>
                 StoredAs(after, configs[l], i, LocatedAt(workspaces, configs[l])))
              && forall id :: id in after.rules && id.code == configs[l].code && after.rules[id].active ==>
                   exists i :: 0 <= i < |configs[l].rules| && configs[l].rules[i].ruleKey == id.ruleKey
    {
      SettledIs(after, configs[l], workspaces);
    }
  }

  lemma SettledIs(t: Tables, c: Config, workspaces: map<string, Id>)
    requires Settled(t, c, workspaces) && Located(workspaces, c)
    ensures forall i :: 0 <= i < |c.rules| ==> StoredAs(t, c, i, LocatedAt(workspaces, c))
    ensures forall id :: id in t.rules && id.code == c.code && t.rules[id].active ==>
              exists i :: 0 <= i < |c.rules| && c.rules[i].ruleKey == id.ruleKey
  {
    WorkspaceIs(workspaces, c);
    hide Workspace;
    forall id | id in t.rules && id.code == c.code && t.rules[id].active
      ensures exists i :: 0 <= i < |c.rules| && c.rules[i].ruleKey == id.ruleKey
    {
      var r :| r in c.rules && r.ruleKey == id.ruleKey;
      var i :| 0 <= i < |c.rules| && c.rules[i] == r;
    }
  }

  /** The rules that were active and no longer are. */
  function Ended(before: map<RuleId, StoredRule>, after: map<RuleId, StoredRule>): set<RuleId> {
    set id | id in before && before[id].active && (id in after ==> !after[id].active)
  }

  lemma SyncOneEnds(t: Tables, c: Config, workspace: Option<Id>)
    requires DistinctKeys(c)
    ensures SyncOne(t, c, workspace).1 == |Ended(t.rules, SyncOne(t, c, workspace).0.rules)|
    ensures forall id :: id in Ended(t.rules, SyncOne(t, c, workspace).0.rules) ==> id.code == c.code
  {
    var upserted := Upserted(t.rules, c, |c.rules|);
    UpsertedIs(t.rules, c, |c.rules|);
    hide Upserted;
    forall id | id in upserted && id.code == c.code && id.ruleKey in Keys(c)
      ensures id !in Stale(upserted, c) && upserted[id].active
    {
      var r :| r in c.rules && r.ruleKey == id.ruleKey;
      var k :| 0 <= k < |c.rules| && c.rules[k] == r;
    }
    assert Stale(upserted, c) == Ended(t.rules, SyncOne(t, c, workspace).0.rules);
  }

  /** What ends over two stretches, the second of which touches one configuration only and the first not that one. */
  lemma EndedInTwo(a: map<RuleId, StoredRule>, m: map<RuleId, StoredRule>, b: map<RuleId, StoredRule>, code: string)
    requires a.Keys <= m.Keys <= b.Keys
    requires forall id :: id in m && id.code == code ==> id in a && m[id] == a[id]
    requires forall id :: id in b && id.code != code ==> id in m && b[id] == m[id]
    ensures |Ended(a, b)| == |Ended(a, m)| + |Ended(m, b)|
    ensures Ended(a, b) == Ended(a, m) + Ended(m, b)
  {
    assert Ended(a, b) == Ended(a, m) + Ended(m, b);
    assert Ended(a, m) !! Ended(m, b);
  }

  lemma SyncAllCounts(t: Tables, configs: seq<Config>, k: nat, workspaces: map<string, Id>)
    requires k < |configs| && SyncAll(t, configs, k + 1, workspaces).Some?
    ensures SyncAll(t, configs, k, workspaces).Some? && Workspace(workspaces, configs[k]).Some?
    ensures var (mid, count) := SyncAll(t, configs, k, workspaces).value;
            var (after, more) := SyncOne(mid, configs[k], Workspace(workspaces, configs[k]).value);
            SyncAll(t, configs, k + 1, workspaces) == Some((after, count + more))
  {
  }

  lemma EndedInStep(t: Tables, mid: Tables, configs: seq<Config>, k: nat, workspace: Option<Id>)
    requires k < |configs| && DistinctKeys(configs[k]) && TouchesOnly(t, mid, configs, k)
    requires !CodeSeen(configs, k, configs[k].code)
    ensures var (after, more) := SyncOne(mid, configs[k], workspace);
            |Ended(t.rules, after.rules)| == |Ended(t.rules, mid.rules)| + more
  {
    var c := configs[k];
    SyncOneEnds(mid, c, workspace);
    SyncBringsInLine(mid.rules, c);
    var after := SyncOne(mid, c, workspace).0;
    hide SyncRules, Upserted, Ended, InLine, CodeSeen;
    EndedInTwo(t.rules, mid.rules, after.rules, c.code);
  }

  lemma CodeIsNew(configs: seq<Config>, k: nat)
    requires GoodSeed(configs) && k < |configs|
    ensures !CodeSeen(configs, k, configs[k].code)
  {
    hide GoodSeed;
    forall j | 0 <= j < k ensures configs[j].code != configs[k].code {
      GoodCodes(configs, j, k);
    }
  }

  /** The number reported is the number of rules that were active before and are not afterwards. */
  lemma {:induction false} DeactivatedAreCounted(t: Tables, configs: seq<Config>, k: nat, workspaces: map<string, Id>)
    requires GoodSeed(configs) && k <= |configs| && SyncAll(t, configs, k, workspaces).Some?
    ensures var (after, count) := SyncAll(t, configs, k, workspaces).value;
            count == |Ended(t.rules, after.rules)|
  {
    hide SyncAll, SyncOne, Workspace, GoodSeed, Settled, DistinctKeys, TouchesOnly;
    if k == 0 {
      NothingSynced(t, configs, workspaces);
      assert Ended(t.rules, t.rules) == {};
    } else {
      hide Ended;
      SyncAllCounts(t, configs, k - 1, workspaces);
      DeactivatedAreCounted(t, configs, k - 1, workspaces);
      SyncKeepsOtherRules(t, configs, k - 1, workspaces);
      GoodKeys(configs, k - 1);
      CodeIsNew(configs, k - 1);
      EndedInStep(t, SyncAll(t, configs, k - 1, workspaces).value.0, configs, k - 1,
                  Workspace(workspaces, configs[k - 1]).value);
    }
  }
}
