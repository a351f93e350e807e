/** The validation of the criteria seed: configurations, their rules, and the requirement tree of each rule. */
module CriteriaValidation {
  import opened ReviewTypes
  import opened Text

  /** `Threshold` holds its value if that is a finite number; `Other` stands for the kinds of node that are
      never wrong. */
  datatype Node =
    | AllOf(children: seq<Node>)
    | AnyOf(minimumMatches: int, children: seq<Node>)
    | Threshold(value: Option<real>)
    | ManualReview
    | Other

  datatype Rule = Rule(
    criterion: Criterion, ruleKey: string, requirement: Node, mandatory: bool, priority: bool, studentText: string)

  datatype Config = Config(
    code: string, scope: Level, workspaceCode: Option<string>, documentName: string, organization: string,
    fileName: string,
    rules: seq<Rule>)

  /** Where a node stands: the configuration, the rule, and the child taken at each level. */
  datatype Place = Place(code: string, ruleKey: string, path: seq<nat>)

  datatype Problem =
    | DuplicateCode(code: string) | YearInCode(code: string) | MissingMetadata(code: string)
    | NotAFileName(code: string)
    | DuplicateKey(code: string, ruleKey: string) | UnsupportedCriterion(code: string, ruleKey: string)
    | MandatoryPriority(code: string, ruleKey: string) | MissingStudentText(code: string, ruleKey: string)
    | EmptyNode(place: Place) | InvalidMinimum(place: Place) | InvalidThreshold(place: Place)
    | MissingMandatory(code: string, criterion: Criterion)

  function When(applies: bool, p: Problem): seq<Problem> { if applies then [p] else [] }

  // ---------- Requirement trees ----------

  predicate Composite(n: Node) { n.AllOf? || n.AnyOf? }

  predicate Empty(n: Node) { Composite(n) && n.children == [] }

  predicate BadMinimum(n: Node) { n.AnyOf? && (n.minimumMatches < 1 || n.minimumMatches > |n.children|) }

  predicate BadThreshold(n: Node) { n.Threshold? && (n.value.None? || n.value.value < 0.0) }

  function Child(place: Place, i: nat): Place { place.(path := place.path + [i]) }

  function OwnProblems(place: Place, n: Node): seq<Problem> {
    When(Empty(n), EmptyNode(place)) + When(BadMinimum(n), InvalidMinimum(place))
      + When(BadThreshold(n), InvalidThreshold(place))
  }

  function NodeProblems(place: Place, n: Node): seq<Problem>
    decreases n, 0
  {
    OwnProblems(place, n) + if Composite(n) then ChildProblems(place, n, 0) else []
  }

  function ChildProblems(place: Place, n: Node, i: nat): seq<Problem>
    requires Composite(n) && i <= |n.children|
    decreases n, 0, |n.children| - i
  {
    if i == |n.children| then []
    else NodeProblems(Child(place, i), n.children[i]) + ChildProblems(place, n, i + 1)
  }

  method ValidateOneNode(place: Place, n: Node, errors: seq<Problem>) returns (all: seq<Problem>)
    ensures all == errors + OwnProblems(place, n)
  {
    all := errors;
    if Composite(n) && n.children == [] {
      all := all + [EmptyNode(place)];
    }
    if n.AnyOf? && (n.minimumMatches < 1 || n.minimumMatches > |n.children|) {
      all := all + [InvalidMinimum(place)];
    }
    if n.Threshold? && (n.value.None? || n.value.value < 0.0) {
      all := all + [InvalidThreshold(place)];
    }
  }

  lemma NodeProblemsAre(place: Place, n: Node)
    ensures NodeProblems(place, n) == OwnProblems(place, n) + if Composite(n) then ChildProblems(place, n, 0) else []
    ensures Composite(n) ==> ChildProblems(place, n, |n.children|) == []
  {
  }

  lemma ChildProblemsFrom(place: Place, n: Node, i: nat)
    requires Composite(n) && i < |n.children|
    ensures ChildProblems(place, n, i) == NodeProblems(Child(place, i), n.children[i]) + ChildProblems(place, n, i + 1)
  {
  }

  /** Pushes the problems of a tree onto the list. */
  method ValidateNode(place: Place, n: Node, errors: seq<Problem>) returns (all: seq<Problem>)
    ensures all == errors + NodeProblems(place, n)
    decreases n
  {
    hide NodeProblems, ChildProblems, OwnProblems;
    NodeProblemsAre(place, n);
    all := ValidateOneNode(place, n, errors);
    if Composite(n) {
      for i := 0 to |n.children|
        invariant all + ChildProblems(place, n, i) == errors + NodeProblems(place, n)
      {
        ChildProblemsFrom(place, n, i);
        all := ValidateNode(Child(place, i), n.children[i], all);
      }
    }
  }

  /** The node reached by following a path. */
  function NodeAt(n: Node, path: seq<nat>): Option<Node>
    decreases path
  {
    if path == [] then Some(n)
    else if !Composite(n) || path[0] >= |n.children| then None
    else NodeAt(n.children[path[0]], path[1..])
  }

  /** What is wrong at a node, if anything. */
  predicate Wrong(p: Problem, place: Place, n: Node) { p in OwnProblems(place, n) }

  /** A problem of a tree is one of a node in it, named by its path. */
  predicate WrongBelow(p: Problem, place: Place, n: Node, path: seq<nat>) {
    NodeAt(n, path).Some? && Wrong(p, place.(path := place.path + path), NodeAt(n, path).value)
  }

  lemma {:induction false} ProblemIsSomewhere(place: Place, n: Node, p: Problem) returns (path: seq<nat>)
    requires p in NodeProblems(place, n)
    ensures WrongBelow(p, place, n, path)
    decreases n, 0
  {
    hide OwnProblems;
    if p in OwnProblems(place, n) {
      path := [];
      assert place.path + path == place.path;
    } else {
      var i, below := ProblemIsInChild(place, n, 0, p);
      path := [i] + below;
      assert path[1..] == below && place.path + path == Child(place, i).path + below;
    }
  }

  lemma {:induction false} ProblemIsInChild(place: Place, n: Node, i: nat, p: Problem) returns (k: nat, path: seq<nat>)
    requires Composite(n) && i <= |n.children| && p in ChildProblems(place, n, i)
    ensures k < |n.children| && WrongBelow(p, Child(place, k), n.children[k], path)
    decreases n, 0, |n.children| - i
  {
    if p in NodeProblems(Child(place, i), n.children[i]) {
      k := i;
      path := ProblemIsSomewhere(Child(place, i), n.children[i], p);
    } else {
      k, path := ProblemIsInChild(place, n, i + 1, p);
    }
  }

  lemma {:induction false} ChildIsListed(place: Place, n: Node, i: nat, k: nat, p: Problem)
    requires Composite(n) && i <= k < |n.children| && p in NodeProblems(Child(place, k), n.children[k])
    ensures p in ChildProblems(place, n, i)
    decreases |n.children| - i
  {
    hide NodeProblems;
    if i < k {
      ChildIsListed(place, n, i + 1, k, p);
    }
  }

  lemma {:induction false} WrongIsListed(place: Place, n: Node, p: Problem, path: seq<nat>)
    requires WrongBelow(p, place, n, path)
    ensures p in NodeProblems(place, n)
    decreases path
  {
    if path == [] {
      assert place.path + path == place.path;
    } else {
      var k := path[0];
      assert place.path + path == Child(place, k).path + path[1..];
      WrongIsListed(Child(place, k), n.children[k], p, path[1..]);
      ChildIsListed(place, n, 0, k, p);
    }
  }

  /** Sound and complete at any depth: a problem is reported exactly if the node its path leads to has it. */
  lemma ProblemsAreExact(place: Place, n: Node, p: Problem)
    ensures p in NodeProblems(place, n) <==> exists path :: WrongBelow(p, place, n, path)
  {
    if p in NodeProblems(place, n) {
      var path := ProblemIsSomewhere(place, n, p);
    } else if path :| WrongBelow(p, place, n, path) {
      WrongIsListed(place, n, p, path);
    }
  }

  predicate WellFormedNode(n: Node) { !Empty(n) && !BadMinimum(n) && !BadThreshold(n) }

  ghost predicate WellFormed(n: Node) {
    forall path :: NodeAt(n, path).Some? ==> WellFormedNode(NodeAt(n, path).value)
  }

  lemma NoProblemsIff(place: Place, n: Node)
    ensures NodeProblems(place, n) == [] <==> WellFormed(n)
  {
    if NodeProblems(place, n) != [] {
      var p := NodeProblems(place, n)[0];
      var path := ProblemIsSomewhere(place, n, p);
      assert !WellFormedNode(NodeAt(n, path).value);
    } else {
      forall path | NodeAt(n, path).Some? ensures WellFormedNode(NodeAt(n, path).value) {
        var at := place.(path := place.path + path);
        if !WellFormedNode(NodeAt(n, path).value) {
          var p := OwnProblems(at, NodeAt(n, path).value)[0];
          WrongIsListed(place, n, p, path);
          assert false;
        }
      }
    }
  }

  // ---------- Rules and configurations ----------

  predicate Digits(s: string, i: nat, n: nat) { i + n <= |s| && forall k :: i <= k < i + n ==> IsDigit(s[k]) }

  /** The code contains a school year such as 2025-2026. */
  predicate HasSchoolYear(code: string) {
    exists i :: 0 <= i < |code| && Digits(code, i, 4) && i + 4 < |code| && code[i + 4] == '-' && Digits(code, i + 5, 4)
  }

  predicate IsLetter(c: char) { 'A' <= c <= 'Z' || 'a' <= c <= 'z' }

  /** The file name starts like a path. */
  predicate StartsLikeAPath(name: string) {
    || (name != "" && name[0] == '/')
    || (|name| >= 3 && IsLetter(name[0]) && name[1] == ':' && name[2] == '\\')
  }

  predicate LacksMetadata(c: Config) { c.documentName == "" || c.organization == "" || c.fileName == "" }

  predicate KeySeen(rules: seq<Rule>, k: nat, key: string) {
    exists j :: 0 <= j < k && j < |rules| && rules[j].ruleKey == key
  }

  /** The problems of a rule apart from its requirement. */
  function FieldProblems(c: Config, k: nat): seq<Problem>
    requires k < |c.rules|
  {
    var r := c.rules[k];
    When(KeySeen(c.rules, k, r.ruleKey), DuplicateKey(c.code, r.ruleKey))
    + When(r.criterion !in CORE_CRITERIA, UnsupportedCriterion(c.code, r.ruleKey))
    + When(r.priority && r.mandatory, MandatoryPriority(c.code, r.ruleKey))
    + When(Trim(r.studentText) == "", MissingStudentText(c.code, r.ruleKey))
  }

  function RuleProblems(c: Config, k: nat): seq<Problem>
    requires k < |c.rules|
  {
    FieldProblems(c, k) + NodeProblems(Place(c.code, c.rules[k].ruleKey, []), c.rules[k].requirement)
  }

  function RulesProblems(c: Config, k: nat): seq<Problem>
    requires k <= |c.rules|
  {
    if k == 0 then [] else RulesProblems(c, k - 1) + RuleProblems(c, k - 1)
  }

  predicate HasMandatory(c: Config, k: nat, criterion: Criterion) {
    exists j :: 0 <= j < k && j < |c.rules| && c.rules[j].mandatory && c.rules[j].criterion == criterion
  }

  function MandatoryProblems(c: Config, n: nat): seq<Problem>
    requires n <= |CORE_CRITERIA|
  {
    if n == 0 then []
    else MandatoryProblems(c, n - 1)
         + When(!HasMandatory(c, |c.rules|, CORE_CRITERIA[n - 1]), MissingMandatory(c.code, CORE_CRITERIA[n - 1]))
  }

  predicate CodeSeen(configs: seq<Config>, k: nat, code: string) {
    exists j :: 0 <= j < k && j < |configs| && configs[j].code == code
  }

  function HeadProblems(configs: seq<Config>, k: nat): seq<Problem>
    requires k < |configs|
  {
    var c := configs[k];
    When(CodeSeen(configs, k, c.code), DuplicateCode(c.code)) + When(HasSchoolYear(c.code), YearInCode(c.code))
    + When(LacksMetadata(c), MissingMetadata(c.code)) + When(StartsLikeAPath(c.fileName), NotAFileName(c.code))
  }

  function SeedProblems(configs: seq<Config>, k: nat): seq<Problem>
    requires k <= |configs|
  {
    if k == 0 then []
    else SeedProblems(configs, k - 1) + HeadProblems(configs, k - 1)
         + RulesProblems(configs[k - 1], |configs[k - 1].rules|) + MandatoryProblems(configs[k - 1], 5)
  }

  lemma OneAfterTheOther(all: seq<Problem>, a: seq<Problem>, b: seq<Problem>, c: seq<Problem>, d: seq<Problem>)
    ensures all + a + b + c + d == all + (a + b + c + d)
  {
  }

  method ValidateFields(c: Config, k: nat, keys: set<string>, errors: seq<Problem>) returns (all: seq<Problem>)
    requires k < |c.rules| && (c.rules[k].ruleKey in keys <==> KeySeen(c.rules, k, c.rules[k].ruleKey))
    ensures all == errors + FieldProblems(c, k)
  {
    hide KeySeen, Trim;
    var r := c.rules[k];
    ghost var duplicate := When(KeySeen(c.rules, k, r.ruleKey), DuplicateKey(c.code, r.ruleKey));
    ghost var unsupported := When(r.criterion !in CORE_CRITERIA, UnsupportedCriterion(c.code, r.ruleKey));
    ghost var contradictory := When(r.priority && r.mandatory, MandatoryPriority(c.code, r.ruleKey));
    ghost var textless := When(Trim(r.studentText) == "", MissingStudentText(c.code, r.ruleKey));
    all := errors;
    if r.ruleKey in keys {
      all := all + [DuplicateKey(c.code, r.ruleKey)];
    }
    assert all == errors + duplicate;
    if r.criterion !in CORE_CRITERIA {
      all := all + [UnsupportedCriterion(c.code, r.ruleKey)];
    }
    assert all == errors + duplicate + unsupported;
    if r.priority && r.mandatory {
      all := all + [MandatoryPriority(c.code, r.ruleKey)];
    }
    assert all == errors + duplicate + unsupported + contradictory;
    if Trim(r.studentText) == "" {
      all := all + [MissingStudentText(c.code, r.ruleKey)];
    }
    assert all == errors + duplicate + unsupported + contradictory + textless;
    OneAfterTheOther(errors, duplicate, unsupported, contradictory, textless);
  }

  method ValidateRule(c: Config, k: nat, keys: set<string>, errors: seq<Problem>) returns (all: seq<Problem>)
    requires k < |c.rules| && forall key :: key in keys <==> KeySeen(c.rules, k, key)
    ensures all == errors + RuleProblems(c, k)
  {
    hide NodeProblems, FieldProblems, KeySeen;
    all := ValidateFields(c, k, keys, errors);
    all := ValidateNode(Place(c.code, c.rules[k].ruleKey, []), c.rules[k].requirement, all);
  }

  /** The rules of one configuration, with the keys and the mandatory criteria seen so far. */
  method ValidateRules(c: Config, errors: seq<Problem>) returns (all: seq<Problem>)
    ensures all == errors + RulesProblems(c, |c.rules|) + MandatoryProblems(c, 5)
  {
    hide RuleProblems, Trim;
    all := errors;
    var keys: set<string>, mandatory: set<Criterion> := {}, {};
    for k := 0 to |c.rules|
      invariant forall key :: key in keys <==> KeySeen(c.rules, k, key)
      invariant forall criterion :: criterion in mandatory <==> HasMandatory(c, k, criterion)
      invariant all == errors + RulesProblems(c, k)
    {
      all := ValidateRule(c, k, keys, all);
      keys := keys + {c.rules[k].ruleKey};
      if c.rules[k].mandatory {
        mandatory := mandatory + {c.rules[k].criterion};
      }
    }
    for n := 0 to |CORE_CRITERIA|
      invariant all == errors + RulesProblems(c, |c.rules|) + MandatoryProblems(c, n)
    {
      if CORE_CRITERIA[n] !in mandatory {
        all := all + [MissingMandatory(c.code, CORE_CRITERIA[n])];
      }
    }
  }

  method ValidateHead(configs: seq<Config>, k: nat, seenCodes: set<string>, errors: seq<Problem>)
    returns (all: seq<Problem>)
    requires k < |configs| && (configs[k].code in seenCodes <==> CodeSeen(configs, k, configs[k].code))
    ensures all == errors + HeadProblems(configs, k)
  {
    hide HasSchoolYear, LacksMetadata, StartsLikeAPath, CodeSeen;
    var c := configs[k];
    all := errors;
    if c.code in seenCodes {
      all := all + [DuplicateCode(c.code)];
    }
    if HasSchoolYear(c.code) {
      all := all + [YearInCode(c.code)];
    }
    if LacksMetadata(c) {
      all := all + [MissingMetadata(c.code)];
    }
    if StartsLikeAPath(c.fileName) {
      all := all + [NotAFileName(c.code)];
    }
  }

  method ValidateSeedCriteria(configs: seq<Config>) returns (errors: seq<Problem>)
    ensures errors == SeedProblems(configs, |configs|)
  {
    hide HeadProblems, RulesProblems, MandatoryProblems;
    errors := [];
    var seenCodes: set<string> := {};
    for k := 0 to |configs|
      invariant forall code :: code in seenCodes <==> CodeSeen(configs, k, code)
      invariant errors == SeedProblems(configs, k)
    {
      errors := ValidateHead(configs, k, seenCodes, errors);
      seenCodes := seenCodes + {configs[k].code};
      errors := ValidateRules(configs[k], errors);
    }
  }

  // ---------- What a good seed is ----------

  ghost predicate GoodRule(r: Rule) {
    && r.criterion in CORE_CRITERIA && !(r.priority && r.mandatory) && Trim(r.studentText) != ""
       && WellFormed(r.requirement)
  }

  ghost predicate GoodConfig(c: Config) {
    && !HasSchoolYear(c.code) && !LacksMetadata(c) && !StartsLikeAPath(c.fileName)
    && (forall k, l :: 0 <= k < l < |c.rules| ==> c.rules[k].ruleKey != c.rules[l].ruleKey)
    && (forall k :: 0 <= k < |c.rules| ==> GoodRule(c.rules[k]))
    && forall criterion :: criterion in CORE_CRITERIA ==> HasMandatory(c, |c.rules|, criterion)
  }

  ghost predicate GoodSeed(configs: seq<Config>) {
    && (forall k, l :: 0 <= k < l < |configs| ==> configs[k].code != configs[l].code)
    && forall k :: 0 <= k < |configs| ==> GoodConfig(configs[k])
  }

  lemma RuleProblemsIff(c: Config, k: nat)
    requires k < |c.rules|
    ensures RuleProblems(c, k) == [] <==> GoodRule(c.rules[k]) && !KeySeen(c.rules, k, c.rules[k].ruleKey)
  {
    hide NodeProblems, WellFormed, KeySeen, Trim;
    NoProblemsIff(Place(c.code, c.rules[k].ruleKey, []), c.rules[k].requirement);
  }

  lemma {:induction false} RulesProblemsIff(c: Config, k: nat)
    requires k <= |c.rules|
    ensures RulesProblems(c, k) == []
            <==> forall l :: 0 <= l < k ==> GoodRule(c.rules[l]) && !KeySeen(c.rules, l, c.rules[l].ruleKey)
  {
    hide RuleProblems, GoodRule, KeySeen;
    if k > 0 {
      RulesProblemsIff(c, k - 1);
      RuleProblemsIff(c, k - 1);
    }
  }

  lemma MandatoryProblemsStep(c: Config, n: nat)
    requires 0 < n <= |CORE_CRITERIA|
    ensures MandatoryProblems(c, n) == []
            <==> MandatoryProblems(c, n - 1) == [] && HasMandatory(c, |c.rules|, CORE_CRITERIA[n - 1])
  {
    hide HasMandatory, CORE_CRITERIA;
  }

  lemma {:induction false} MandatoryProblemsIff(c: Config, n: nat)
    requires n <= |CORE_CRITERIA|
    ensures MandatoryProblems(c, n) == [] <==> forall m :: 0 <= m < n ==> HasMandatory(c, |c.rules|, CORE_CRITERIA[m])
  {
    hide HasMandatory, CORE_CRITERIA;
    if n > 0 {
      MandatoryProblemsIff(c, n - 1);
      MandatoryProblemsStep(c, n);
      hide MandatoryProblems;
    }
  }

  lemma KeysDistinctIff(rules: seq<Rule>)
    ensures (forall l :: 0 <= l < |rules| ==> !KeySeen(rules, l, rules[l].ruleKey))
            <==> forall k, l :: 0 <= k < l < |rules| ==> rules[k].ruleKey != rules[l].ruleKey
  {
  }

  lemma HeadProblemsIff(configs: seq<Config>, k: nat)
    requires k < |configs|
    ensures var c := configs[k];
            HeadProblems(configs, k) == []
            <==> !CodeSeen(configs, k, c.code) && !HasSchoolYear(c.code) && !LacksMetadata(c)
                 && !StartsLikeAPath(c.fileName)
  {
    hide HasSchoolYear, LacksMetadata, StartsLikeAPath, CodeSeen;
  }

  /** The part of a good configuration that is about its rules. */
  lemma GoodConfigIff(c: Config)
    ensures GoodConfig(c)
            <==> && !HasSchoolYear(c.code) && !LacksMetadata(c) && !StartsLikeAPath(c.fileName)
                 && RulesProblems(c, |c.rules|) == [] && MandatoryProblems(c, 5) == []
  {
    hide GoodRule, HasSchoolYear, LacksMetadata, StartsLikeAPath, HasMandatory, RulesProblems, MandatoryProblems,
      KeySeen;
    RulesProblemsIff(c, |c.rules|);
    KeysDistinctIff(c.rules);
    MandatoryProblemsIff(c, 5);
    assert (forall m :: 0 <= m < 5 ==> HasMandatory(c, |c.rules|, CORE_CRITERIA[m]))
      <==> forall criterion :: criterion in CORE_CRITERIA ==> HasMandatory(c, |c.rules|, criterion);
  }

  lemma NothingIff(a: seq<Problem>, b: seq<Problem>, c: seq<Problem>)
    ensures a + b + c == [] <==> a == [] && b == [] && c == []
  {
    assert |a + b + c| == |a| + |b| + |c|;
  }

  lemma ConfigProblemsIff(configs: seq<Config>, k: nat)
    requires k < |configs|
    ensures var c := configs[k];
            HeadProblems(configs, k) + RulesProblems(c, |c.rules|) + MandatoryProblems(c, 5) == []
            <==> !CodeSeen(configs, k, c.code) && GoodConfig(c)
  {
    hide HeadProblems, RulesProblems, MandatoryProblems, CodeSeen, GoodConfig;
    var c := configs[k];
    NothingIff(HeadProblems(configs, k), RulesProblems(c, |c.rules|), MandatoryProblems(c, 5));
    HeadProblemsIff(configs, k);
    GoodConfigIff(c);
  }

  lemma {:induction false} SeedProblemsIff(configs: seq<Config>, k: nat)
    requires k <= |configs|
    ensures SeedProblems(configs, k) == []
            <==> forall l :: 0 <= l < k ==> !CodeSeen(configs, l, configs[l].code) && GoodConfig(configs[l])
  {
    hide GoodConfig, CodeSeen, HeadProblems, RulesProblems, MandatoryProblems;
    if k > 0 {
      SeedProblemsIff(configs, k - 1);
      ConfigProblemsIff(configs, k - 1);
    }
  }

  /** The seed is accepted exactly if codes and rule keys are unique, codes carry no year, metadata are there,
      every rule is good to any depth of its tree, and all five criteria are mandatory in every configuration. */
  lemma NoErrorsIffGood(configs: seq<Config>)
    ensures SeedProblems(configs, |configs|) == [] <==> GoodSeed(configs)
  {
    hide GoodConfig, CodeSeen, SeedProblems;
    SeedProblemsIff(configs, |configs|);
    CodesDistinctIff(configs);
  }

  lemma CodesDistinctIff(configs: seq<Config>)
    ensures (forall l :: 0 <= l < |configs| ==> !CodeSeen(configs, l, configs[l].code))
            <==> forall k, l :: 0 <= k < l < |configs| ==> configs[k].code != configs[l].code
  {
  }
}
