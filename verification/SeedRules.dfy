/** Which problems the validation of a criteria seed reports, each told by the seed itself. */
module SeedRules {
  import opened ReviewTypes
  import opened Text
  import opened CriteriaValidation

  // ---------- Requirement trees ----------

  /** The node a path of child numbers leads to. */
  function Reached(n: Node, path: seq<nat>): Option<Node>
    decreases path
  {
    if path == [] then Some(n)
    else
      match n
      case AllOf(children) => if path[0] < |children| then Reached(children[path[0]], path[1..]) else None
      case AnyOf(_, children) => if path[0] < |children| then Reached(children[path[0]], path[1..]) else None
      case _ => None
  }

  lemma {:induction false} ReachedIs(n: Node, path: seq<nat>)
    ensures Reached(n, path) == NodeAt(n, path)
    decreases path
  {
    if path != [] && Composite(n) && path[0] < |n.children| {
      ReachedIs(n.children[path[0]], path[1..]);
    }
  }

  predicate HasNoChild(n: Option<Node>) {
    match n
    case Some(AllOf(children)) => children == []
    case Some(AnyOf(_, children)) => children == []
    case _ => false
  }

  /** Fewer matches are asked for than one, or more than there are children. */
  predicate AsksTheImpossible(n: Option<Node>) {
    match n
    case Some(AnyOf(matches, children)) => !(1 <= matches <= |children|)
    case _ => false
  }

  predicate HasNoThreshold(n: Option<Node>) {
    match n
    case Some(Threshold(value)) => !(value.Some? && value.value >= 0.0)
    case _ => false
  }

  /** The problem is one of the tree whose root has the given place. */
  predicate TreeFault(p: Problem, root: Place, n: Node, path: seq<nat>) {
    match p
    case EmptyNode(place) => place == Place(root.code, root.ruleKey, root.path + path) && HasNoChild(Reached(n, path))
    case InvalidMinimum(place) =>
      place == Place(root.code, root.ruleKey, root.path + path) && AsksTheImpossible(Reached(n, path))
    case InvalidThreshold(place) =>
      place == Place(root.code, root.ruleKey, root.path + path) && HasNoThreshold(Reached(n, path))
    case _ => false
  }

  lemma WrongBelowIff(p: Problem, root: Place, n: Node, path: seq<nat>)
    ensures WrongBelow(p, root, n, path) <==> TreeFault(p, root, n, path)
  {
    ReachedIs(n, path);
  }

  /** A problem of a tree is reported exactly if the node its place leads to has it. */
  lemma TreeProblemIff(root: Place, n: Node, p: Problem)
    ensures p in NodeProblems(root, n) <==> exists path :: TreeFault(p, root, n, path)
  {
    hide TreeFault, WrongBelow, NodeProblems;
    ProblemsAreExact(root, n, p);
    forall path ensures WrongBelow(p, root, n, path) <==> TreeFault(p, root, n, path) {
      WrongBelowIff(p, root, n, path);
    }
  }

  /** A tree in which every combination has children, every minimum can be met and no threshold is negative. */
  predicate GoodTree(n: Node) {
    match n
    case AllOf(children) => children != [] && forall i :: 0 <= i < |children| ==> GoodTree(children[i])
    case AnyOf(matches, children) =>
      1 <= matches <= |children| && forall i :: 0 <= i < |children| ==> GoodTree(children[i])
    case Threshold(value) => value.Some? && value.value >= 0.0
    case _ => true
  }

  lemma {:induction false} NoTreeProblemsIff(root: Place, n: Node)
    ensures NodeProblems(root, n) == [] <==> GoodTree(n)
    decreases n, 0
  {
    if Composite(n) {
      NoChildProblemsIff(root, n, 0);
      hide ChildProblems;
    }
  }

  lemma {:induction false} NoChildProblemsIff(root: Place, n: Node, i: nat)
    requires Composite(n) && i <= |n.children|
    ensures ChildProblems(root, n, i) == [] <==> forall k :: i <= k < |n.children| ==> GoodTree(n.children[k])
    decreases n, 0, |n.children| - i
  {
    hide NodeProblems, GoodTree;
    if i < |n.children| {
      NoTreeProblemsIff(Child(root, i), n.children[i]);
      NoChildProblemsIff(root, n, i + 1);
      ChildProblemsFrom(root, n, i);
      hide ChildProblems;
    }
  }

  // ---------- Configurations and rules ----------

  predicate IsCore(c: Criterion) {
    c in {Criterion.Ethics, Criterion.Academic, Criterion.Physical, Criterion.Volunteer, Criterion.Integration}
  }

  lemma IsCoreIff(c: Criterion)
    ensures IsCore(c) <==> exists k :: 0 <= k < |CORE_CRITERIA| && CORE_CRITERIA[k] == c
  {
    assert CORE_CRITERIA[0].Ethics? && CORE_CRITERIA[1].Academic? && CORE_CRITERIA[2].Physical?;
    assert CORE_CRITERIA[3].Volunteer? && CORE_CRITERIA[4].Integration?;
  }

  /** Four digits, a hyphen and four digits. */
  predicate YearAt(s: string, i: nat) {
    i + 9 <= |s| && s[i + 4] == '-' && forall k :: i <= k < i + 9 && k != i + 4 ==> '0' <= s[k] <= '9'
  }

  predicate NamesAYear(s: string) { exists i :: 0 <= i < |s| && YearAt(s, i) }

  lemma NamesAYearIff(s: string)
    ensures NamesAYear(s) <==> HasSchoolYear(s)
  {
    if i :| 0 <= i < |s| && YearAt(s, i) {
      assert Digits(s, i, 4) && Digits(s, i + 5, 4);
    }
    if i :| 0 <= i < |s| && Digits(s, i, 4) && i + 4 < |s| && s[i + 4] == '-' && Digits(s, i + 5, 4) {
      assert YearAt(s, i);
    }
  }

  /** An absolute path, of a Unix or a Windows system. */
  predicate IsAPath(name: string) {
    || (|name| > 0 && name[0] == '/')
    || (|name| > 2 && ('A' <= name[0] <= 'Z' || 'a' <= name[0] <= 'z') && name[1..3] == ":\\")
  }

  lemma IsAPathIff(name: string)
    ensures IsAPath(name) <==> StartsLikeAPath(name)
  {
    if |name| > 2 {
      assert name[1..3] == [name[1], name[2]];
    }
  }

  /** The fault a problem of a configuration names, apart from its rules and their trees. */
  predicate ConfigFault(configs: seq<Config>, k: nat, p: Problem)
    requires k < |configs|
  {
    var c := configs[k];
    match p
    case DuplicateCode(code) => c.code == code && exists j :: 0 <= j < k && configs[j].code == code
    case YearInCode(code) => c.code == code && NamesAYear(code)
    case MissingMetadata(code) => c.code == code && (c.documentName == "" || c.organization == "" || c.fileName == "")
    case NotAFileName(code) => c.code == code && IsAPath(c.fileName)
    case MissingMandatory(code, criterion) =>
      c.code == code && IsCore(criterion)
      && forall i :: 0 <= i < |c.rules| ==> !(c.rules[i].mandatory && c.rules[i].criterion == criterion)
    case _ => false
  }

  /** The fault a problem names in rule i of the configuration, apart from its tree. */
  predicate FieldFault(c: Config, i: nat, p: Problem)
    requires i < |c.rules|
  {
    var r := c.rules[i];
    match p
    case DuplicateKey(code, key) =>
      c.code == code && r.ruleKey == key && exists j :: 0 <= j < i && c.rules[j].ruleKey == key
    case UnsupportedCriterion(code, key) => c.code == code && r.ruleKey == key && !IsCore(r.criterion)
    case MandatoryPriority(code, key) => c.code == code && r.ruleKey == key && r.priority && r.mandatory
    case MissingStudentText(code, key) => c.code == code && r.ruleKey == key && Trim(r.studentText) == ""
    case _ => false
  }

  ghost predicate RuleFault(c: Config, i: nat, p: Problem)
    requires i < |c.rules|
  {
    || FieldFault(c, i, p)
    || exists path :: TreeFault(p, Place(c.code, c.rules[i].ruleKey, []), c.rules[i].requirement, path)
  }

  lemma FieldProblemIff(c: Config, i: nat, p: Problem)
    requires i < |c.rules|
    ensures p in FieldProblems(c, i) <==> FieldFault(c, i, p)
  {
    hide Trim;
    IsCoreIff(c.rules[i].criterion);
  }

  lemma RuleProblemIs(c: Config, i: nat, p: Problem)
    requires i < |c.rules|
    ensures p in RuleProblems(c, i) <==> RuleFault(c, i, p)
  {
    FieldProblemIff(c, i, p);
    TreeProblemIff(Place(c.code, c.rules[i].ruleKey, []), c.rules[i].requirement, p);
    hide NodeProblems, FieldProblems, FieldFault, TreeFault;
  }

  lemma {:induction false} RulesProblemIff(c: Config, k: nat, p: Problem)
    requires k <= |c.rules|
    ensures p in RulesProblems(c, k) <==> exists i :: 0 <= i < k && RuleFault(c, i, p)
  {
    hide RuleFault, RuleProblems;
    if k > 0 {
      RulesProblemIff(c, k - 1, p);
      RuleProblemIs(c, k - 1, p);
    }
  }

  lemma {:induction false} MandatoryProblemIff(c: Config, n: nat, p: Problem)
    requires n <= |CORE_CRITERIA|
    ensures p in MandatoryProblems(c, n)
            <==> exists k :: 0 <= k < n && p == MissingMandatory(c.code, CORE_CRITERIA[k])
                             && !HasMandatory(c, |c.rules|, CORE_CRITERIA[k])
  {
    hide HasMandatory;
    if n > 0 {
      MandatoryProblemIff(c, n - 1, p);
    }
  }

  lemma HeadProblemIff(configs: seq<Config>, k: nat, p: Problem)
    requires k < |configs|
    ensures p in HeadProblems(configs, k) <==> !p.MissingMandatory? && ConfigFault(configs, k, p)
  {
    var c := configs[k];
    NamesAYearIff(c.code);
    IsAPathIff(c.fileName);
    hide NamesAYear, HasSchoolYear, IsAPath, StartsLikeAPath;
  }

  lemma ConfigProblemIs(configs: seq<Config>, k: nat, p: Problem)
    requires k < |configs|
    ensures p in HeadProblems(configs, k) + MandatoryProblems(configs[k], 5) <==> ConfigFault(configs, k, p)
  {
    HeadProblemIff(configs, k, p);
    MandatoryProblemIff(configs[k], 5, p);
    hide HeadProblems, MandatoryProblems, NamesAYear, IsAPath;
    if p.MissingMandatory? {
      IsCoreIff(p.criterion);
    }
  }

  lemma {:induction false} SeedProblemsAre(configs: seq<Config>, n: nat, p: Problem)
    requires n <= |configs|
    ensures p in SeedProblems(configs, n)
            <==> exists k :: 0 <= k < n && (ConfigFault(configs, k, p)
                                            || exists i :: 0 <= i < |configs[k].rules| && RuleFault(configs[k], i, p))
  {
    hide ConfigFault, RuleFault, HeadProblems, MandatoryProblems, RulesProblems;
    if n > 0 {
      SeedProblemsAre(configs, n - 1, p);
      ConfigProblemIs(configs, n - 1, p);
      RulesProblemIff(configs[n - 1], |configs[n - 1].rules|, p);
    }
  }

  /** Sound and complete: a problem is reported exactly if some configuration, rule or node of the seed has the fault it
      names. */
  lemma SeedProblemIff(configs: seq<Config>, p: Problem)
    ensures p in SeedProblems(configs, |configs|)
            <==> exists k :: 0 <= k < |configs|
                             && (ConfigFault(configs, k, p)
                                 || exists i :: 0 <= i < |configs[k].rules| && RuleFault(configs[k], i, p))
  {
    SeedProblemsAre(configs, |configs|, p);
  }
}
