/** Whether a student may submit at City level: the automatic answer from the confirmed awards of the
    university system, and a manager's verdict kept for as long as the facts it was given on. */
module CityEligibility {
  import opened ReviewTypes
  import opened Text
  import opened Sorting
  import opened Sequences
  import opened TextOrder
  import opened Json

  datatype Recipient = Recipient(studentCode: Option<string>, fullName: string, className: Option<string>)

  datatype Identity = Identity(studentCode: Option<string>, fullName: string, className: Option<string>)

  datatype Application = Application(id: Id, studentId: Id, workspaceId: Id, schoolYear: string)

  datatype Parent = Parent(id: Id, kind: WorkspaceKind)

  datatype Workspace = Workspace(id: Id, kind: WorkspaceKind, parentId: Option<Id>, parent: Option<Parent>)

  datatype Route = UdnPrerequisite | DirectCity

  datatype Status = NotEligible | NeedsVerification | Eligible

  datatype Reason =
    | MissingUniversitySystemAward | MissingIdentityContext | IdentityMatchRequiresVerification
    | AmbiguousUniversitySystemAwardMatch | ManualVerificationApproved | ManualVerificationRejected

  datatype Eligibility = Eligibility(applicationId: Id, schoolYear: string, route: Route, status: Status,
                                     reasons: seq<Reason>)

  datatype Calculation = Calculation(result: Eligibility, basisHash: Option<string>, candidates: seq<Recipient>)

  datatype ContextError = InvalidApplicationContext | UnsupportedWorkspaceHierarchy

  datatype Automatic = Calculated(calculation: Calculation) | Refused(error: ContextError)

  datatype Verdict = Verdict(approved: bool, basisHash: string)

  /** Text normalisation, upper-casing and SHA-256, of which only the last is assumed anything: that it
      tells texts apart. */
  datatype Tools = Tools(normalize: string -> string, upper: string -> string, sha256: string -> string)

  // ---------- Normalised facts ----------

  function NormalizeCode(t: Tools, value: Option<string>): Option<string> {
    if value.None? then None else NonEmpty(t.upper(Trim(value.value)))
  }

  function OrEmpty(value: Option<string>): string { if value.Some? then value.value else "" }

  datatype Normal = Normal(studentCode: Option<string>, fullName: string, className: string)

  function Normalize(t: Tools, r: Recipient): Normal {
    Normal(NormalizeCode(t, r.studentCode), t.normalize(r.fullName), t.normalize(OrEmpty(r.className)))
  }

  function NormalIdentity(t: Tools, i: Identity): Normal {
    Normal(NormalizeCode(t, i.studentCode), t.normalize(i.fullName), t.normalize(OrEmpty(i.className)))
  }

  function Nullable(value: Option<string>): Value { if value.Some? then Value.Text(value.value) else Null }

  function NormalJson(n: Normal): Value {
    Object([Member("studentCode", Nullable(n.studentCode)), Member("fullName", Value.Text(n.fullName)),
            Member("className", Value.Text(n.className))])
  }

  function NormalKey(n: Normal): string { Stringify(NormalJson(n)) }

  function Normalizer(t: Tools): Recipient -> Normal { (r: Recipient) => Normalize(t, r) }

  function SortedRecipients(t: Tools, recipients: seq<Recipient>): seq<Normal> {
    Sort(By(NormalKey), Map(Normalizer(t), recipients))
  }

  function KindName(kind: WorkspaceKind): string {
    match kind
    case CityWorkspace => "CITY"
    case UniversitySystem => "UNIVERSITY_SYSTEM"
    case SchoolWorkspace => "SCHOOL"
  }

  function ParentKind(school: Workspace): Option<string> {
    if school.parent.Some? then Some(KindName(school.parent.value.kind)) else None
  }

  /** What an answer is calculated from. */
  datatype Case = Case(
    application: Application, school: Workspace, university: Id, identity: Identity, recipients: seq<Recipient>)

  function Basis(t: Tools, c: Case): Value {
    var who := NormalIdentity(t, c.identity);
    Object([
      Member("applicationId", Value.Text(c.application.id)),
      Member("schoolYear", Value.Text(c.application.schoolYear)),
      Member("workspaceId", Value.Text(c.application.workspaceId)),
      Member("route", Value.Text("UDN_PREREQUISITE")),
      Member("schoolType", Value.Text(KindName(c.school.kind))),
      Member("parentWorkspaceId", Nullable(c.school.parentId)),
      Member("parentWorkspaceType", Nullable(ParentKind(c.school))),
      Member("universityWorkspaceId", Value.Text(c.university)),
      Member("studentId", Value.Text(c.application.studentId)),
      Member("identity", Object([
        Member("workspaceId", Value.Text(c.application.workspaceId)),
        Member("studentCode", Nullable(who.studentCode)),
        Member("fullName", Value.Text(who.fullName)),
        Member("className", Value.Text(who.className))])),
      Member("recipients", List(Map(NormalJson, SortedRecipients(t, c.recipients))))])
  }

  function BasisHash(t: Tools, c: Case): string { t.sha256(Stringify(Basis(t, c))) }

  // ---------- The automatic answer ----------

  function UdnResult(a: Application, status: Status, reasons: seq<Reason>): Eligibility {
    Eligibility(a.id, a.schoolYear, UdnPrerequisite, status, reasons)
  }

  function UdnEligibility(t: Tools, c: Case): Calculation {
    var hash := Some(BasisHash(t, c));
    var who := NormalIdentity(t, c.identity);
    var identified := who.fullName != "" && who.className != "";
    if who.studentCode.Some? && exists r :: r in c.recipients && NormalizeCode(t, r.studentCode) == who.studentCode then
      Calculation(UdnResult(c.application, Eligible, []), hash, [])
    else
      var matches := if identified then Filter(SamePerson(t, who), c.recipients) else [];
      if |matches| > 1 then
        Calculation(UdnResult(c.application, NeedsVerification, [AmbiguousUniversitySystemAwardMatch]), hash, matches)
      else if |matches| == 1 then
        Calculation(UdnResult(c.application, NeedsVerification, [IdentityMatchRequiresVerification]), hash, matches)
      else if who.studentCode.None? && !identified then
        Calculation(UdnResult(c.application, NotEligible, [MissingIdentityContext]), hash, [])
      else
        Calculation(UdnResult(c.application, NotEligible,
                              [MissingUniversitySystemAward] + if identified then [] else [MissingIdentityContext]),
                  hash, [])
  }

  function SamePerson(t: Tools, who: Normal): Recipient -> bool {
    (r: Recipient) => t.normalize(r.fullName) == who.fullName && t.normalize(OrEmpty(r.className)) == who.className
  }

  /** `recipients` is what the confirmed decisions of the parent university hold for the school. */
  function AutomaticEligibility(
    t: Tools, a: Application, identity: Identity, school: Option<Workspace>, recipients: seq<Recipient>): Automatic
  {
    if school.None? || !school.value.kind.SchoolWorkspace? then Refused(InvalidApplicationContext)
    else if school.value.parentId.None? then
      Calculated(Calculation(Eligibility(a.id, a.schoolYear, DirectCity, Eligible, []), None, []))
    else if school.value.parent.None? || school.value.parent.value.id != school.value.parentId.value
            || !school.value.parent.value.kind.UniversitySystem? then Refused(UnsupportedWorkspaceHierarchy)
    else Calculated(UdnEligibility(t, Case(a, school.value, school.value.parent.value.id, identity, recipients)))
  }

  // ---------- The manager's verdict ----------

  function ApplyVerdict(calculation: Calculation, verdict: Option<Verdict>): Eligibility {
    var r := calculation.result;
    if !r.status.NeedsVerification? then r
    else if verdict.None? || !Truthy(calculation.basisHash) || Some(verdict.value.basisHash) != calculation.basisHash
      then r
    else if verdict.value.approved then r.(status := Eligible, reasons := [ManualVerificationApproved])
    else r.(status := NotEligible, reasons := [ManualVerificationRejected])
  }

  /** A verdict is stored only on a calculation that needs one and has a basis. */
  function Verify(calculation: Calculation, approved: bool): Option<Verdict> {
    if !calculation.result.status.NeedsVerification? || !Truthy(calculation.basisHash) then None
    else Some(Verdict(approved, calculation.basisHash.value))
  }

  // ---------- The basis is canonical ----------

  lemma NormalJsonInjective(m: Normal, n: Normal)
    ensures NormalJson(m) == NormalJson(n) <==> m == n
  {
    if NormalJson(m) == NormalJson(n) {
      var a, b := NormalJson(m).members, NormalJson(n).members;
      assert a[0] == b[0] && a[1] == b[1] && a[2] == b[2];
    }
  }

  lemma NormalKeyInjective()
    ensures Injective(NormalKey)
  {
    forall m, n | NormalKey(m) == NormalKey(n) ensures m == n {
      StringifyInjective(NormalJson(m), NormalJson(n));
      NormalJsonInjective(m, n);
    }
  }

  /** Everything the verdict rests on: the application, where it belongs, the normalised student, and how
      many times each normalised recipient appears. */
  datatype Facts = Facts(
    application: Application, schoolKind: WorkspaceKind, parentId: Option<Id>, parentKind: Option<WorkspaceKind>,
    university: Id, student: Normal, recipients: multiset<Normal>)

  function FactsOf(t: Tools, c: Case): Facts {
    Facts(c.application, c.school.kind, c.school.parentId,
          if c.school.parent.Some? then Some(c.school.parent.value.kind) else None,
          c.university, NormalIdentity(t, c.identity), multiset(Map(Normalizer(t), c.recipients)))
  }

  lemma SameRecipientsIff(t: Tools, a: seq<Recipient>, b: seq<Recipient>)
    ensures Map(NormalJson, SortedRecipients(t, a)) == Map(NormalJson, SortedRecipients(t, b))
            <==> multiset(Map(Normalizer(t), a)) == multiset(Map(Normalizer(t), b))
  {
    var x, y := SortedRecipients(t, a), SortedRecipients(t, b);
    NormalKeyInjective();
    ByIsOrdering(NormalKey);
    ByTellsApart(NormalKey, Map(Normalizer(t), a));
    SortIgnoresOrder(By(NormalKey), Map(Normalizer(t), a), Map(Normalizer(t), b));
    if Map(NormalJson, x) == Map(NormalJson, y) {
      assert |x| == |Map(NormalJson, x)| == |Map(NormalJson, y)| == |y|;
      forall i | 0 <= i < |x| ensures x[i] == y[i] {
        assert NormalJson(x[i]) == Map(NormalJson, x)[i] == Map(NormalJson, y)[i] == NormalJson(y[i]);
        NormalJsonInjective(x[i], y[i]);
      }
      assert x == y;
    }
  }

  lemma SameMembers(t: Tools, a: Case, b: Case)
    requires Basis(t, a) == Basis(t, b)
    ensures a.application == b.application && a.university == b.university
    ensures KindName(a.school.kind) == KindName(b.school.kind)
    ensures a.school.parentId == b.school.parentId && ParentKind(a.school) == ParentKind(b.school)
    ensures NormalIdentity(t, a.identity) == NormalIdentity(t, b.identity)
    ensures Map(NormalJson, SortedRecipients(t, a.recipients)) == Map(NormalJson, SortedRecipients(t, b.recipients))
  {
    hide SortedRecipients, NormalIdentity, KindName, ParentKind;
    var m, n := Basis(t, a).members, Basis(t, b).members;
    assert m[0] == n[0] && m[1] == n[1] && m[2] == n[2] && m[4] == n[4] && m[5] == n[5] && m[6] == n[6];
    assert m[7] == n[7] && m[8] == n[8] && m[9] == n[9] && m[10] == n[10];
    var i, j := m[9].value.members, n[9].value.members;
    assert i[1] == j[1] && i[2] == j[2] && i[3] == j[3];
  }

  lemma KindNamesDiffer(a: WorkspaceKind, b: WorkspaceKind)
    ensures KindName(a) == KindName(b) <==> a == b
  {
    assert "CITY"[0] == 'C' && "UNIVERSITY_SYSTEM"[0] == 'U' && "SCHOOL"[0] == 'S';
  }

  /** Two cases have one basis exactly if the normalised facts are the same, in whatever order the
      recipients were read. */
  lemma BasisEqualIff(t: Tools, a: Case, b: Case)
    ensures Basis(t, a) == Basis(t, b) <==> FactsOf(t, a) == FactsOf(t, b)
  {
    hide SortedRecipients, NormalIdentity, KindName;
    SameRecipientsIff(t, a.recipients, b.recipients);
    KindNamesDiffer(a.school.kind, b.school.kind);
    if a.school.parent.Some? && b.school.parent.Some? {
      KindNamesDiffer(a.school.parent.value.kind, b.school.parent.value.kind);
    }
    if Basis(t, a) == Basis(t, b) {
      SameMembers(t, a, b);
    }
  }

  /** With a hash that tells texts apart, so does the stored basis hash. */
  lemma BasisHashEqualIff(t: Tools, a: Case, b: Case)
    requires Injective(t.sha256)
    ensures BasisHash(t, a) == BasisHash(t, b) <==> FactsOf(t, a) == FactsOf(t, b)
  {
    StringifyInjective(Basis(t, a), Basis(t, b));
    BasisEqualIff(t, a, b);
  }

  lemma BasisIgnoresOrder(t: Tools, c: Case, recipients: seq<Recipient>)
    requires multiset(recipients) == multiset(c.recipients)
    ensures BasisHash(t, c.(recipients := recipients)) == BasisHash(t, c)
  {
    MapAnyOrder(Normalizer(t), recipients, c.recipients);
    BasisEqualIff(t, c.(recipients := recipients), c);
  }

  // ---------- The basis is sufficient ----------

  function HasCode(who: Normal): Normal -> bool {
    (n: Normal) => n.studentCode.Some? && n.studentCode == who.studentCode
  }

  function IsNamed(who: Normal): Normal -> bool {
    (n: Normal) => n.fullName == who.fullName && n.className == who.className
  }

  predicate Identified(who: Normal) { who.fullName != "" && who.className != "" }

  /** The automatic answer as a function of the normalised facts alone. */
  function Answer(who: Normal, codeMatches: nat, nameMatches: nat): (Status, seq<Reason>) {
    if codeMatches > 0 then (Eligible, [])
    else if Identified(who) && nameMatches > 1 then (NeedsVerification, [AmbiguousUniversitySystemAwardMatch])
    else if Identified(who) && nameMatches == 1 then (NeedsVerification, [IdentityMatchRequiresVerification])
    else if who.studentCode.None? && !Identified(who) then (NotEligible, [MissingIdentityContext])
    else (NotEligible, [MissingUniversitySystemAward] + if Identified(who) then [] else [MissingIdentityContext])
  }

  lemma CodeMatches(t: Tools, c: Case)
    ensures var who := NormalIdentity(t, c.identity);
            Count(HasCode(who), Map(Normalizer(t), c.recipients)) > 0
            <==> who.studentCode.Some?
                 && exists r :: r in c.recipients && NormalizeCode(t, r.studentCode) == who.studentCode
  {
    hide NormalizeCode;
    var who, normal := NormalIdentity(t, c.identity), Map(Normalizer(t), c.recipients);
    CountFinds(HasCode(who), normal);
    if n :| n in normal && HasCode(who)(n) {
      var i :| 0 <= i < |normal| && normal[i] == n;
      assert c.recipients[i] in c.recipients;
    }
    if r :| r in c.recipients && NormalizeCode(t, r.studentCode) == who.studentCode && who.studentCode.Some? {
      var i :| 0 <= i < |c.recipients| && c.recipients[i] == r;
      assert normal[i] in normal && HasCode(who)(normal[i]);
    }
  }

  lemma {:induction false} NameMatches(t: Tools, who: Normal, recipients: seq<Recipient>)
    ensures Count(SamePerson(t, who), recipients) == Count(IsNamed(who), Map(Normalizer(t), recipients))
  {
    if recipients != [] {
      NameMatches(t, who, recipients[1..]);
      assert Map(Normalizer(t), recipients)[1..] == Map(Normalizer(t), recipients[1..]);
    }
  }

  /** What is answered depends on the facts only through two counts. */
  lemma AnswerFromCounts(t: Tools, c: Case)
    ensures var who, normal := NormalIdentity(t, c.identity), Map(Normalizer(t), c.recipients);
            var (status, reasons) := Answer(who, Count(HasCode(who), normal), Count(IsNamed(who), normal));
            UdnEligibility(t, c).result == UdnResult(c.application, status, reasons)
  {
    hide NormalizeCode, BasisHash, Map;
    var who := NormalIdentity(t, c.identity);
    CodeMatches(t, c);
    NameMatches(t, who, c.recipients);
  }

  predicate CodeHeld(t: Tools, who: Normal, recipients: seq<Recipient>) {
    who.studentCode.Some? && exists r :: r in recipients && NormalizeCode(t, r.studentCode) == who.studentCode
  }

  /** Which contexts are refused, and which are eligible as such, without looking at any recipient. */
  lemma ContextIff(t: Tools, a: Application, identity: Identity, school: Option<Workspace>, recipients: seq<Recipient>)
    ensures var answer := AutomaticEligibility(t, a, identity, school, recipients);
            var ofSchool := school.Some? && school.value.kind.SchoolWorkspace?;
            && (answer == Refused(InvalidApplicationContext) <==> !ofSchool)
            && (answer == Refused(UnsupportedWorkspaceHierarchy)
                <==> ofSchool && school.value.parentId.Some?
                     && school.value.parent != Some(Parent(school.value.parentId.value, UniversitySystem)))
            && (answer.Calculated? ==>
                  && (answer.calculation.result.route.DirectCity? <==> school.value.parentId.None?)
                  && (answer.calculation.result.route.DirectCity? ==>
                        answer.calculation.result.status.Eligible? && answer.calculation.basisHash.None?))
  {
    hide BasisHash, SamePerson, NormalizeCode;
  }

  /** The recipients with the student's name and class, for a student who has both. */
  predicate IsSame(t: Tools, c: Case, i: nat) {
    && i < |c.recipients| && Identified(NormalIdentity(t, c.identity))
    && SamePerson(t, NormalIdentity(t, c.identity))(c.recipients[i])
  }

  /** Under a university, by the recipients of its confirmed decisions: who is eligible, needs verification or is not
      eligible, and every reason given for it. */
  lemma AutomaticStatusIff(t: Tools, c: Case)
    ensures var r, who := UdnEligibility(t, c).result, NormalIdentity(t, c.identity);
            && (r.status.Eligible? <==> CodeHeld(t, who, c.recipients))
            && (r.status.NeedsVerification? <==> !CodeHeld(t, who, c.recipients) && exists i :: IsSame(t, c, i))
            && (AmbiguousUniversitySystemAwardMatch in r.reasons
                <==> r.status.NeedsVerification? && exists i, j :: i < j && IsSame(t, c, i) && IsSame(t, c, j))
            && (IdentityMatchRequiresVerification in r.reasons
                <==> r.status.NeedsVerification? && !exists i, j :: i < j && IsSame(t, c, i) && IsSame(t, c, j))
            && (MissingIdentityContext in r.reasons <==> r.status.NotEligible? && !Identified(who))
            && (MissingUniversitySystemAward in r.reasons
                <==> r.status.NotEligible? && (who.studentCode.Some? || Identified(who)))
            && (r.reasons == [] <==> r.status.Eligible?)
  {
    var who := NormalIdentity(t, c.identity);
    var p := SamePerson(t, who);
    CountFinds(p, c.recipients);
    CountFindsTwo(p, c.recipients);
    SameIff(t, c);
    hide NormalizeCode, BasisHash, SamePerson, IsSame, Count;
  }

  lemma SameIff(t: Tools, c: Case)
    ensures var who, all := NormalIdentity(t, c.identity), c.recipients;
            var p := SamePerson(t, who);
            && ((exists i :: IsSame(t, c, i)) <==> Identified(who) && exists r :: r in all && p(r))
            && ((exists i, j :: i < j && IsSame(t, c, i) && IsSame(t, c, j))
                <==> Identified(who) && exists i, j :: 0 <= i < j < |all| && p(all[i]) && p(all[j]))
  {
    hide SamePerson;
    var who := NormalIdentity(t, c.identity);
    if r :| r in c.recipients && SamePerson(t, who)(r) {
      var i: nat :| i < |c.recipients| && c.recipients[i] == r;
      assert Identified(who) ==> IsSame(t, c, i);
    }
    var p := SamePerson(t, who);
    if i, j :| 0 <= i < j < |c.recipients| && p(c.recipients[i]) && p(c.recipients[j]) {
      assert Identified(who) ==> IsSame(t, c, i) && IsSame(t, c, j);
    }
  }

  lemma SameFactsSameAnswer(t: Tools, a: Case, b: Case)
    requires FactsOf(t, a) == FactsOf(t, b)
    ensures UdnEligibility(t, a).result == UdnEligibility(t, b).result
  {
    hide UdnEligibility, Answer, Count, Map;
    var who := NormalIdentity(t, a.identity);
    CountAnyOrder(HasCode(who), Map(Normalizer(t), a.recipients), Map(Normalizer(t), b.recipients));
    CountAnyOrder(IsNamed(who), Map(Normalizer(t), a.recipients), Map(Normalizer(t), b.recipients));
    AnswerFromCounts(t, a);
    AnswerFromCounts(t, b);
  }

  // ---------- The verdict ----------

  /** A verdict given on one reading of the facts decides a later case exactly if the normalised facts are
      still the same; otherwise the automatic answer stands. */
  lemma VerdictAppliesIff(t: Tools, seen: Case, now: Case, approved: bool)
    requires Injective(t.sha256) && BasisHash(t, seen) != "" && BasisHash(t, now) != ""
    requires UdnEligibility(t, seen).result.status.NeedsVerification?
    ensures Verify(UdnEligibility(t, seen), approved).Some?
    ensures var answer := ApplyVerdict(UdnEligibility(t, now), Verify(UdnEligibility(t, seen), approved));
            && (answer != UdnEligibility(t, now).result <==> FactsOf(t, seen) == FactsOf(t, now))
            && (FactsOf(t, seen) == FactsOf(t, now) ==>
                  answer.status == (if approved then Eligible else NotEligible)
                  && answer.reasons == [if approved then ManualVerificationApproved else ManualVerificationRejected])
  {
    hide BasisHash, FactsOf;
    HashIsTheBasis(t, seen);
    HashIsTheBasis(t, now);
    BasisHashEqualIff(t, seen, now);
    if FactsOf(t, seen) == FactsOf(t, now) {
      SameFactsSameAnswer(t, seen, now);
    }
    hide UdnEligibility;
  }

  lemma HashIsTheBasis(t: Tools, c: Case)
    ensures UdnEligibility(t, c).basisHash == Some(BasisHash(t, c))
  {
  }

  // ---------- More confirmed recipients ----------

  function Rank(status: Status): nat {
    match status
    case NotEligible => 0
    case NeedsVerification => 1
    case Eligible => 2
  }

  lemma AnswerIsMonotone(who: Normal, codes: nat, names: nat, moreCodes: nat, moreNames: nat)
    requires codes <= moreCodes && names <= moreNames
    ensures Rank(Answer(who, codes, names).0) <= Rank(Answer(who, moreCodes, moreNames).0)
  {
  }

  /** Confirming further recipients never lowers the automatic answer. */
  lemma MoreRecipientsNeverLower(t: Tools, c: Case, more: seq<Recipient>)
    ensures Rank(UdnEligibility(t, c).result.status)
            <= Rank(UdnEligibility(t, c.(recipients := c.recipients + more)).result.status)
  {
    hide UdnEligibility, Answer, Count, Map;
    var who, after := NormalIdentity(t, c.identity), c.(recipients := c.recipients + more);
    var x, y := Map(Normalizer(t), c.recipients), Map(Normalizer(t), c.recipients + more);
    assert y == x + Map(Normalizer(t), more);
    CountOfMore(HasCode(who), x, y);
    CountOfMore(IsNamed(who), x, y);
    AnswerFromCounts(t, c);
    AnswerFromCounts(t, after);
    AnswerIsMonotone(who, Count(HasCode(who), x), Count(IsNamed(who), x), Count(HasCode(who), y),
                     Count(IsNamed(who), y));
  }

  /** They do retire a verdict: after any recipient is added the automatic answer stands alone. */
  lemma MoreRecipientsRetireTheVerdict(t: Tools, c: Case, more: seq<Recipient>, approved: bool)
    requires Injective(t.sha256) && more != []
    ensures var after := UdnEligibility(t, c.(recipients := c.recipients + more));
            ApplyVerdict(after, Verify(UdnEligibility(t, c), approved)) == after.result
  {
    hide UdnEligibility;
    var after := c.(recipients := c.recipients + more);
    HashIsTheBasis(t, c);
    HashIsTheBasis(t, after);
    BasisHashEqualIff(t, c, after);
    assert |multiset(Map(Normalizer(t), after.recipients))| == |after.recipients| > |c.recipients|
           == |multiset(Map(Normalizer(t), c.recipients))|;
  }
}
