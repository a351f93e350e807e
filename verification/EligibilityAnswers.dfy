/** What the automatic answer says about a student and the recipients it is given, and when a verdict stands in. */
module EligibilityAnswers {
  import opened ReviewTypes
  import opened Text
  import opened Sequences
  import opened TextOrder
  import opened CityEligibility

  /** A school of a university system, with its parent as it is on record. */
  predicate UnderUniversity(w: Workspace) {
    w.kind == SchoolWorkspace && w.parentId.Some? && w.parent == Some(Parent(w.parentId.value, UniversitySystem))
  }

  // ---------- Who is meant ----------

  /** Trimmed and in upper case, two student codes are the same and there is one. */
  predicate SameCode(t: Tools, a: Option<string>, b: Option<string>) {
    a.Some? && b.Some? && t.upper(Trim(a.value)) == t.upper(Trim(b.value)) && t.upper(Trim(a.value)) != ""
  }

  predicate NoCode(t: Tools, a: Option<string>) { a == None || t.upper(Trim(a.value)) == "" }

  function Written(a: Option<string>): string {
    match a
    case Some(text) => text
    case None => ""
  }

  predicate HasNameAndClass(t: Tools, i: Identity) {
    t.normalize(i.fullName) != "" && t.normalize(Written(i.className)) != ""
  }

  /** The recipient has the normalised name and class of a student who has both. */
  predicate SameNameAndClass(t: Tools, r: Recipient, i: Identity) {
    && HasNameAndClass(t, i)
    && t.normalize(r.fullName) == t.normalize(i.fullName)
    && t.normalize(Written(r.className)) == t.normalize(Written(i.className))
  }

  /** The recipients tell the student by the code. */
  predicate HoldsCode(t: Tools, recipients: seq<Recipient>, i: Identity) {
    exists r :: r in recipients && SameCode(t, r.studentCode, i.studentCode)
  }

  predicate HoldsName(t: Tools, recipients: seq<Recipient>, i: Identity) {
    exists r :: r in recipients && SameNameAndClass(t, r, i)
  }

  predicate HoldsNameTwice(t: Tools, recipients: seq<Recipient>, i: Identity) {
    exists j, k :: 0 <= j < k < |recipients|
                   && SameNameAndClass(t, recipients[j], i) && SameNameAndClass(t, recipients[k], i)
  }

  lemma CodeHeldIff(t: Tools, recipients: seq<Recipient>, i: Identity)
    ensures CodeHeld(t, NormalIdentity(t, i), recipients) <==> HoldsCode(t, recipients, i)
  {
    assert forall r :: r in recipients ==>
      (SameCode(t, r.studentCode, i.studentCode)
       <==> NormalizeCode(t, i.studentCode).Some?
            && NormalizeCode(t, r.studentCode) == NormalizeCode(t, i.studentCode));
  }

  lemma IsSameIff(t: Tools, c: Case, k: nat)
    ensures IsSame(t, c, k) <==> k < |c.recipients| && SameNameAndClass(t, c.recipients[k], c.identity)
  {
  }

  lemma NamesHeldIff(t: Tools, c: Case)
    ensures (exists k :: IsSame(t, c, k)) <==> HoldsName(t, c.recipients, c.identity)
    ensures (exists j, k :: j < k && IsSame(t, c, j) && IsSame(t, c, k))
            <==> HoldsNameTwice(t, c.recipients, c.identity)
  {
    hide IsSame, SameNameAndClass;
    forall k: nat ensures IsSame(t, c, k) <==> k < |c.recipients| && SameNameAndClass(t, c.recipients[k], c.identity) {
      IsSameIff(t, c, k);
    }
    if r :| r in c.recipients && SameNameAndClass(t, r, c.identity) {
      var k: nat :| k < |c.recipients| && c.recipients[k] == r;
      assert IsSame(t, c, k);
    }
    if j, k :| 0 <= j < k < |c.recipients| && SameNameAndClass(t, c.recipients[j], c.identity)
               && SameNameAndClass(t, c.recipients[k], c.identity) {
      assert IsSame(t, c, j) && IsSame(t, c, k);
    }
  }

  // ---------- The answer ----------

  /** Which contexts get an answer at all, and which an answer that asks for no recipient. */
  lemma AnsweredIff(t: Tools, a: Application, identity: Identity, school: Option<Workspace>, recipients: seq<Recipient>)
    ensures var answer := AutomaticEligibility(t, a, identity, school, recipients);
            && (answer.Calculated? <==> school.Some? && school.value.kind == SchoolWorkspace
                                        && (school.value.parentId == None || UnderUniversity(school.value)))
            && (answer.Calculated? && school.value.parentId == None ==>
                  answer.calculation
                  == Calculation(Eligibility(a.id, a.schoolYear, DirectCity, Eligible, []), None, []))
  {
    hide UdnEligibility;
  }

  lemma UnderUniversityIs(t: Tools, a: Application, identity: Identity, school: Workspace, recipients: seq<Recipient>)
    requires UnderUniversity(school)
    ensures AutomaticEligibility(t, a, identity, Some(school), recipients)
            == Calculated(UdnEligibility(t, Case(a, school, school.parentId.value, identity, recipients)))
  {
    hide UdnEligibility;
  }

  /** Under a university the answer is about the application it was asked for. It is eligible exactly if a recipient
      has the student's code; it needs verification exactly if none has, but one has name and class; and the reasons
      say exactly what is missing or ambiguous. */
  lemma AutomaticAnswerIff(t: Tools, a: Application, identity: Identity, school: Workspace, recipients: seq<Recipient>)
    requires UnderUniversity(school)
    ensures AutomaticEligibility(t, a, identity, Some(school), recipients).Calculated?
    ensures var r := AutomaticEligibility(t, a, identity, Some(school), recipients).calculation.result;
            var code, name := HoldsCode(t, recipients, identity), HoldsName(t, recipients, identity);
            && r.applicationId == a.id && r.schoolYear == a.schoolYear && r.route == UdnPrerequisite
            && (r.status == Eligible <==> code) && (r.status == NeedsVerification <==> !code && name)
            && r.reasons == if code then []
                            else if name && HoldsNameTwice(t, recipients, identity)
                            then [AmbiguousUniversitySystemAwardMatch]
                            else if name then [IdentityMatchRequiresVerification]
                            else if HasNameAndClass(t, identity) then [MissingUniversitySystemAward]
                            else if NoCode(t, identity.studentCode) then [MissingIdentityContext]
                            else [MissingUniversitySystemAward, MissingIdentityContext]
  {
    var c := Case(a, school, school.parentId.value, identity, recipients);
    UnderUniversityIs(t, a, identity, school, recipients);
    AutomaticStatusIff(t, c);
    ReasonsByStatus(t, c);
    CodeHeldIff(t, recipients, identity);
    NamesHeldIff(t, c);
    hide UdnEligibility, AutomaticEligibility, CodeHeld, HoldsName, HoldsNameTwice, HoldsCode, IsSame;
  }

  /** There is one reason, or two in a fixed order. */
  lemma ReasonsByStatus(t: Tools, c: Case)
    ensures var r := UdnEligibility(t, c).result;
            && r.applicationId == c.application.id && r.schoolYear == c.application.schoolYear
            && r.route == UdnPrerequisite
            && (r.status.NeedsVerification? ==> |r.reasons| == 1)
            && (r.status.NotEligible? ==>
                  || r.reasons == [MissingIdentityContext] || r.reasons == [MissingUniversitySystemAward]
                  || r.reasons == [MissingUniversitySystemAward, MissingIdentityContext])
  {
    assert [MissingUniversitySystemAward] + [] == [MissingUniversitySystemAward];
    hide BasisHash, SamePerson, NormalizeCode, Filter;
  }

  /** A manager is shown exactly the recipients with the student's name and class, and none unless asked. */
  lemma CandidatesAre(t: Tools, a: Application, identity: Identity, school: Workspace, recipients: seq<Recipient>)
    requires UnderUniversity(school)
    ensures var answer := AutomaticEligibility(t, a, identity, Some(school), recipients).calculation;
            && (!answer.result.status.NeedsVerification? ==> answer.candidates == [])
            && (answer.result.status.NeedsVerification? ==>
                  forall r :: r in answer.candidates <==> r in recipients && SameNameAndClass(t, r, identity))
  {
    UnderUniversityIs(t, a, identity, school, recipients);
    var who := NormalIdentity(t, identity);
    InFilter(SamePerson(t, who), recipients);
    hide BasisHash, NormalizeCode;
  }

  // ---------- The basis of a verdict ----------

  /** What distinguishes two recipients in the basis: code, name and class as they are normalised. */
  lemma SameFormIff(t: Tools, r: Recipient, s: Recipient)
    ensures Normalize(t, r) == Normalize(t, s)
            <==>
            && (SameCode(t, r.studentCode, s.studentCode)
                || (NoCode(t, r.studentCode) && NoCode(t, s.studentCode)))
            && t.normalize(r.fullName) == t.normalize(s.fullName)
            && t.normalize(Written(r.className)) == t.normalize(Written(s.className))
  {
  }

  /** And two students. */
  lemma SameIdentityIff(t: Tools, i: Identity, j: Identity)
    ensures NormalIdentity(t, i) == NormalIdentity(t, j)
            <==>
            && (SameCode(t, i.studentCode, j.studentCode) || (NoCode(t, i.studentCode) && NoCode(t, j.studentCode)))
            && t.normalize(i.fullName) == t.normalize(j.fullName)
            && t.normalize(Written(i.className)) == t.normalize(Written(j.className))
  {
  }

  /** What an answer is asked about. */
  datatype Question = Question(application: Application, identity: Identity, school: Workspace,
                               recipients: seq<Recipient>)

  function AnswerTo(t: Tools, q: Question): Automatic {
    AutomaticEligibility(t, q.application, q.identity, Some(q.school), q.recipients)
  }

  /** The application, the university, and the normalised student and recipients are the same. */
  predicate SameFacts(t: Tools, p: Question, q: Question) {
    && p.application == q.application && p.school.parentId == q.school.parentId
    && NormalIdentity(t, p.identity) == NormalIdentity(t, q.identity)
    && multiset(Map(Normalizer(t), p.recipients)) == multiset(Map(Normalizer(t), q.recipients))
  }

  /** Two answers under a university have one basis exactly if the facts are the same, recipients included. */
  lemma AnswersShareBasisIff(t: Tools, p: Question, q: Question)
    requires Injective(t.sha256) && UnderUniversity(p.school) && UnderUniversity(q.school)
    ensures AnswerTo(t, p).Calculated? && AnswerTo(t, q).Calculated?
    ensures AnswerTo(t, p).calculation.basisHash.Some? && AnswerTo(t, q).calculation.basisHash.Some?
    ensures AnswerTo(t, p).calculation.basisHash == AnswerTo(t, q).calculation.basisHash <==> SameFacts(t, p, q)
  {
    hide UdnEligibility, BasisHash, NormalIdentity, Map, AutomaticEligibility;
    UnderUniversityIs(t, p.application, p.identity, p.school, p.recipients);
    UnderUniversityIs(t, q.application, q.identity, q.school, q.recipients);
    var c := Case(p.application, p.school, p.school.parentId.value, p.identity, p.recipients);
    var d := Case(q.application, q.school, q.school.parentId.value, q.identity, q.recipients);
    HashIsTheBasis(t, c);
    HashIsTheBasis(t, d);
    BasisHashEqualIff(t, c, d);
  }

  /** A verdict can be given exactly on an answer that needs one. It decides a later answer exactly if that rests on the
      same facts, recipients included; otherwise the automatic answer stands. */
  lemma VerdictDecidesIff(t: Tools, seen: Question, now: Question, approved: bool)
    requires Injective(t.sha256) && UnderUniversity(seen.school) && UnderUniversity(now.school)
    requires AnswerTo(t, seen).calculation.basisHash != Some("") && AnswerTo(t, now).calculation.basisHash != Some("")
    ensures var given := Verify(AnswerTo(t, seen).calculation, approved);
            && (given.Some? <==> AnswerTo(t, seen).calculation.result.status == NeedsVerification)
            && (given.Some? ==>
                  var automatic := AnswerTo(t, now).calculation;
                  ApplyVerdict(automatic, given)
                  == if SameFacts(t, seen, now)
                     then automatic.result.(
                            status := if approved then Eligible else NotEligible,
                            reasons := [if approved then ManualVerificationApproved else ManualVerificationRejected])
                     else automatic.result)
  {
    hide UdnEligibility, BasisHash, NormalIdentity, Map, AutomaticEligibility, FactsOf;
    AnswersShareBasisIff(t, seen, now);
    if SameFacts(t, seen, now) {
      SameFactsSameAnswerTo(t, seen, now);
    }
  }

  lemma SameFactsSameAnswerTo(t: Tools, p: Question, q: Question)
    requires UnderUniversity(p.school) && UnderUniversity(q.school) && SameFacts(t, p, q)
    ensures AnswerTo(t, p).calculation.result == AnswerTo(t, q).calculation.result
  {
    hide UdnEligibility, NormalIdentity, Map, AutomaticEligibility;
    UnderUniversityIs(t, p.application, p.identity, p.school, p.recipients);
    UnderUniversityIs(t, q.application, q.identity, q.school, q.recipients);
    SameFactsSameAnswer(t, Case(p.application, p.school, p.school.parentId.value, p.identity, p.recipients),
                        Case(q.application, q.school, q.school.parentId.value, q.identity, q.recipients));
  }

  /** Without a verdict the automatic answer stands, whatever it is. */
  lemma NoVerdictNoChange(calculation: Calculation)
    ensures ApplyVerdict(calculation, None) == calculation.result
  {
  }

  /** Further recipients, or the same in another order, never lower an automatic answer. */
  lemma MoreNeverLower(t: Tools, a: Application, identity: Identity, school: Option<Workspace>,
                       recipients: seq<Recipient>, more: seq<Recipient>)
    requires multiset(recipients) <= multiset(more)
    requires AutomaticEligibility(t, a, identity, school, recipients).Calculated?
    ensures AutomaticEligibility(t, a, identity, school, more).Calculated?
    ensures Rank(AutomaticEligibility(t, a, identity, school, recipients).calculation.result.status)
            <= Rank(AutomaticEligibility(t, a, identity, school, more).calculation.result.status)
  {
    AnsweredIff(t, a, identity, school, recipients);
    AnsweredIff(t, a, identity, school, more);
    if school.value.parentId.Some? {
      AutomaticAnswerIff(t, a, identity, school.value, recipients);
      AutomaticAnswerIff(t, a, identity, school.value, more);
      hide AutomaticEligibility, SameCode, SameNameAndClass, HoldsNameTwice;
      assert forall r :: r in recipients ==> r in more by {
        forall r | r in recipients ensures r in more {
          assert r in multiset(recipients);
        }
      }
    }
  }
}
