/** What the university's award decisions mean for the eligibility of the students they name. */
module CityAwards {
  import opened ReviewTypes
  import opened Sequences
  import opened RosterLogic
  import opened StoredCorrections
  import opened RosterWorkflow
  import opened EligibilityAnswers
  import CE = CityEligibility

  function OfSchool(school: Id): Recipient -> bool { (r: Recipient) => r.institutionId == Some(school) }

  function ToAward(r: Recipient): CE.Recipient { CE.Recipient(r.studentCode, CE.OrEmpty(r.fullName), r.className) }

  /** The recipients one decision holds for a school, once it is confirmed and while it is not archived. */
  function HeldBy(d: DecisionState, schoolYear: string, school: Id): seq<CE.Recipient> {
    if d.status.ConfirmedDecision? && d.details.schoolYear == schoolYear then
      Map(ToAward, Filter(OfSchool(school), d.recipients))
    else []
  }

  /** What eligibility looks up: the recipients of all of the issuer's decisions of that level. */
  function Held(decisions: seq<DecisionState>, schoolYear: string, school: Id): seq<CE.Recipient> {
    if decisions == [] then [] else HeldBy(decisions[0], schoolYear, school) + Held(decisions[1..], schoolYear, school)
  }

  lemma {:induction false} HeldAround(decisions: seq<DecisionState>, k: nat, d: DecisionState, schoolYear: string,
                                      school: Id)
    requires k < |decisions|
    ensures multiset(Held(decisions[k := d], schoolYear, school)) + multiset(HeldBy(decisions[k], schoolYear, school))
            == multiset(Held(decisions, schoolYear, school)) + multiset(HeldBy(d, schoolYear, school))
  {
    hide HeldBy;
    if k == 0 {
      assert decisions[k := d][1..] == decisions[1..];
    } else {
      HeldAround(decisions[1..], k - 1, d, schoolYear, school);
      var changed := decisions[k := d];
      assert changed[0] == decisions[0] && changed[1..] == decisions[1..][k - 1 := d];
      var own := multiset(HeldBy(decisions[0], schoolYear, school));
      assert multiset(Held(changed, schoolYear, school)) == own + multiset(Held(changed[1..], schoolYear, school));
      assert multiset(Held(decisions, schoolYear, school)) == own + multiset(Held(decisions[1..], schoolYear, school));
      AddToBoth(own, multiset(Held(changed[1..], schoolYear, school)),
                multiset(HeldBy(decisions[k], schoolYear, school)),
                multiset(Held(decisions[1..], schoolYear, school)), multiset(HeldBy(d, schoolYear, school)));
    }
  }

  /** Only confirming, archiving and restoring a decision change what it holds for anyone. */
  lemma OtherRequestsKeepAwards(e: Event, d: DecisionState, schoolYear: string, school: Id)
    requires Consistent(d) && !e.EvConfirm? && !e.EvArchive? && !e.EvUnarchive?
    ensures HeldBy(Perform(e, d).state, schoolYear, school) == HeldBy(d, schoolYear, school)
  {
    hide BuildPreview, ParseCorrections, StoreCorrections, Filter, Map;
  }

  /** Confirming a decision never lowers anyone's automatic answer. */
  lemma ConfirmingNeverLowers(
    t: CE.Tools, a: CE.Application, identity: CE.Identity, school: CE.Workspace, decisions: seq<DecisionState>, k: nat,
    who: Id, now: Time, ctx: Context)
    requires k < |decisions| && Confirm(who, now, ctx, decisions[k]).error.None?
    requires CE.AutomaticEligibility(t, a, identity, Some(school), Held(decisions, a.schoolYear, school.id)).Calculated?
    ensures var after := Held(decisions[k := Confirm(who, now, ctx, decisions[k]).state], a.schoolYear, school.id);
            && CE.AutomaticEligibility(t, a, identity, Some(school), after).Calculated?
            && CE.Rank(CE.AutomaticEligibility(t, a, identity, Some(school), Held(decisions, a.schoolYear, school.id))
                       .calculation.result.status)
               <= CE.Rank(CE.AutomaticEligibility(t, a, identity, Some(school), after).calculation.result.status)
  {
    hide BuildPreview, CE.AutomaticEligibility;
    var confirmed := Confirm(who, now, ctx, decisions[k]).state;
    HeldAround(decisions, k, confirmed, a.schoolYear, school.id);
    assert HeldBy(decisions[k], a.schoolYear, school.id) == [];
    assert multiset(Held(decisions[k := confirmed], a.schoolYear, school.id))
        == multiset(Held(decisions, a.schoolYear, school.id)) + multiset(HeldBy(confirmed, a.schoolYear, school.id));
    MoreNeverLower(t, a, identity, Some(school), Held(decisions, a.schoolYear, school.id),
                   Held(decisions[k := confirmed], a.schoolYear, school.id));
  }

  // ---------- What a confirmed row is worth ----------

  /** What eligibility looks up is exactly the recipients of confirmed decisions of the year at the school. */
  lemma {:induction false} HeldIff(decisions: seq<DecisionState>, year: string, school: Id, a: CE.Recipient)
    ensures a in Held(decisions, year, school)
            <==> exists k, n :: 0 <= k < |decisions| && 0 <= n < |decisions[k].recipients|
                                && IsHeldAt(decisions[k], n, year, school, a)
  {
    if decisions != [] {
      var rest := decisions[1..];
      HeldIff(rest, year, school, a);
      HeldByIff(decisions[0], year, school, a);
      hide HeldBy, IsHeldAt;
      if k, n :| 0 <= k < |decisions| && 0 <= n < |decisions[k].recipients|
                 && IsHeldAt(decisions[k], n, year, school, a) {
        assert k > 0 ==> rest[k - 1] == decisions[k];
      }
      if k, n :| 0 <= k < |rest| && 0 <= n < |rest[k].recipients| && IsHeldAt(rest[k], n, year, school, a) {
        assert decisions[k + 1] == rest[k];
      }
    }
  }

  /** Recipient n of a confirmed decision, with code, name and class as they stand there. */
  predicate IsHeldAt(d: DecisionState, n: nat, year: string, school: Id, a: CE.Recipient)
    requires n < |d.recipients|
  {
    var r := d.recipients[n];
    && d.status == ConfirmedDecision && d.details.schoolYear == year && r.institutionId == Some(school)
    && a.studentCode == r.studentCode && a.className == r.className
    && a.fullName == (match r.fullName case Some(name) => name case None => "")
  }

  lemma HeldByIff(d: DecisionState, year: string, school: Id, a: CE.Recipient)
    ensures a in HeldBy(d, year, school) <==> exists n :: 0 <= n < |d.recipients| && IsHeldAt(d, n, year, school, a)
  {
    var own := Filter(OfSchool(school), d.recipients);
    InFilter(OfSchool(school), d.recipients);
    if a in HeldBy(d, year, school) {
      var m :| 0 <= m < |own| && ToAward(own[m]) == a;
      assert own[m] in own;
      var n :| 0 <= n < |d.recipients| && d.recipients[n] == own[m];
      assert IsHeldAt(d, n, year, school, a);
    }
    if n :| 0 <= n < |d.recipients| && IsHeldAt(d, n, year, school, a) {
      assert d.recipients[n] in own;
      var m :| 0 <= m < |own| && own[m] == d.recipients[n];
      assert Map(ToAward, own)[m] == a;
    }
  }

  /** What eligibility knows of a preview row. */
  function AwardOf(row: PreviewRow): CE.Recipient {
    CE.Recipient(row.fields.studentCode, match row.fields.fullName case Some(name) => name case None => "",
                 row.fields.className)
  }

  /** Once a roster is confirmed and for as long as it is, in any run and whatever else is decided: a row of its school
      and year with a student's code makes that student eligible, and one with the normalised name and class at least
      a case for verification. */
  lemma ConfirmedRowsCount(
    t: CE.Tools, a: CE.Application, identity: CE.Identity, school: CE.Workspace, decisions: seq<DecisionState>,
    states: seq<DecisionState>, events: seq<Event>, i: nat, j: nat, n: nat)
    requires RightRun(states, events) && i < j < |states| && Confirms(states, events, i)
    requires states[j] in decisions && states[j].status.ConfirmedDecision?
    requires UnderUniversity(school) && states[j].details.schoolYear == a.schoolYear
    requires ConfirmableSheet(states[i]).Some?
    requires var rows := BuildPreview(ConfirmableSheet(states[i]).value, events[i].confirmCtx).rows;
             n < |rows| && rows[n].institutionId == Some(school.id)
    ensures var row := BuildPreview(ConfirmableSheet(states[i]).value, events[i].confirmCtx).rows[n];
            var answer := CE.AutomaticEligibility(t, a, identity, Some(school),
                                                  Held(decisions, a.schoolYear, school.id));
            && answer.Calculated?
            && (SameCode(t, row.fields.studentCode, identity.studentCode) ==>
                  answer.calculation.result.status == CE.Eligible)
            && (SameNameAndClass(t, AwardOf(row), identity) ==> answer.calculation.result.status != CE.NotEligible)
  {
    hide BuildPreview, Follows, CE.AutomaticEligibility, SameCode, SameNameAndClass, Held, HoldsNameTwice, ToRecipients;
    ConfirmedRecipients(states, events, i, j);
    var rows := BuildPreview(ConfirmableSheet(states[i]).value, events[i].confirmCtx).rows;
    RecipientsRecord(rows);
    var award, held := AwardOf(rows[n]), Held(decisions, a.schoolYear, school.id);
    var k :| 0 <= k < |decisions| && decisions[k] == states[j];
    assert Records(states[j].recipients[n], rows[n]);
    assert IsHeldAt(decisions[k], n, a.schoolYear, school.id, award);
    HeldIff(decisions, a.schoolYear, school.id, award);
    AutomaticAnswerIff(t, a, identity, school, held);
    assert SameCode(t, award.studentCode, identity.studentCode) ==> HoldsCode(t, held, identity);
    assert SameNameAndClass(t, award, identity) ==> HoldsName(t, held, identity);
  }
}
