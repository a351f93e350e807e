/** The one-time migration that spreads legacy submission times evenly over the open season: integer
    milliseconds, rounded down. */
module SubmissionSpread {
  import opened ReviewTypes
  import opened Sequences
  import opened Sorting
  import opened TextOrder

  /** An application as the migration reads it. */
  datatype Submission = Submission(id: Id, submittedAt: Time, status: AppStatus)

  /** Position k of n, counted from 0. */
  function Offset(window: nat, k: nat, n: nat): nat { window * (k + 1) / (n + 1) }

  function Planned(apps: seq<Submission>, opening: Time, now: Time): (planned: seq<Submission>)
    requires opening <= now
    ensures |planned| == |apps|
    ensures forall k :: 0 <= k < |apps| ==>
              planned[k] == apps[k].(submittedAt := opening + Offset(now - opening, k, |apps|))
  {
    seq(|apps|, k requires 0 <= k < |apps| => apps[k].(submittedAt := opening + Offset(now - opening, k, |apps|)))
  }

  /** No computed time falls outside the season so far. */
  predicate InSeason(planned: seq<Submission>, opening: Time, now: Time, closing: Time) {
    forall k :: 0 <= k < |planned| ==> opening < planned[k].submittedAt <= now && planned[k].submittedAt <= closing
  }

  predicate StrictlyIncreasing(s: seq<Submission>) {
    forall k, l :: 0 <= k < l < |s| ==> s[k].submittedAt < s[l].submittedAt
  }

  lemma OffsetSteps(window: nat, k: nat, n: nat)
    requires window >= n + 1
    ensures Offset(window, k, n) < Offset(window, k + 1, n)
  {
    var d := n + 1;
    var q := window * (k + 1) / d;
    assert window * (k + 2) == window * (k + 1) + window;
    Quotient(window * (k + 1), d, q);
    AtLeast(window * (k + 2), d, q + 1);
  }

  lemma Quotient(a: nat, d: nat, q: nat)
    requires d > 0 && q == a / d
    ensures q * d <= a < (q + 1) * d
  {
  }

  lemma AtLeast(a: nat, d: nat, q: nat)
    requires d > 0 && q * d <= a
    ensures a / d >= q
  {
    var r := a / d;
    Quotient(a, d, r);
    if r < q {
      Grows(r + 1, q, d);
    }
  }

  lemma Grows(a: nat, b: nat, d: nat)
    requires a <= b
    ensures a * d <= b * d
  {
  }

  lemma {:induction false} OffsetsIncrease(window: nat, k: nat, l: nat, n: nat)
    requires window >= n + 1 && k < l
    ensures Offset(window, k, n) < Offset(window, l, n)
    decreases l
  {
    OffsetSteps(window, l - 1, n);
    if k < l - 1 {
      OffsetsIncrease(window, k, l - 1, n);
    }
  }

  lemma OffsetBounds(window: nat, k: nat, n: nat)
    requires window >= n + 1 && k < n
    ensures 1 <= Offset(window, k, n) < window
  {
    Grows(1, k + 1, window);
    Grows(k + 1, n, window);
    AtLeast(window * (k + 1), n + 1, 1);
    var q := Offset(window, k, n);
    Quotient(window * (k + 1), n + 1, q);
    assert window * (n + 1) == window * n + window;
    if q >= window {
      Grows(window, q, n + 1);
    }
  }

  lemma TooShort(window: nat, n: nat)
    requires window < n + 1
    ensures Offset(window, 0, n) == 0
  {
  }

  /** Between two neighbours, and before the first and after the last, lies an equal share of the window, rounded to
      one of the two nearest milliseconds. */
  lemma SpreadIsEven(apps: seq<Submission>, opening: Time, now: Time, k: nat)
    requires opening <= now && k < |apps|
    ensures var planned, share := Planned(apps, opening, now), (now - opening) / (|apps| + 1);
            && planned[k].submittedAt - (if k == 0 then opening else planned[k - 1].submittedAt) in {share, share + 1}
            && (k == |apps| - 1 ==> now - planned[k].submittedAt in {share, share + 1})
            && planned[k] == apps[k].(submittedAt := planned[k].submittedAt)
  {
    hide Offset;
    var window, n := now - opening, |apps|;
    StepIsAShare(window, k, n);
    if k == n - 1 {
      StepIsAShare(window, n, n);
      assert window * (n + 1) / (n + 1) == window by {
        WholeShares(window, n + 1);
      }
      OffsetIs(window, n, n);
    }
    if k > 0 {
      OffsetIs(window, k - 1, n);
    }
    OffsetIs(window, k, n);
  }

  lemma OffsetIs(window: nat, k: nat, n: nat)
    ensures Offset(window, k, n) == window * (k + 1) / (n + 1)
  {
  }

  lemma WholeShares(a: nat, d: nat)
    requires d > 0
    ensures a * d / d == a
  {
    AtLeast(a * d, d, a);
    Quotient(a * d, d, a * d / d);
    if a * d / d > a {
      Grows(a + 1, a * d / d, d);
    }
  }

  lemma Fewer(a: int, b: int, d: nat)
    requires a * d < b * d
    ensures a < b
  {
  }

  lemma TogetherOrOneMore(a: nat, b: nat, d: nat, p: nat, q: nat, sum: nat)
    requires p * d <= a < (p + 1) * d && q * d <= b < (q + 1) * d && sum * d <= a + b < (sum + 1) * d
    ensures sum == p + q || sum == p + q + 1
  {
    assert p * d + q * d == (p + q) * d && (p + 1) * d + (q + 1) * d == (p + q + 2) * d;
    Fewer(p + q, sum + 1, d);
    Fewer(sum, p + q + 2, d);
  }

  /** From k shares to k + 1, both rounded down, it is one share rounded down or up. */
  lemma StepIsAShare(window: nat, k: nat, n: nat)
    ensures window * (k + 1) / (n + 1) - window * k / (n + 1) in {window / (n + 1), window / (n + 1) + 1}
  {
    var a, d := window * k, n + 1;
    assert window * (k + 1) == a + window;
    Quotient(a, d, a / d);
    Quotient(window, d, window / d);
    Quotient(a + window, d, (a + window) / d);
    TogetherOrOneMore(a, window, d, a / d, window / d, (a + window) / d);
  }

  /** The computed times are in the season exactly if the window has more milliseconds than there are
      applications; then they increase strictly and lie strictly between the opening and now. */
  lemma SpreadIffWindowIsLongEnough(apps: seq<Submission>, opening: Time, now: Time, closing: Time)
    requires opening < now <= closing && apps != []
    ensures var planned := Planned(apps, opening, now);
            && (InSeason(planned, opening, now, closing) <==> now - opening > |apps|)
            && (now - opening > |apps| ==>
                  StrictlyIncreasing(planned) && forall k :: 0 <= k < |apps| ==> opening < planned[k].submittedAt < now)
  {
    hide Offset;
    var planned, window, n := Planned(apps, opening, now), now - opening, |apps|;
    if window > n {
      forall k | 0 <= k < n ensures opening < planned[k].submittedAt < now {
        OffsetBounds(window, k, n);
      }
      forall k, l | 0 <= k < l < n ensures planned[k].submittedAt < planned[l].submittedAt {
        OffsetsIncrease(window, k, l, n);
      }
    } else {
      TooShort(window, n);
      assert planned[0].submittedAt == opening;
    }
  }

  // ---------- Writing the rows ----------

  /** What the migration writes of a row, and one of the fields it must leave alone. */
  datatype Stored = Stored(submittedAt: Time, status: AppStatus)

  type Rows = map<Id, Stored>

  /** `UPDATE … SET "submittedAt" = time WHERE "id" = id`. */
  function SetTime(rows: Rows, id: Id, time: Time): Rows {
    if id in rows then rows[id := rows[id].(submittedAt := time)] else rows
  }

  function Applied(rows: Rows, planned: seq<Submission>, k: nat): Rows
    requires k <= |planned|
  {
    if k == 0 then rows else SetTime(Applied(rows, planned, k - 1), planned[k - 1].id, planned[k - 1].submittedAt)
  }

  predicate DistinctIds(apps: seq<Submission>) { forall k, l :: 0 <= k < l < |apps| ==> apps[k].id != apps[l].id }

  predicate StillAsRead(rows: Rows, apps: seq<Submission>) {
    forall k :: 0 <= k < |apps| ==> apps[k].id in rows && rows[apps[k].id].submittedAt == apps[k].submittedAt
  }

  lemma InSeasonIff(apps: seq<Submission>, opening: Time, now: Time, closing: Time)
    requires opening < now <= closing
    ensures InSeason(Planned(apps, opening, now), opening, now, closing) <==> apps == [] || now - opening > |apps|
  {
    if apps != [] {
      SpreadIffWindowIsLongEnough(apps, opening, now, closing);
    }
  }

  class SubmissionTable {
    var rows: Rows

    /** Plans, checks the plan, then updates one row after the other, each only while it holds the time that
        was read; any failure rolls everything back. */
    method Normalize(apps: seq<Submission>, opening: Time, now: Time, closing: Time) returns (applied: bool)
      requires DistinctIds(apps)
      modifies this
      ensures applied
              <==> && opening < now <= closing && (apps == [] || now - opening > |apps|)
                   && forall k :: 0 <= k < |apps| ==>
                        apps[k].id in old(rows) && old(rows)[apps[k].id].submittedAt == apps[k].submittedAt
      ensures rows == if applied then Applied(old(rows), Planned(apps, opening, now), |apps|) else old(rows)
    {
      if now <= opening || now > closing { return false; }
      var planned := Planned(apps, opening, now);
      hide Planned, Applied;
      InSeasonIff(apps, opening, now, closing);
      if !InSeason(planned, opening, now, closing) { return false; }
      hide InSeason, SetTime;
      var saved := rows;
      NothingApplied(rows, planned);
      for k := 0 to |apps|
        invariant rows == Applied(old(rows), planned, k)
        invariant forall l :: 0 <= l < k ==>
                    apps[l].id in old(rows) && old(rows)[apps[l].id].submittedAt == apps[l].submittedAt
      {
        AppliedLater(old(rows), planned, k, k);
        if apps[k].id !in rows || rows[apps[k].id].submittedAt != apps[k].submittedAt {
          rows := saved;
          return false;
        }
        rows := SetTime(rows, apps[k].id, planned[k].submittedAt);
        AppliedNext(old(rows), planned, k);
      }
      return true;
    }
  }

  lemma NothingApplied(rows: Rows, planned: seq<Submission>)
    ensures Applied(rows, planned, 0) == rows
  {
  }

  lemma AppliedNext(rows: Rows, planned: seq<Submission>, k: nat)
    requires k < |planned|
    ensures Applied(rows, planned, k + 1)
            == SetTime(Applied(rows, planned, k), planned[k].id, planned[k].submittedAt)
  {
  }

  /** A row whose turn is still to come is as it was. */
  lemma {:induction false} AppliedLater(rows: Rows, planned: seq<Submission>, k: nat, l: nat)
    requires DistinctIds(planned) && k <= l < |planned|
    ensures var id := planned[l].id;
            && (id in Applied(rows, planned, k) <==> id in rows)
            && (id in rows ==> Applied(rows, planned, k)[id] == rows[id])
  {
    if k > 0 {
      AppliedLater(rows, planned, k - 1, l);
    }
  }

  // ---------- Reading the rows back ----------

  /** `ORDER BY "submittedAt", "id"`. */
  function ByTime(): (Submission, Submission) -> bool {
    (a: Submission, b: Submission) => a.submittedAt < b.submittedAt
      || (a.submittedAt == b.submittedAt && NotAfter(a.id, b.id))
  }

  lemma ByTimeIsOrdering()
    ensures Ordering(ByTime())
  {
    forall a, b ensures ByTime()(a, b) || ByTime()(b, a) {
      Total(a.id, b.id);
    }
    forall a, b, c | ByTime()(a, b) && ByTime()(b, c) ensures ByTime()(a, c) {
      if a.submittedAt == b.submittedAt == c.submittedAt {
        Transitive(a.id, b.id, c.id);
      }
    }
  }

  /** The rows of the planned applications, each once and in any order. */
  ghost predicate Reads(read: seq<Submission>, rows: Rows, apps: seq<Submission>) {
    && DistinctIds(read)
    && (forall k :: 0 <= k < |read| ==> read[k].id in rows && read[k] == AsStored(rows, read[k].id))
    && (forall id :: id in Map(IdOf, read) <==> id in Map(IdOf, apps))
  }

  function IdOf(app: Submission): Id { app.id }

  function AsStored(rows: Rows, id: Id): Submission
    requires id in rows
  {
    Submission(id, rows[id].submittedAt, rows[id].status)
  }

  lemma {:induction false} AppliedAt(rows: Rows, planned: seq<Submission>, k: nat, l: nat)
    requires DistinctIds(planned) && l < |planned| && k <= |planned| && planned[l].id in rows
    ensures planned[l].id in Applied(rows, planned, k)
    ensures var was := rows[planned[l].id];
            Applied(rows, planned, k)[planned[l].id]
            == if l < k then was.(submittedAt := planned[l].submittedAt) else was
  {
    if k > 0 {
      AppliedAt(rows, planned, k - 1, l);
    }
  }

  /** An applied plan gives every row its own time and leaves everything else of it, and all other rows. */
  lemma AppliedIs(rows: Rows, apps: seq<Submission>, opening: Time, now: Time)
    requires opening <= now && DistinctIds(apps) && forall k :: 0 <= k < |apps| ==> apps[k].id in rows
    ensures var after := Applied(rows, Planned(apps, opening, now), |apps|);
            && after.Keys == rows.Keys
            && (forall k :: 0 <= k < |apps| ==>
                  after[apps[k].id]
                  == rows[apps[k].id].(submittedAt := opening + (now - opening) * (k + 1) / (|apps| + 1)))
            && forall id :: id in rows && (forall k :: 0 <= k < |apps| ==> apps[k].id != id) ==> after[id] == rows[id]
  {
    var planned := Planned(apps, opening, now);
    forall k | 0 <= k < |apps|
      ensures apps[k].id in Applied(rows, planned, |apps|)
      ensures Applied(rows, planned, |apps|)[apps[k].id]
              == rows[apps[k].id].(submittedAt := opening + (now - opening) * (k + 1) / (|apps| + 1))
    {
      AppliedAt(rows, planned, |apps|, k);
      OffsetIs(now - opening, k, |apps|);
    }
    AppliedElsewhere(rows, planned, |apps|);
    hide Offset, Applied;
  }

  lemma {:induction false} AppliedElsewhere(rows: Rows, planned: seq<Submission>, n: nat)
    requires n <= |planned| && forall k :: 0 <= k < |planned| ==> planned[k].id in rows
    ensures Applied(rows, planned, n).Keys == rows.Keys
    ensures forall id :: id in rows && (forall k :: 0 <= k < n ==> planned[k].id != id) ==>
              Applied(rows, planned, n)[id] == rows[id]
  {
    if n > 0 {
      AppliedElsewhere(rows, planned, n - 1);
    }
  }

  /** The rows of an applied plan, in its order. */
  function Spread(rows: Rows, planned: seq<Submission>): (spread: seq<Submission>)
    requires forall l :: 0 <= l < |planned| ==> planned[l].id in rows
    ensures |spread| == |planned|
    ensures forall k :: 0 <= k < |planned| ==> spread[k] == planned[k].(status := rows[planned[k].id].status)
  {
    seq(|planned|, k requires 0 <= k < |planned| => planned[k].(status := rows[planned[k].id].status))
  }

  /** The planned applications as the applied plan leaves them. */
  lemma SpreadIsStored(rows: Rows, planned: seq<Submission>, k: nat)
    requires DistinctIds(planned) && k < |planned| && forall l :: 0 <= l < |planned| ==> planned[l].id in rows
    ensures var after := Applied(rows, planned, |planned|);
            planned[k].id in after && Spread(rows, planned)[k] == AsStored(after, planned[k].id)
  {
    AppliedAt(rows, planned, |planned|, k);
  }

  lemma SameRead(read: seq<Submission>, spread: seq<Submission>, rows: Rows, x: Submission)
    requires Reads(read, rows, spread)
    requires forall k :: 0 <= k < |spread| ==> spread[k].id in rows && spread[k] == AsStored(rows, spread[k].id)
    ensures x in read <==> x in spread
  {
    if x in read {
      assert x.id in Map(IdOf, read);
      var k :| 0 <= k < |spread| && Map(IdOf, spread)[k] == x.id;
      assert spread[k] == x;
    }
    if x in spread {
      assert x.id in Map(IdOf, spread);
      var l :| 0 <= l < |read| && Map(IdOf, read)[l] == x.id;
      assert read[l] == x;
    }
  }

  /** Whatever is read is the applied plan, up to order. */
  lemma ReadsThePlan(read: seq<Submission>, rows: Rows, planned: seq<Submission>)
    requires DistinctIds(planned) && forall l :: 0 <= l < |planned| ==> planned[l].id in rows
    requires Reads(read, Applied(rows, planned, |planned|), planned)
    ensures multiset(read) == multiset(Spread(rows, planned))
  {
    hide Applied, AsStored;
    var after, spread := Applied(rows, planned, |planned|), Spread(rows, planned);
    forall k | 0 <= k < |planned| ensures spread[k].id in after && spread[k] == AsStored(after, spread[k].id) {
      SpreadIsStored(rows, planned, k);
    }
    assert Map(IdOf, spread) == Map(IdOf, planned);
    forall x ensures x in read <==> x in spread {
      SameRead(read, spread, after, x);
    }
    DistinctSameElements(read, spread);
  }

  lemma SortsTo(read: seq<Submission>, spread: seq<Submission>)
    requires multiset(read) == multiset(spread) && StrictlyIncreasing(spread)
    ensures Sort(ByTime(), read) == spread
  {
    ByTimeIsOrdering();
    SortSorts(ByTime(), read);
    IncreasingIsSorted(spread);
    hide ByTime;
    SortedIsUnique(ByTime(), spread, Sort(ByTime(), read));
  }

  /** Any reading of an applied plan, ordered by time, is the plan in its own order. */
  lemma ReadSortsToPlan(rows: Rows, planned: seq<Submission>, read: seq<Submission>)
    requires DistinctIds(planned) && StrictlyIncreasing(planned)
    requires forall l :: 0 <= l < |planned| ==> planned[l].id in rows
    requires Reads(read, Applied(rows, planned, |planned|), planned)
    ensures Sort(ByTime(), read) == Spread(rows, planned)
  {
    hide Applied, Sort, Reads;
    ReadsThePlan(read, rows, planned);
    SortsTo(read, Spread(rows, planned));
  }

  lemma PlanIsFit(rows: Rows, apps: seq<Submission>, opening: Time, now: Time, closing: Time)
    requires opening < now <= closing && DistinctIds(apps)
    requires InSeason(Planned(apps, opening, now), opening, now, closing) && StillAsRead(rows, apps)
    ensures var planned := Planned(apps, opening, now);
            && DistinctIds(planned) && StrictlyIncreasing(planned) && Map(IdOf, planned) == Map(IdOf, apps)
            && (forall l :: 0 <= l < |planned| ==> planned[l].id in rows)
            && forall l :: 0 <= l < |planned| ==> opening < planned[l].submittedAt <= now
  {
    hide Offset;
    if apps != [] {
      SpreadIffWindowIsLongEnough(apps, opening, now, closing);
    }
    assert forall l :: 0 <= l < |apps| ==> apps[l].id in rows;
  }

  lemma SameIdsRead(read: seq<Submission>, rows: Rows, a: seq<Submission>, b: seq<Submission>)
    requires Map(IdOf, a) == Map(IdOf, b) && Reads(read, rows, a)
    ensures Reads(read, rows, b)
  {
  }

  /** The migration's own check of what it reads back, position by position. */
  predicate PassesCheck(back: seq<Submission>, apps: seq<Submission>, opening: Time, now: Time) {
    && |back| == |apps|
    && forall k :: 0 <= k < |apps| ==> opening < back[k].submittedAt <= now && back[k].status == apps[k].status
  }

  predicate StatusAsRead(rows: Rows, apps: seq<Submission>) {
    forall k :: 0 <= k < |apps| ==> apps[k].id in rows && rows[apps[k].id].status == apps[k].status
  }

  /** After a plan was applied, in whatever order the database holds the rows, reading them back by time gives
      the planned applications position by position, so the check by position compares each with itself: it
      passes exactly if no status has changed since the applications were read. */
  lemma ReadBackIsThePlan(rows: Rows, apps: seq<Submission>, opening: Time, now: Time, closing: Time,
                          read: seq<Submission>)
    requires opening < now <= closing && DistinctIds(apps)
    requires InSeason(Planned(apps, opening, now), opening, now, closing) && StillAsRead(rows, apps)
    requires Reads(read, Applied(rows, Planned(apps, opening, now), |apps|), apps)
    ensures var back := Sort(ByTime(), read);
            && Map(IdOf, back) == Map(IdOf, apps)
            && (PassesCheck(back, apps, opening, now) <==> StatusAsRead(rows, apps))
  {
    var planned := Planned(apps, opening, now);
    PlanIsFit(rows, apps, opening, now, closing);
    hide Planned, Applied, Sort, Reads, DistinctIds, StrictlyIncreasing, InSeason, StillAsRead, ByTime, Map,
      PassesCheck, StatusAsRead;
    SameIdsRead(read, Applied(rows, planned, |apps|), apps, planned);
    ReadSortsToPlan(rows, planned, read);
    var back := Sort(ByTime(), read);
    SpreadPasses(rows, apps, planned, back, opening, now);
  }

  lemma SpreadPasses(rows: Rows, apps: seq<Submission>, planned: seq<Submission>, back: seq<Submission>, opening: Time,
                     now: Time)
    requires |planned| == |apps| && (forall l :: 0 <= l < |planned| ==> planned[l].id in rows)
    requires Map(IdOf, planned) == Map(IdOf, apps) && back == Spread(rows, planned)
    requires forall k :: 0 <= k < |planned| ==> opening < planned[k].submittedAt <= now
    ensures Map(IdOf, back) == Map(IdOf, apps)
    ensures PassesCheck(back, apps, opening, now) <==> StatusAsRead(rows, apps)
  {
    forall k | 0 <= k < |apps| ensures planned[k].id == apps[k].id && back[k].status == rows[apps[k].id].status {
      assert Map(IdOf, planned)[k] == Map(IdOf, apps)[k];
    }
  }

  lemma IncreasingIsSorted(s: seq<Submission>)
    requires StrictlyIncreasing(s)
    ensures Sorted(ByTime(), s) && Untied(ByTime(), s)
  {
  }
}
