/** Supplement resubmissions: any order of the per-task resubmissions reaches the same state, the
    application leaves `supplement_required` at the last one, and when the generic submit does the
    work of a per-task resubmission. */
module SupplementRuns {
  import opened ReviewTypes
  import opened Aggregate
  import opened AggregateRuns

  function Outstanding(tasks: seq<Task>): set<nat> {
    set i: nat | i < |tasks| && tasks[i].status.SupplementRequired?
  }

  /** Every outstanding task can be resubmitted by the student at its own time, and no two of them
      are for the same criterion. */
  ghost predicate AllReady(actor: Actor, app: App, at: seq<Time>) {
    && actor.role.Student? && app.row.studentId == actor.id && app.row.cancelled.None? && app.row.targetLevel.City?
    && |at| == |app.tasks|
    && (forall t: nat :: t in Outstanding(app.tasks) ==>
          ReadyToResubmit(app, t, at[t]) && ResubmittedRequests(app.tasks[t], actor.id, at[t]).Some?)
    && (forall t: nat, u: nat ::
          (t in Outstanding(app.tasks) && u in Outstanding(app.tasks)
           && app.tasks[t].criterion == app.tasks[u].criterion) ==> t == u)
  }

  /** The resubmissions of `order`, each reading the state the previous one left. */
  function ResubmitInOrder(actor: Actor, at: seq<Time>, order: seq<nat>, app: App): Outcome
    requires forall k :: 0 <= k < |order| ==> order[k] < |at|
  {
    if order == [] then Commit(app)
    else
      var head := Resubmit(actor, order[0], true, at[order[0]], app, app);
      if head.error.Some? then head else ResubmitInOrder(actor, at, order[1..], head.app)
  }

  function CriteriaOf(tasks: seq<Task>, which: set<nat>): set<Criterion> {
    set t | t in which && t < |tasks| :: tasks[t].criterion
  }

  /** The state once exactly the tasks of `done` are resubmitted, said without any order. The update
      time alone depends on which one came last. */
  ghost predicate Resubmitted(actor: Actor, at: seq<Time>, before: App, done: set<nat>, after: App)
    requires |at| == |before.tasks|
    requires forall t: nat :: t in done ==>
               t < |before.tasks| && ResubmittedRequests(before.tasks[t], actor.id, at[t]).Some?
  {
    && |after.tasks| == |before.tasks|
    && (forall t: nat :: t < |before.tasks| ==>
          after.tasks[t] == if t in done
                            then ResubmittedTask(before.tasks[t], before.evidences, actor.id, at[t])
                            else before.tasks[t])
    && after.evidences == MoveEvidence(before.evidences, CriteriaOf(before.tasks, done))
    && after.row == before.row.(
         status := if Outstanding(before.tasks) <= done then AppStatus.UnderReview else AppStatus.SupplementRequired,
         updatedAt := after.row.updatedAt)
    && after.snapshots == before.snapshots
    && after.finalHistory == before.finalHistory
    && after.verification == before.verification
  }

  predicate Unique(order: seq<nat>) {
    forall i, j :: 0 <= i < j < |order| ==> order[i] != order[j]
  }

  function Elements(order: seq<nat>): set<nat> {
    set k | 0 <= k < |order| :: order[k]
  }

  lemma OutstandingIff(tasks: seq<Task>)
    ensures HasSupplementTask(tasks) <==> Outstanding(tasks) != {}
  {
    if HasSupplementTask(tasks) {
      var i: nat :| i < |tasks| && tasks[i].status.SupplementRequired?;
      assert i in Outstanding(tasks);
    }
  }

  lemma MovedIdsStay(evidences: seq<Evidence>, criteria: set<Criterion>, criterion: Criterion)
    ensures EvidenceIds(MoveEvidence(evidences, criteria), criterion) == EvidenceIds(evidences, criterion)
  {
    var moved := MoveEvidence(evidences, criteria);
    forall id | id in EvidenceIds(evidences, criterion) ensures id in EvidenceIds(moved, criterion) {
      var i :| 0 <= i < |evidences| && evidences[i].criterion == criterion && evidences[i].id == id;
      assert moved[i].criterion == criterion && moved[i].id == id;
    }
  }

  lemma MoveTwice(evidences: seq<Evidence>, first: set<Criterion>, then_: set<Criterion>)
    ensures MoveEvidence(MoveEvidence(evidences, first), then_) == MoveEvidence(evidences, first + then_)
  {
  }

  /** One resubmission commits, settles that task only and leaves the other outstanding tasks ready. */
  lemma OneResubmission(actor: Actor, at: seq<Time>, app: App, t: nat)
    requires AllReady(actor, app, at) && t in Outstanding(app.tasks)
    ensures var step := Resubmit(actor, t, true, at[t], app, app);
            && step.error.None?
            && Resubmitted(actor, at, app, {t}, step.app)
            && Outstanding(step.app.tasks) == Outstanding(app.tasks) - {t}
            && AllReady(actor, step.app, at)
  {
    var after := Resubmit(actor, t, true, at[t], app, app).app;
    assert after.tasks[t] == ResubmittedTask(app.tasks[t], app.evidences, actor.id, at[t]);
    assert CriteriaOf(app.tasks, {t}) == {app.tasks[t].criterion};
    OutstandingIff(after.tasks);
    assert Outstanding(after.tasks) == Outstanding(app.tasks) - {t};
    forall u: nat | u in Outstanding(after.tasks)
      ensures ReadyToResubmit(after, u, at[u]) && ResubmittedRequests(after.tasks[u], actor.id, at[u]).Some?
    {
      assert u in Outstanding(app.tasks);
      OthersStayReady(app, after, t, u, at[u]);
    }
  }

  lemma OthersStayReady(app: App, after: App, t: nat, u: nat, now: Time)
    requires t < |app.tasks| && u < |app.tasks| && app.tasks[t].criterion != app.tasks[u].criterion
    requires ReadyToResubmit(app, u, now) && after.row.status.SupplementRequired?
    requires after.evidences == MoveEvidence(app.evidences, {app.tasks[t].criterion})
    requires |after.tasks| == |app.tasks| && after.tasks[u] == app.tasks[u]
    ensures ReadyToResubmit(after, u, now)
  {
    var i :| 0 <= i < |app.evidences| && app.evidences[i].criterion == app.tasks[u].criterion
             && (app.evidences[i].status.Indexed? || app.evidences[i].status.NeedsSupplement?
                 || app.evidences[i].status.UnderReview?);
    assert after.evidences[i] == app.evidences[i];
  }

  /** Doing one task and then a set of others is doing them all. */
  lemma ResubmittedCompose(actor: Actor, at: seq<Time>, before: App, mid: App, after: App, t: nat, rest: set<nat>)
    requires |at| == |before.tasks| && t in Outstanding(before.tasks) && t !in rest
    requires ResubmittedRequests(before.tasks[t], actor.id, at[t]).Some?
    requires forall u: nat :: u in rest ==>
               u < |before.tasks| && ResubmittedRequests(before.tasks[u], actor.id, at[u]).Some?
    requires Resubmitted(actor, at, before, {t}, mid)
    requires Outstanding(mid.tasks) == Outstanding(before.tasks) - {t}
    requires forall u: nat :: u in rest ==> mid.tasks[u] == before.tasks[u]
    requires Resubmitted(actor, at, mid, rest, after)
    ensures Resubmitted(actor, at, before, {t} + rest, after)
  {
    var earlier, later := CriteriaOf(before.tasks, {t}), CriteriaOf(mid.tasks, rest);
    assert CriteriaOf(before.tasks, {t} + rest) == earlier + later;
    MoveTwice(before.evidences, earlier, later);
    forall u: nat | u in rest
      ensures after.tasks[u] == ResubmittedTask(before.tasks[u], before.evidences, actor.id, at[u])
    {
      MovedIdsStay(before.evidences, earlier, before.tasks[u].criterion);
      assert after.tasks[u] == ResubmittedTask(mid.tasks[u], mid.evidences, actor.id, at[u]);
    }
    assert Outstanding(before.tasks) <= {t} + rest <==> Outstanding(mid.tasks) <= rest;
  }

  /** Resubmitting outstanding tasks in any order succeeds and reaches the state determined by which
      tasks were done; the application stays in `supplement_required` until the last one. */
  lemma {:induction false} AnyOrderReachesTheSameState(actor: Actor, at: seq<Time>, order: seq<nat>, app: App)
    requires AllReady(actor, app, at)
    requires Unique(order) && Elements(order) <= Outstanding(app.tasks) && order != []
    requires forall k :: 0 <= k < |order| ==> order[k] < |at|
    ensures ResubmitInOrder(actor, at, order, app).error.None?
    ensures Resubmitted(actor, at, app, Elements(order), ResubmitInOrder(actor, at, order, app).app)
    ensures Outstanding(ResubmitInOrder(actor, at, order, app).app.tasks) == Outstanding(app.tasks) - Elements(order)
  {
    hide Resubmit, ResubmittedTask, ResubmittedRequests, ReadyToResubmit, Elements;
    var t, tail := order[0], order[1..];
    ElementsCons(order);
    assert t in Elements(order);
    OneResubmission(actor, at, app, t);
    var mid := Resubmit(actor, t, true, at[t], app, app).app;
    if tail == [] {
      EmptyIff(tail);
    } else {
      AnyOrderReachesTheSameState(actor, at, tail, mid);
      ResubmittedCompose(actor, at, app, mid, ResubmitInOrder(actor, at, tail, mid).app, t, Elements(tail));
    }
  }

  lemma EmptyIff(order: seq<nat>)
    ensures order == [] <==> Elements(order) == {}
  {
    assert order != [] ==> order[0] in Elements(order);
  }

  lemma ElementsCons(order: seq<nat>)
    requires order != []
    ensures Elements(order) == {order[0]} + Elements(order[1..])
    ensures Unique(order) ==> order[0] !in Elements(order[1..])
  {
    var tail := order[1..];
    forall u | u in Elements(order) ensures u == order[0] || u in Elements(tail) {
      var k :| 0 <= k < |order| && order[k] == u;
      if k > 0 { assert tail[k - 1] == u; }
    }
    forall u | u in Elements(tail) ensures u in Elements(order) {
      var k :| 0 <= k < |tail| && tail[k] == u;
      assert order[k + 1] == u;
    }
  }

  lemma AllReadyIsReady(actor: Actor, at: seq<Time>, app: App, done: set<nat>)
    requires AllReady(actor, app, at) && done <= Outstanding(app.tasks)
    ensures |at| == |app.tasks|
    ensures forall t: nat :: t in done ==> t < |app.tasks| && ResubmittedRequests(app.tasks[t], actor.id, at[t]).Some?
  {
  }

  lemma SetDeterminesState(actor: Actor, at: seq<Time>, before: App, done: set<nat>, a: App, b: App)
    requires |at| == |before.tasks|
    requires forall t: nat :: t in done ==>
               t < |before.tasks| && ResubmittedRequests(before.tasks[t], actor.id, at[t]).Some?
    requires Resubmitted(actor, at, before, done, a) && Resubmitted(actor, at, before, done, b)
    ensures a.tasks == b.tasks && a.evidences == b.evidences
    ensures a == b.(row := b.row.(updatedAt := a.row.updatedAt))
  {
    hide ResubmittedTask, ResubmittedRequests, MoveEvidence, CriteriaOf;
    assert a.tasks == b.tasks;
  }

  /** Two orders of the same tasks reach the same tasks, requests, evidence and application. */
  lemma ResubmissionsCommute(actor: Actor, at: seq<Time>, p: seq<nat>, q: seq<nat>, app: App)
    requires AllReady(actor, app, at)
    requires Unique(p) && Unique(q) && Elements(p) == Elements(q) <= Outstanding(app.tasks)
    requires forall k :: 0 <= k < |p| ==> p[k] < |at|
    requires forall k :: 0 <= k < |q| ==> q[k] < |at|
    ensures var a, b := ResubmitInOrder(actor, at, p, app), ResubmitInOrder(actor, at, q, app);
            && a.error.None? && b.error.None?
            && a.app.tasks == b.app.tasks && a.app.evidences == b.app.evidences
            && a.app == b.app.(row := b.app.row.(updatedAt := a.app.row.updatedAt))
  {
    EmptyIff(p);
    EmptyIff(q);
    hide AllReady, Resubmitted, Elements, Outstanding, Resubmit;
    if p != [] {
      AnyOrderReachesTheSameState(actor, at, p, app);
      AnyOrderReachesTheSameState(actor, at, q, app);
      var a, b := ResubmitInOrder(actor, at, p, app).app, ResubmitInOrder(actor, at, q, app).app;
      AllReadyIsReady(actor, at, app, Elements(p));
      SetDeterminesState(actor, at, app, Elements(p), a, b);
    }
  }

  /** After resubmitting all outstanding tasks, in whatever order, none is left and the application is
      under review; after any fewer it still requires a supplement. */
  lemma LastResubmissionLeavesSupplement(actor: Actor, at: seq<Time>, order: seq<nat>, app: App)
    requires AllReady(actor, app, at) && order != []
    requires Unique(order) && Elements(order) <= Outstanding(app.tasks)
    requires forall k :: 0 <= k < |order| ==> order[k] < |at|
    ensures var after := ResubmitInOrder(actor, at, order, app).app;
            && |Outstanding(after.tasks)| == |Outstanding(app.tasks)| - |order|
            && (after.row.status.UnderReview? <==> Elements(order) == Outstanding(app.tasks))
            && (after.row.status.SupplementRequired? <==> Outstanding(after.tasks) != {})
  {
    AnyOrderReachesTheSameState(actor, at, order, app);
    UniqueCount(order);
  }

  lemma {:induction false} UniqueCount(order: seq<nat>)
    requires Unique(order)
    ensures |Elements(order)| == |order|
  {
    if order != [] {
      var last := order[|order| - 1];
      var init := order[..|order| - 1];
      UniqueCount(init);
      assert Elements(order) == Elements(init) + {last} by {
        forall u | u in Elements(order) ensures u in Elements(init) + {last} {
          var k :| 0 <= k < |order| && order[k] == u;
          if k < |init| { assert init[k] == u; }
        }
        forall u | u in Elements(init) ensures u in Elements(order) {
          var k :| 0 <= k < |init| && init[k] == u;
          assert order[k] == u;
        }
      }
      assert last !in Elements(init);
    }
  }

  // ---------- The generic submit in place of a resubmission ----------

  function ActiveCount(requests: seq<SupplementRequest>): nat {
    if requests == [] then 0 else (if requests[0].status.Active? then 1 else 0) + ActiveCount(requests[1..])
  }

  lemma {:induction false} ActiveCountZeroIff(requests: seq<SupplementRequest>)
    ensures ActiveCount(requests) == 0 <==> forall i :: 0 <= i < |requests| ==> !requests[i].status.Active?
  {
    if requests != [] {
      ActiveCountZeroIff(requests[1..]);
      assert forall i :: 1 <= i < |requests| ==> requests[i] == requests[1..][i - 1];
    }
  }

  /** Exactly one active request means: the newest active one has no other behind it. */
  lemma {:induction false} ActiveCountOneIff(requests: seq<SupplementRequest>)
    ensures ActiveCount(requests) == 1 <==>
            ActiveIndex(requests).Some?
            && forall i :: 0 <= i < |requests| && i != ActiveIndex(requests).value ==> !requests[i].status.Active?
  {
    if requests != [] {
      var tail := requests[1..];
      assert forall i :: 1 <= i < |requests| ==> requests[i] == tail[i - 1];
      if requests[0].status.Active? {
        ActiveCountZeroIff(tail);
      } else {
        ActiveCountOneIff(tail);
        if ActiveIndex(tail).Some? {
          var k := ActiveIndex(tail).value;
          assert ActiveIndex(requests) == Some(k + 1);
        }
      }
    }
  }

  /** The two ways of marking a task's requests agree exactly when one request is active: the generic
      submit marks all active ones and stores no legacy request, a resubmission marks the newest. */
  lemma MarkingAgreesIff(task: Task, who: Id, now: Time)
    requires ResubmittedRequests(task, who, now).Some?
    ensures MarkActive(task.requests, who, now) == ResubmittedRequests(task, who, now).value
            <==> ActiveCount(task.requests) == 1
  {
    var marked := MarkActive(task.requests, who, now);
    var resubmitted := ResubmittedRequests(task, who, now).value;
    ActiveCountOneIff(task.requests);
    if ActiveIndex(task.requests).None? {
      assert |resubmitted| == |marked| + 1;
    } else {
      var k := ActiveIndex(task.requests).value;
      if ActiveCount(task.requests) == 1 {
        assert marked == resubmitted;
      } else {
        var i :| 0 <= i < |task.requests| && i != k && task.requests[i].status.Active?;
        assert marked[i].status.Resubmitted? && resubmitted[i] == task.requests[i];
      }
    }
  }

  lemma OnlyOne(tasks: seq<Task>, t: nat)
    requires Outstanding(tasks) == {t}
    ensures forall i: nat :: i < |tasks| ==> (tasks[i].status.SupplementRequired? <==> i == t)
  {
    assert t in Outstanding(tasks);
    forall i: nat | i < |tasks| && tasks[i].status.SupplementRequired? ensures i == t {
      assert i in Outstanding(tasks);
    }
  }

  /** What a generic submit with nothing changed since its reads does to the tasks. */
  lemma GenericOutcome(actor: Actor, ctx: SubmitContext, now: Time, app: App)
    requires Submit(actor, ctx, now, app, app, app).error.None?
    requires SupplementResubmission(app.row) && HasSupplementTask(app.tasks)
    ensures var next := Submit(actor, ctx, now, app, app, app).app;
            && next.tasks == GenericTasks(app.tasks, app.tasks, app.evidences, actor.id, now)
            && next.evidences == MoveEvidence(app.evidences, SupplementCriteria(app.tasks))
            && next.row.status.UnderReview?
  {
    assert app.tasks != [];
    hide HasSupplementTask, GenericTasks, MoveEvidence, SupplementCriteria;
  }

  lemma SingleOutcome(actor: Actor, t: nat, now: Time, app: App)
    requires Resubmit(actor, t, true, now, app, app).error.None?
    ensures var next := Resubmit(actor, t, true, now, app, app).app;
            && app.row.status.SupplementRequired? && t < |app.tasks|
            && ResubmittedRequests(app.tasks[t], actor.id, now).Some?
            && next.tasks == app.tasks[t := ResubmittedTask(app.tasks[t], app.evidences, actor.id, now)]
            && next.evidences == MoveEvidence(app.evidences, {app.tasks[t].criterion})
            && (!HasSupplementTask(next.tasks) ==> next.row.status.UnderReview?)
  {
    hide HasSupplementTask, ResubmittedTask, ResubmittedRequests, MoveEvidence;
  }

  /** With one outstanding task and nothing changed since the read, the generic submit reaches the
      tasks, requests, evidence and status of that task's own resubmission if and only if the task
      has exactly one active request. */
  lemma GenericSubmitMatchesResubmitIff(actor: Actor, ctx: SubmitContext, now: Time, app: App, t: nat)
    requires Outstanding(app.tasks) == {t}
    requires Submit(actor, ctx, now, app, app, app).error.None?
    requires Resubmit(actor, t, true, now, app, app).error.None?
    requires app.row.submittedAt.Some?
    ensures var generic := Submit(actor, ctx, now, app, app, app).app;
            var single := Resubmit(actor, t, true, now, app, app).app;
            && (generic.tasks == single.tasks <==> ActiveCount(app.tasks[t].requests) == 1)
            && generic.evidences == single.evidences
            && generic.row.status == single.row.status == AppStatus.UnderReview
  {
    hide Submit, Resubmit, MoveEvidence;
    var generic, single := Submit(actor, ctx, now, app, app, app).app, Resubmit(actor, t, true, now, app, app).app;
    OnlyOne(app.tasks, t);
    assert t in Outstanding(app.tasks);
    assert SupplementCriteria(app.tasks) == {app.tasks[t].criterion};
    SingleOutcome(actor, t, now, app);
    GenericOutcome(actor, ctx, now, app);
    MarkingAgreesIff(app.tasks[t], actor.id, now);
    assert generic.tasks[t] == single.tasks[t] <==> ActiveCount(app.tasks[t].requests) == 1;
    assert forall i: nat :: i < |app.tasks| && i != t ==> generic.tasks[i] == app.tasks[i] == single.tasks[i];
  }

  /** The route's own guard on the generic submit: exactly one task may await a supplement. */
  predicate GenericSubmitAllowed(app: App) {
    app.row.status.SupplementRequired? && app.row.submittedAt.Some? ==> |Outstanding(app.tasks)| == 1
  }

  /** A task that nobody is asked about any more although its supplement request is still active. */
  predicate Stranded(task: Task) {
    !task.status.SupplementRequired? && ActiveIndex(task.requests).Some?
  }

  /** A generic resubmission strands the request of a task exactly when the task was put on supplement
      after the submission had read the tasks. */
  lemma GenericSubmitStrandsIff(actor: Actor, ctx: SubmitContext, now: Time, first: App, second: App, cur: App, t: nat)
    requires Submit(actor, ctx, now, first, second, cur).error.None?
    requires second.row.status.SupplementRequired? && second.row.submittedAt.Some?
    requires HasSupplementTask(first.tasks) && t < |cur.tasks| && cur.tasks[t].status.SupplementRequired?
    ensures Stranded(Submit(actor, ctx, now, first, second, cur).app.tasks[t])
            <==> !(t < |first.tasks| && first.tasks[t].status.SupplementRequired?)
                 && ActiveIndex(cur.tasks[t].requests).Some?
  {
    var task := cur.tasks[t];
    assert task == cur.tasks[t];
    var marked := MarkActive(task.requests, actor.id, now);
    assert ActiveIndex(marked).None?;
  }

  /** A per-task resubmission of a task with one active request never strands it. */
  lemma ResubmitStrandsNothing(actor: Actor, t: nat, open: bool, now: Time, first: App, cur: App)
    requires Resubmit(actor, t, open, now, first, cur).error.None?
    requires ActiveCount(cur.tasks[t].requests) <= 1
    ensures !Stranded(Resubmit(actor, t, open, now, first, cur).app.tasks[t])
  {
    ActiveCountOneIff(cur.tasks[t].requests);
    ActiveCountZeroIff(cur.tasks[t].requests);
  }

  /** It happens: an officer asks for a second supplement between the two reads of a generic submit
      that the guard had allowed for the first. */
  lemma StaleGenericSubmitStrandsARequest()
    ensures exists states: seq<App>, events: seq<Event> ::
              Run(states, events) && |events| == 4
              && events[3].rq.RqSubmit? && GenericSubmitAllowed(FirstRead(states, events, 3))
              && |states[4].tasks| == 5 && states[4].row.status.UnderReview? && Stranded(states[4].tasks[1])
  {
    var states, events := StrandingRun();
    assert FirstRead(states, events, 3) == states[2];
  }

  function AskedFor(task: Task, now: Time): Task {
    DecidedTask(task, OFFICER.id, AskSupplement, NO_VERDICT, None, "missing proof", now)
  }

  lemma AskingForASupplement(t: nat, now: Time, cur: App)
    requires t < |cur.tasks| && cur.row.cancelled.None? && cur.tasks[t].status.Waiting?
    ensures OfficerDecides(OFFICER, t, AskSupplement, NO_VERDICT, None, "missing proof", cur.evidences, now, cur, cur)
            == Commit(Asked(t, now, cur))
  {
    var tasks := cur.tasks[t := AskedFor(cur.tasks[t], now)];
    assert tasks[t].status.SupplementRequired?;
  }

  function Asking(t: nat): Request {
    RqOfficerDecides(OFFICER, t, AskSupplement, NO_VERDICT, None, "missing proof", [])
  }

  /** The application after an officer asked for a supplement of a task. */
  function Asked(t: nat, now: Time, cur: App): App
    requires t < |cur.tasks|
  {
    cur.(row := cur.row.(status := AppStatus.SupplementRequired, final := NO_DECISION, updatedAt := now),
         tasks := cur.tasks[t := AskedFor(cur.tasks[t], now)])
  }

  lemma ExtendByAsking(states: seq<App>, events: seq<Event>, t: nat, now: Time)
    requires Run(states, events)
    requires var cur := states[|states| - 1];
             t < |cur.tasks| && cur.row.cancelled.None? && cur.tasks[t].status.Waiting? && cur.evidences == []
    ensures var last := |states| - 1;
            Run(states + [Asked(t, now, states[last])], events + [Event(Asking(t), now, last, last)])
  {
    hide OfficerDecides, AskedFor, Asked;
    var last := |states| - 1;
    AskingForASupplement(t, now, states[last]);
    ExtendRun(states, events, Event(Asking(t), now, last, last));
  }

  /** Submitted, and then asked for a supplement of the first task. */
  lemma OnceAskedRun() returns (states: seq<App>, events: seq<Event>)
    ensures Run(states, events) && |events| == 2 && |states[2].tasks| == 5 && states[2].evidences == []
    ensures var row := states[2].row;
            && row.studentId == STUDENT.id && IndividualCity(row) && row.cancelled.None? && row.submittedAt.Some?
            && row.status.SupplementRequired? && row.final == NO_DECISION
    ensures var task := states[2].tasks[0];
            && task.criterion.Ethics? && task.status.SupplementRequired? && ActiveIndex(task.requests) == Some(0)
            && task.dueDate.None?
  {
    states, events := SubmittedRun();
    assert |states| == 2;
    hide Run;
    ExtendByAsking(states, events, 0, 2);
    states, events := states + [Asked(0, 2, states[1])], events + [Event(Asking(0), 2, 1, 1)];
  }

  /** Submitted, and then asked for supplements of the first two tasks. */
  lemma TwiceAskedRun() returns (states: seq<App>, events: seq<Event>)
    ensures Run(states, events) && |events| == 3 && |states[1].tasks| == 5
    ensures states[1].row.studentId == STUDENT.id && IndividualCity(states[1].row) && states[1].row.cancelled.None?
    ensures states[1].row.submittedAt.Some? && states[1].evidences == []
    ensures states[1].tasks == FreshTasks(CORE_CRITERIA, [])
    ensures states[2] == Asked(0, 2, states[1]) && states[3] == Asked(1, 3, states[2])
  {
    states, events := SubmittedRun();
    assert |states| == 2;
    hide AskedFor, Run;
    ExtendByAsking(states, events, 0, 2);
    states, events := states + [Asked(0, 2, states[1])], events + [Event(Asking(0), 2, 1, 1)];
    ExtendByAsking(states, events, 1, 3);
    states, events := states + [Asked(1, 3, states[2])], events + [Event(Asking(1), 3, 2, 2)];
  }

  lemma StrandingRun() returns (states: seq<App>, events: seq<Event>)
    ensures Run(states, events) && |events| == 4
    ensures events[3].rq.RqSubmit? && events[3].first == 2 && GenericSubmitAllowed(states[2])
    ensures |states[4].tasks| == 5 && states[4].row.status.UnderReview? && Stranded(states[4].tasks[1])
  {
    states, events := TwiceAskedRun();
    var s2, s3 := states[2], states[3];
    FirstTaskOnly(states[1].tasks, 2);
    StaleSubmit(s2, s3);
    hide Submit, Stranded, AskedFor;
    var e3 := Event(RqSubmit(STUDENT, OPEN_CONTEXT), 4, 2, 3);
    ExtendRun(states, events, e3);
    states, events := states + [Submit(STUDENT, OPEN_CONTEXT, 4, s2, s3, s3).app], events + [e3];
  }

  lemma FirstTaskOnly(tasks: seq<Task>, now: Time)
    requires |tasks| == 5 && forall i :: 0 <= i < 5 ==> tasks[i].status.Waiting?
    ensures Outstanding(tasks[0 := AskedFor(tasks[0], now)]) == {0}
  {
    assert 0 in Outstanding(tasks[0 := AskedFor(tasks[0], now)]);
  }

  lemma StaleSubmit(s2: App, s3: App)
    requires s2.row.studentId == STUDENT.id && IndividualCity(s2.row) && s2.row.cancelled.None?
    requires s2.row.status.SupplementRequired? && s2.row.submittedAt.Some? && s2.evidences == []
    requires |s2.tasks| == 5 && s2.tasks[0].status.SupplementRequired? && s2.tasks[1].status.Waiting?
    requires s2.tasks[1].requests == []
    requires s3 == Asked(1, 3, s2)
    ensures var outcome := Submit(STUDENT, OPEN_CONTEXT, 4, s2, s3, s3);
            && outcome.error.None? && outcome.app.row.status.UnderReview?
            && |outcome.app.tasks| == 5 && Stranded(outcome.app.tasks[1])
  {
    assert HasSupplementTask(s2.tasks);
    assert s3.tasks[1].requests[0].status.Active?;
    assert Submit(STUDENT, OPEN_CONTEXT, 4, s2, s3, s3).error.None?;
    GenericSubmitStrandsIff(STUDENT, OPEN_CONTEXT, 4, s2, s3, s3, 1);
  }
}
