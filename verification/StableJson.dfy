/** The AI evaluation's canonical text of a JSON value: members are put in the order of their names. */
module StableJson {
  import opened Sorting
  import opened Sequences
  import opened Json
  import opened JsonText

  /** A comparison of names: `localeCompare(left, right) <= 0`. It is an ordering, but may tie different names. */
  type Collation = (string, string) -> bool

  function ByName(collation: Collation): (Member, Member) -> bool {
    (m: Member, n: Member) => collation(m.name, n.name)
  }

  function SortMembers(collation: Collation, members: seq<Member>): (sorted: seq<Member>)
    ensures multiset(sorted) == multiset(members) && |sorted| == |members|
    ensures forall m :: m in sorted <==> m in members
  {
    SameElements(Sort(ByName(collation), members), members);
    Sort(ByName(collation), members)
  }

  function StableValue(collation: Collation, v: Value): string
    decreases v, 1, 0
  {
    match v
    case List(items) => "[" + StableItems(collation, items) + "]"
    case Object(members) => "{" + StableMembers(collation, v, SortMembers(collation, members)) + "}"
    case _ => Stringify(v)
  }

  function StableItems(collation: Collation, items: seq<Value>): string
    decreases items, 0, 0
  {
    if items == [] then ""
    else StableValue(collation, items[0]) + (if |items| == 1 then "" else "," + StableItems(collation, items[1..]))
  }

  function StableMembers(collation: Collation, v: Value, members: seq<Member>): string
    requires v.Object? && forall m :: m in members ==> m in v.members
    decreases v, 0, |members|
  {
    if members == [] then ""
    else
      assert members[0] in v.members;
      Quote(members[0].name) + ":" + StableValue(collation, members[0].value)
      + (if |members| == 1 then "" else "," + StableMembers(collation, v, members[1..]))
  }

  /** The value itself with every object's members in the order of their names. */
  function Canonical(collation: Collation, v: Value): Value
    decreases v, 1, 0
  {
    match v
    case List(items) => List(seq(|items|, i requires 0 <= i < |items| => Canonical(collation, items[i])))
    case Object(members) => Object(CanonicalMembers(collation, v, SortMembers(collation, members)))
    case _ => v
  }

  function CanonicalMembers(collation: Collation, v: Value, members: seq<Member>): (canonical: seq<Member>)
    requires v.Object? && forall m :: m in members ==> m in v.members
    ensures |canonical| == |members|
    ensures forall i :: 0 <= i < |members| ==> canonical[i].name == members[i].name
    ensures forall i :: 0 <= i < |members| ==>
              members[i] in v.members && canonical[i].value == Canonical(collation, members[i].value)
    decreases v, 0, |members|
  {
    if members == [] then []
    else
      assert members[0] in v.members;
      [Member(members[0].name, Canonical(collation, members[0].value))] + CanonicalMembers(collation, v, members[1..])
  }

  /** Objects have no name twice, at any depth. */
  predicate Proper(v: Value)
    decreases v
  {
    match v
    case List(items) => forall i :: 0 <= i < |items| ==> Proper(items[i])
    case Object(members) => Distinct(Names(members)) && forall i :: 0 <= i < |members| ==> Proper(members[i].value)
    case _ => true
  }

  /** Equal up to the order of object members. */
  predicate Same(v: Value, w: Value)
    decreases v
  {
    match v
    case List(items) =>
      w.List? && |items| == |w.items| && forall i :: 0 <= i < |items| ==> Same(items[i], w.items[i])
    case Object(members) =>
      w.Object? && |members| == |w.members| && forall m :: m in members ==> Matched(m, w.members)
    case _ => v == w
  }

  predicate Matched(m: Member, members: seq<Member>)
    decreases m
  {
    exists n :: n in members && n.name == m.name && Same(m.value, n.value)
  }

  /** No two different names of one object tie in the collation, at any depth. */
  predicate TellsNamesApart(collation: Collation, v: Value)
    decreases v
  {
    match v
    case List(items) => forall i :: 0 <= i < |items| ==> TellsNamesApart(collation, items[i])
    case Object(members) =>
      && NamesApart(collation, members)
      && forall i :: 0 <= i < |members| ==> TellsNamesApart(collation, members[i].value)
    case _ => true
  }

  predicate NamesApart(collation: Collation, members: seq<Member>) {
    forall i, j :: 0 <= i < j < |members| ==> !Tied(collation, members[i].name, members[j].name)
  }

  predicate Tied(collation: Collation, a: string, b: string) { collation(a, b) && collation(b, a) }

  // ---------- The canonical text is the text of the canonical value ----------

  lemma {:induction false} StableIsCanonicalText(collation: Collation, v: Value)
    ensures StableValue(collation, v) == Stringify(Canonical(collation, v))
    decreases v, 1, 0
  {
    match v {
      case List(items) =>
        StableItemsAreCanonical(collation, items);
        assert Canonical(collation, v).items == CanonicalItems(collation, items);
      case Object(members) => StableMembersAreCanonical(collation, v, SortMembers(collation, members));
      case _ =>
    }
  }

  function CanonicalItems(collation: Collation, items: seq<Value>): seq<Value> {
    seq(|items|, i requires 0 <= i < |items| => Canonical(collation, items[i]))
  }

  lemma {:induction false} StableItemsAreCanonical(collation: Collation, items: seq<Value>)
    ensures StableItems(collation, items) == StringifyItems(CanonicalItems(collation, items))
    decreases items, 0, 0
  {
    if items != [] {
      StableIsCanonicalText(collation, items[0]);
      StableItemsAreCanonical(collation, items[1..]);
      assert CanonicalItems(collation, items)[1..] == CanonicalItems(collation, items[1..]);
    }
  }

  lemma {:induction false} StableMembersAreCanonical(collation: Collation, v: Value, members: seq<Member>)
    requires v.Object? && forall m :: m in members ==> m in v.members
    ensures StableMembers(collation, v, members) == StringifyMembers(CanonicalMembers(collation, v, members))
    decreases v, 0, |members|
  {
    if members != [] {
      assert members[0] in v.members;
      StableIsCanonicalText(collation, members[0].value);
      StableMembersAreCanonical(collation, v, members[1..]);
      assert CanonicalMembers(collation, v, members)[1..] == CanonicalMembers(collation, v, members[1..]);
    }
  }

  lemma StableEqualIffCanonicalEqual(collation: Collation, v: Value, w: Value)
    ensures StableValue(collation, v) == StableValue(collation, w)
            <==> Canonical(collation, v) == Canonical(collation, w)
  {
    StableIsCanonicalText(collation, v);
    StableIsCanonicalText(collation, w);
    StringifyInjective(Canonical(collation, v), Canonical(collation, w));
  }

  // ---------- Equal text means equal up to member order ----------

  /** The canonical form of an object, member by member. */
  lemma CanonicalObject(collation: Collation, v: Value)
    requires v.Object?
    ensures var a, c := SortMembers(collation, v.members), Canonical(collation, v);
            && c.Object? && |c.members| == |a|
            && forall p :: 0 <= p < |a| ==> c.members[p] == Member(a[p].name, Canonical(collation, a[p].value))
  {
    hide SortMembers, CanonicalMembers;
    var a := SortMembers(collation, v.members);
    assert Canonical(collation, v) == Object(CanonicalMembers(collation, v, a));
  }

  lemma CanonicalMember(collation: Collation, v: Value, w: Value, m: Member) returns (n: Member)
    requires v.Object? && w.Object? && Canonical(collation, v) == Canonical(collation, w) && m in v.members
    ensures n in w.members && n.name == m.name && Canonical(collation, n.value) == Canonical(collation, m.value)
  {
    hide SortMembers, Canonical;
    CanonicalObject(collation, v);
    CanonicalObject(collation, w);
    var a, b := SortMembers(collation, v.members), SortMembers(collation, w.members);
    assert m in a;
    var p :| 0 <= p < |a| && a[p] == m;
    n := b[p];
    assert Canonical(collation, v).members[p] == Canonical(collation, w).members[p];
  }

  lemma {:induction false} SameTextIsSame(collation: Collation, v: Value, w: Value)
    requires Canonical(collation, v) == Canonical(collation, w)
    ensures Same(v, w)
    decreases v
  {
    match v {
      case List(items) =>
        forall i | 0 <= i < |items| ensures Same(items[i], w.items[i]) {
          assert Canonical(collation, items[i]) == Canonical(collation, v).items[i];
          assert Canonical(collation, w.items[i]) == Canonical(collation, w).items[i];
          SameTextIsSame(collation, items[i], w.items[i]);
        }
      case Object(members) =>
        hide SortMembers;
        assert |members| == |Canonical(collation, v).members| == |w.members|;
        forall m | m in members ensures Matched(m, w.members) {
          var n := CanonicalMember(collation, v, w, m);
          SameTextIsSame(collation, m.value, n.value);
        }
      case _ =>
    }
  }

  /** Two values with one canonical text are equal up to the order of their members. */
  lemma StableIsInjective(collation: Collation, v: Value, w: Value)
    requires StableValue(collation, v) == StableValue(collation, w)
    ensures Same(v, w)
  {
    StableEqualIffCanonicalEqual(collation, v, w);
    SameTextIsSame(collation, v, w);
  }

  // ---------- Member order does not matter, where names can be told apart ----------

  function Names(members: seq<Member>): seq<string> { Map((m: Member) => m.name, members) }

  lemma NameListed(members: seq<Member>, name: string)
    ensures name in Names(members) <==> exists m :: m in members && m.name == name
  {
    if m :| m in members && m.name == name {
      var i :| 0 <= i < |members| && members[i] == m;
      assert Names(members)[i] == name;
    }
  }

  lemma OneMemberPerName(members: seq<Member>, m: Member, n: Member)
    requires Distinct(Names(members)) && m in members && n in members && m.name == n.name
    ensures m == n
  {
    var i :| 0 <= i < |members| && members[i] == m;
    var j :| 0 <= j < |members| && members[j] == n;
    assert Names(members)[i] == Names(members)[j];
  }

  lemma SortedNames(collation: Collation, members: seq<Member>)
    requires Ordering(collation)
    ensures Sorted(collation, Names(SortMembers(collation, members)))
    ensures multiset(Names(SortMembers(collation, members))) == multiset(Names(members))
  {
    OrderingByName(collation);
    SortSorts(ByName(collation), members);
    NamesOfSame(SortMembers(collation, members), members);
  }

  lemma OrderingByName(collation: Collation)
    requires Ordering(collation)
    ensures Ordering(ByName(collation))
  {
    var leq := ByName(collation);
    forall m, n ensures leq(m, n) || leq(n, m) {
      assert collation(m.name, n.name) || collation(n.name, m.name);
    }
    forall l, m, n | leq(l, m) && leq(m, n) ensures leq(l, n) {
      assert collation(l.name, m.name) && collation(m.name, n.name);
    }
  }

  lemma NamesOfSame(a: seq<Member>, b: seq<Member>)
    requires multiset(a) == multiset(b)
    ensures multiset(Names(a)) == multiset(Names(b))
    ensures Distinct(Names(a)) ==> Distinct(Names(b))
  {
    hide Distinct;
    MapAnyOrder((m: Member) => m.name, a, b);
    if Distinct(Names(a)) {
      DistinctAnyOrder(Names(a), Names(b));
    }
  }

  lemma SameNames(a: seq<Member>, b: seq<Member>)
    requires Distinct(Names(a)) && Distinct(Names(b)) && |a| == |b|
    requires forall m :: m in a ==> Matched(m, b)
    ensures multiset(Names(a)) == multiset(Names(b))
  {
    hide Same, Distinct;
    forall x | x in Names(a) ensures x in Names(b) {
      NameListed(a, x);
      NameListed(b, x);
    }
    DistinctSameSize(Names(a), Names(b));
  }

  /** Objects with the same names list them alike once sorted. */
  lemma SameNamesSortAlike(collation: Collation, a: seq<Member>, b: seq<Member>)
    requires Ordering(collation) && multiset(Names(a)) == multiset(Names(b))
    requires NamesApart(collation, a)
    ensures Names(SortMembers(collation, a)) == Names(SortMembers(collation, b))
  {
    hide SortMembers, Sorted;
    SortedNames(collation, a);
    SortedNames(collation, b);
    UntiedAnyOrder(collation, Names(a), Names(SortMembers(collation, a)));
    SortedIsUnique(collation, Names(SortMembers(collation, a)), Names(SortMembers(collation, b)));
  }

  /** What holds of an object holds of its members. */
  lemma OfMember(collation: Collation, members: seq<Member>, m: Member)
    requires m in members
    ensures Proper(Object(members)) ==> Proper(m.value)
    ensures TellsNamesApart(collation, Object(members)) ==> TellsNamesApart(collation, m.value)
  {
  }

  lemma MatchIsSame(m: Member, members: seq<Member>, n: Member)
    requires Matched(m, members) && Distinct(Names(members)) && n in members && n.name == m.name
    ensures Same(m.value, n.value)
  {
    hide Distinct, Names;
    var found :| found in members && found.name == m.name && Same(m.value, found.value);
    OneMemberPerName(members, found, n);
  }

  lemma SameMembersSameText(collation: Collation, v: Value, w: Value)
    requires v.Object? && w.Object?
    requires var a, b := SortMembers(collation, v.members), SortMembers(collation, w.members);
             && Names(a) == Names(b)
             && forall p :: 0 <= p < |a| && p < |b| ==>
                Canonical(collation, a[p].value) == Canonical(collation, b[p].value)
    ensures Canonical(collation, v) == Canonical(collation, w)
  {
    hide SortMembers, Canonical;
    CanonicalObject(collation, v);
    CanonicalObject(collation, w);
    var a, b := SortMembers(collation, v.members), SortMembers(collation, w.members);
    assert forall p :: 0 <= p < |a| ==> a[p].name == Names(a)[p] && b[p].name == Names(b)[p];
    assert Canonical(collation, v).members == Canonical(collation, w).members;
  }

  lemma {:induction false} SameHasSameText(collation: Collation, v: Value, w: Value)
    requires Ordering(collation) && Proper(v) && Proper(w) && TellsNamesApart(collation, v)
    requires Same(v, w)
    ensures Canonical(collation, v) == Canonical(collation, w)
    decreases v
  {
    match v {
      case List(items) =>
        forall i | 0 <= i < |items| ensures Canonical(collation, items[i]) == Canonical(collation, w.items[i]) {
          SameHasSameText(collation, items[i], w.items[i]);
        }
        assert Canonical(collation, v).items == Canonical(collation, w).items;
      case Object(members) =>
        SameNames(members, w.members);
        SameNamesSortAlike(collation, members, w.members);
        hide SortMembers, Canonical, Distinct, NamesApart, Ordering;
        var a, b := SortMembers(collation, members), SortMembers(collation, w.members);
        forall p | 0 <= p < |a| && p < |b|
          ensures Canonical(collation, a[p].value) == Canonical(collation, b[p].value)
        {
          assert a[p].name == Names(a)[p] == Names(b)[p] && a[p] in members && b[p] in w.members;
          MatchIsSame(a[p], w.members, b[p]);
          OfMember(collation, members, a[p]);
          OfMember(collation, w.members, b[p]);
          SameHasSameText(collation, a[p].value, b[p].value);
        }
        SameMembersSameText(collation, v, w);
      case _ =>
    }
  }

  // ---------- Where two names tie, member order shows ----------

  lemma {:induction false} SameReflexive(v: Value)
    ensures Same(v, v)
  {
    match v {
      case List(items) =>
        forall i | 0 <= i < |items| ensures Same(items[i], items[i]) { SameReflexive(items[i]); }
      case Object(members) =>
        forall m | m in members ensures Matched(m, members) { SameReflexive(m.value); }
      case _ =>
    }
  }

  function ToFront(members: seq<Member>, k: nat): (moved: seq<Member>)
    requires k < |members|
    ensures multiset(moved) == multiset(members) && |moved| == |members|
  {
    assert members == members[..k] + [members[k]] + members[k + 1..];
    [members[k]] + (members[..k] + members[k + 1..])
  }

  lemma MovedIsSame(members: seq<Member>, k: nat)
    requires k < |members| && Proper(Object(members))
    ensures Proper(Object(ToFront(members, k))) && Same(Object(members), Object(ToFront(members, k)))
  {
    var moved := ToFront(members, k);
    hide ToFront, Names, Distinct;
    SameElements(members, moved);
    NamesOfSame(members, moved);
    forall m | m in members ensures Matched(m, moved) {
      SameReflexive(m.value);
    }
    forall i | 0 <= i < |moved| ensures Proper(moved[i].value) {
      assert moved[i] in members;
    }
    hide Matched;
  }

  /** x stands before y. */
  predicate Before(s: seq<Member>, x: Member, y: Member) {
    exists p, q :: 0 <= p < q < |s| && s[p] == x && s[q] == y
  }

  lemma BeforeInLonger(s: seq<Member>, first: Member, x: Member, y: Member)
    requires Before(s, x, y)
    ensures Before([first] + s, x, y)
  {
    var p, q :| 0 <= p < q < |s| && s[p] == x && s[q] == y;
    assert ([first] + s)[p + 1] == x && ([first] + s)[q + 1] == y;
  }

  lemma BeforeAll(x: Member, s: seq<Member>, y: Member)
    requires y in s
    ensures Before([x] + s, x, y)
  {
    var q :| 0 <= q < |s| && s[q] == y;
    assert ([x] + s)[0] == x && ([x] + s)[q + 1] == y;
  }

  lemma {:induction false} InsertedBefore(collation: Collation, x: Member, s: seq<Member>, y: Member)
    requires Ordering(collation) && Sorted(ByName(collation), s) && y in s && collation(x.name, y.name)
    ensures Before(Insert(ByName(collation), x, s), x, y)
  {
    hide Ordering, Sorted, Before;
    var leq := ByName(collation);
    if leq(x, s[0]) {
      BeforeAll(x, s, y);
    } else {
      assert s == [s[0]] + s[1..] && y in s[1..];
      RestIsLike(leq, s);
      InsertedBefore(collation, x, s[1..], y);
      BeforeInLonger(Insert(leq, x, s[1..]), s[0], x, y);
    }
  }

  lemma FrontStaysBefore(collation: Collation, members: seq<Member>, k: nat, l: nat)
    requires Ordering(collation) && k < |members| && l < |members| && k != l
    requires collation(members[k].name, members[l].name)
    ensures Before(SortMembers(collation, ToFront(members, k)), members[k], members[l])
  {
    var moved := ToFront(members, k);
    var rest := moved[1..];
    assert rest == members[..k] + members[k + 1..];
    assert members[l] in rest by {
      assert rest[if l < k then l else l - 1] == members[l];
    }
    OrderingByName(collation);
    SortSorts(ByName(collation), rest);
    SameElements(Sort(ByName(collation), rest), rest);
    InsertedBefore(collation, members[k], Sort(ByName(collation), rest), members[l]);
  }

  lemma {:induction false} NotBeforeBoth(a: seq<Member>, b: seq<Member>, x: Member, y: Member)
    requires Distinct(Names(a)) && Names(a) == Names(b) && Before(a, x, y)
    ensures !Before(b, y, x)
  {
    var names := Names(a);
    var p, q :| 0 <= p < q < |a| && a[p] == x && a[q] == y;
    forall q', p' | 0 <= q' < p' < |b| ensures !(b[q'] == y && b[p'] == x) {
      assert names[q'] == b[q'].name && names[p'] == b[p'].name && names[p] == x.name && names[q] == y.name;
    }
  }

  lemma CanonicalNames(collation: Collation, v: Value, w: Value)
    requires v.Object? && w.Object? && Canonical(collation, v) == Canonical(collation, w)
    ensures Names(SortMembers(collation, v.members)) == Names(SortMembers(collation, w.members))
  {
    hide SortMembers, Canonical;
    CanonicalObject(collation, v);
    CanonicalObject(collation, w);
    var a, b := SortMembers(collation, v.members), SortMembers(collation, w.members);
    var c, d := Canonical(collation, v).members, Canonical(collation, w).members;
    assert Names(a) == Names(c) && Names(b) == Names(d);
  }

  /** Two tied members of one object: bringing one or the other to the front gives another text. */
  lemma TiedMembersShow(collation: Collation, members: seq<Member>, k: nat, l: nat) returns (w: Value)
    requires Ordering(collation) && Proper(Object(members)) && k < l < |members|
    requires Tied(collation, members[k].name, members[l].name)
    ensures Proper(w) && Same(Object(members), w) && Canonical(collation, w) != Canonical(collation, Object(members))
  {
    var first, second := Object(ToFront(members, k)), Object(ToFront(members, l));
    MovedIsSame(members, k);
    MovedIsSame(members, l);
    if Canonical(collation, first) == Canonical(collation, second) {
      hide SortMembers, ToFront;
      CanonicalNames(collation, first, second);
      FrontStaysBefore(collation, members, k, l);
      FrontStaysBefore(collation, members, l, k);
      var a := SortMembers(collation, first.members);
      NamesOfSame(members, a);
      NotBeforeBoth(a, SortMembers(collation, second.members), members[k], members[l]);
      assert false;
    }
    w := if Canonical(collation, first) == Canonical(collation, Object(members)) then second else first;
  }

  lemma ChangedMemberIsSame(members: seq<Member>, k: nat, inner: Value)
    requires Proper(Object(members)) && k < |members| && Proper(inner) && Same(members[k].value, inner)
    ensures var w := Object(members[k := Member(members[k].name, inner)]);
            Proper(w) && Same(Object(members), w)
  {
    var changed := members[k := Member(members[k].name, inner)];
    assert Names(changed) == Names(members);
    forall m | m in members ensures Matched(m, changed) {
      var i :| 0 <= i < |members| && members[i] == m;
      SameReflexive(m.value);
      assert changed[i] in changed && Same(m.value, changed[i].value);
    }
  }

  lemma InnerMemberShows(collation: Collation, members: seq<Member>, k: nat, inner: Value) returns (w: Value)
    requires Proper(Object(members)) && k < |members| && Proper(inner) && Same(members[k].value, inner)
    requires Canonical(collation, inner) != Canonical(collation, members[k].value)
    ensures Proper(w) && Same(Object(members), w) && Canonical(collation, w) != Canonical(collation, Object(members))
  {
    var changed := members[k := Member(members[k].name, inner)];
    w := Object(changed);
    ChangedMemberIsSame(members, k, inner);
    if Canonical(collation, w) == Canonical(collation, Object(members)) {
      var n := CanonicalMember(collation, Object(members), w, members[k]);
      OneMemberPerName(changed, n, changed[k]);
      assert false;
    }
  }

  lemma InnerItemShows(collation: Collation, items: seq<Value>, k: nat, inner: Value) returns (w: Value)
    requires Proper(List(items)) && k < |items| && Proper(inner) && Same(items[k], inner)
    requires Canonical(collation, inner) != Canonical(collation, items[k])
    ensures Proper(w) && Same(List(items), w) && Canonical(collation, w) != Canonical(collation, List(items))
  {
    w := List(items[k := inner]);
    ChangedItemIsSame(items, k, inner);
    CanonicalItem(collation, items, k);
    CanonicalItem(collation, items[k := inner], k);
    hide Canonical, Proper, Same;
  }

  lemma ChangedItemIsSame(items: seq<Value>, k: nat, inner: Value)
    requires Proper(List(items)) && k < |items| && Proper(inner) && Same(items[k], inner)
    ensures Proper(List(items[k := inner])) && Same(List(items), List(items[k := inner]))
  {
    forall i | 0 <= i < |items| ensures Same(items[i], items[k := inner][i]) {
      SameReflexive(items[i]);
    }
  }

  lemma CanonicalItem(collation: Collation, items: seq<Value>, k: nat)
    requires k < |items|
    ensures var c := Canonical(collation, List(items));
            c.List? && k < |c.items| && c.items[k] == Canonical(collation, items[k])
  {
  }

  lemma {:induction false} TiesShow(collation: Collation, v: Value) returns (w: Value)
    requires Ordering(collation) && Proper(v) && !TellsNamesApart(collation, v)
    ensures Proper(w) && Same(v, w) && Canonical(collation, w) != Canonical(collation, v)
    decreases v
  {
    match v {
      case List(items) =>
        var k :| 0 <= k < |items| && !TellsNamesApart(collation, items[k]);
        var inner := TiesShow(collation, items[k]);
        w := InnerItemShows(collation, items, k, inner);
      case Object(members) =>
        if !NamesApart(collation, members) {
          var k, l :| 0 <= k < l < |members| && Tied(collation, members[k].name, members[l].name);
          w := TiedMembersShow(collation, members, k, l);
        } else {
          var k :| 0 <= k < |members| && !TellsNamesApart(collation, members[k].value);
          var inner := TiesShow(collation, members[k].value);
          w := InnerMemberShows(collation, members, k, inner);
        }
    }
  }

  /** A value has the same text in every order of its members exactly if the collation tells the names of
      each of its objects apart. */
  lemma StableIgnoresOrderIff(collation: Collation, v: Value)
    requires Ordering(collation) && Proper(v)
    ensures (forall w :: Proper(w) && Same(v, w) ==> StableValue(collation, w) == StableValue(collation, v))
            <==> TellsNamesApart(collation, v)
  {
    if TellsNamesApart(collation, v) {
      forall w | Proper(w) && Same(v, w) ensures StableValue(collation, w) == StableValue(collation, v) {
        SameHasSameText(collation, v, w);
        StableEqualIffCanonicalEqual(collation, w, v);
      }
    } else {
      var w := TiesShow(collation, v);
      StableEqualIffCanonicalEqual(collation, w, v);
    }
  }

  // ---------- What the text is a text of ----------

  /** Every object, at any depth, has its names in order. */
  predicate InOrder(collation: Collation, v: Value)
    decreases v
  {
    match v
    case List(items) => forall i :: 0 <= i < |items| ==> InOrder(collation, items[i])
    case Object(members) =>
      && (forall i, j :: 0 <= i < j < |members| ==> collation(members[i].name, members[j].name))
      && forall i :: 0 <= i < |members| ==> InOrder(collation, members[i].value)
    case _ => true
  }

  lemma {:induction false} CanonicalIsInOrder(collation: Collation, v: Value)
    requires Ordering(collation)
    ensures InOrder(collation, Canonical(collation, v))
    decreases v
  {
    hide Ordering;
    match v {
      case List(items) =>
        forall i | 0 <= i < |items| ensures InOrder(collation, Canonical(collation, items[i])) {
          CanonicalIsInOrder(collation, items[i]);
        }
      case Object(members) =>
        CanonicalObject(collation, v);
        SortedNames(collation, members);
        var a, c := SortMembers(collation, members), Canonical(collation, v).members;
        hide SortMembers, Canonical;
        forall p | 0 <= p < |a| ensures InOrder(collation, c[p].value) {
          assert a[p] in members;
          CanonicalIsInOrder(collation, a[p].value);
        }
        assert forall p :: 0 <= p < |a| ==> c[p].name == Names(a)[p];
      case _ =>
    }
  }

  lemma {:induction false} CanonicalIsSame(collation: Collation, v: Value)
    ensures Same(v, Canonical(collation, v))
    decreases v
  {
    match v {
      case List(items) =>
        forall i | 0 <= i < |items| ensures Same(items[i], Canonical(collation, items[i])) {
          CanonicalIsSame(collation, items[i]);
        }
      case Object(members) =>
        CanonicalObject(collation, v);
        var a, c := SortMembers(collation, members), Canonical(collation, v).members;
        hide SortMembers, Canonical;
        forall m | m in members ensures Matched(m, c) {
          assert m in a;
          var p :| 0 <= p < |a| && a[p] == m;
          CanonicalIsSame(collation, m.value);
          assert c[p] in c && c[p].name == m.name;
        }
      case _ =>
    }
  }

  /** The text is a JSON text of the same value with the names of every object in order. */
  lemma StableTextMeans(collation: Collation, v: Value) returns (w: Value)
    requires Ordering(collation)
    ensures Same(v, w) && InOrder(collation, w) && IsJson(StableValue(collation, v), w)
  {
    w := Canonical(collation, v);
    CanonicalIsSame(collation, v);
    CanonicalIsInOrder(collation, v);
    StableIsCanonicalText(collation, v);
    StringifyIsJson(w);
  }
}
