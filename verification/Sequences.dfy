/** Facts about lists as collections: what does not depend on their order. */
module Sequences {
  import opened Sorting

  function Map<T, U>(f: T -> U, s: seq<T>): (r: seq<U>)
    ensures |r| == |s|
    ensures forall i :: 0 <= i < |s| ==> r[i] == f(s[i])
  {
    seq(|s|, i requires 0 <= i < |s| => f(s[i]))
  }

  function Without<T>(s: seq<T>, k: nat): (rest: seq<T>)
    requires k < |s|
    ensures multiset(s) == multiset([s[k]]) + multiset(rest)
  {
    assert s == s[..k] + [s[k]] + s[k + 1..];
    s[..k] + s[k + 1..]
  }

  lemma MapWithout<T, U>(f: T -> U, s: seq<T>, k: nat)
    requires k < |s|
    ensures multiset(Map(f, s)) == multiset([f(s[k])]) + multiset(Map(f, Without(s, k)))
  {
    assert Map(f, Without(s, k)) == Without(Map(f, s), k);
  }

  lemma {:induction false} MapAnyOrder<T, U>(f: T -> U, a: seq<T>, b: seq<T>)
    requires multiset(a) == multiset(b)
    ensures multiset(Map(f, a)) == multiset(Map(f, b))
  {
    SameElements(a, b);
    if a != [] {
      assert a[0] in b;
      var k :| 0 <= k < |b| && b[k] == a[0];
      assert multiset(Without(a, 0)) == multiset(a) - multiset([a[0]]) == multiset(Without(b, k));
      MapAnyOrder(f, Without(a, 0), Without(b, k));
      MapWithout(f, a, 0);
      MapWithout(f, b, k);
    }
  }

  lemma AddToBoth<T>(own: multiset<T>, a: multiset<T>, b: multiset<T>, c: multiset<T>, d: multiset<T>)
    requires a + b == c + d
    ensures own + a + b == own + c + d
  {
    assert own + a + b == own + (a + b) && own + c + d == own + (c + d);
  }

  lemma SubmultisetOfSameSize<T>(a: multiset<T>, b: multiset<T>)
    requires a <= b && |a| == |b|
    ensures a == b
  {
    assert b == a + (b - a);
    assert |b - a| == 0;
  }

  function Count<T>(p: T -> bool, s: seq<T>): nat {
    if s == [] then 0 else (if p(s[0]) then 1 else 0) + Count(p, s[1..])
  }

  lemma WithoutRest<T>(s: seq<T>, k: nat)
    requires 0 < k < |s|
    ensures Without(s, k) == [s[0]] + Without(s[1..], k - 1)
  {
  }

  lemma {:induction false} CountWithout<T>(p: T -> bool, s: seq<T>, k: nat)
    requires k < |s|
    ensures Count(p, s) == (if p(s[k]) then 1 else 0) + Count(p, Without(s, k))
  {
    if k == 0 {
      assert Without(s, 0) == s[1..];
    } else {
      CountWithout(p, s[1..], k - 1);
      hide Without;
      WithoutRest(s, k);
      assert Without(s, k)[1..] == Without(s[1..], k - 1);
    }
  }

  lemma {:induction false} CountAnyOrder<T>(p: T -> bool, a: seq<T>, b: seq<T>)
    requires multiset(a) == multiset(b)
    ensures Count(p, a) == Count(p, b)
  {
    SameElements(a, b);
    if a != [] {
      assert a[0] in b;
      var k :| 0 <= k < |b| && b[k] == a[0];
      assert multiset(Without(a, 0)) == multiset(a) - multiset([a[0]]) == multiset(Without(b, k));
      CountAnyOrder(p, Without(a, 0), Without(b, k));
      CountWithout(p, a, 0);
      CountWithout(p, b, k);
    }
  }

  lemma {:induction false} CountFinds<T>(p: T -> bool, s: seq<T>)
    ensures Count(p, s) > 0 <==> exists x :: x in s && p(x)
  {
    if s != [] {
      CountFinds(p, s[1..]);
      assert forall x :: x in s <==> x == s[0] || x in s[1..];
    }
  }

  lemma {:induction false} CountFindsTwo<T>(p: T -> bool, s: seq<T>)
    ensures Count(p, s) > 1 <==> exists i, j :: 0 <= i < j < |s| && p(s[i]) && p(s[j])
  {
    if s != [] {
      var rest := s[1..];
      CountFindsTwo(p, rest);
      CountFinds(p, rest);
      if i, j :| 0 <= i < j < |rest| && p(rest[i]) && p(rest[j]) {
        assert p(s[i + 1]) && p(s[j + 1]);
      }
      if x :| x in rest && p(x) && p(s[0]) {
        var j :| 0 <= j < |rest| && rest[j] == x;
        assert p(s[0]) && p(s[j + 1]);
      }
      if i, j :| 0 <= i < j < |s| && p(s[i]) && p(s[j]) {
        assert rest[j - 1] == s[j] && rest[j - 1] in rest;
        assert i > 0 ==> rest[i - 1] == s[i];
      }
    }
  }

  /** More elements, more of them meet p. */
  lemma {:induction false} CountOfMore<T>(p: T -> bool, a: seq<T>, b: seq<T>)
    requires multiset(a) <= multiset(b)
    ensures Count(p, a) <= Count(p, b)
  {
    if a != [] {
      assert a[0] in multiset(a);
      var k :| 0 <= k < |b| && b[k] == a[0];
      assert multiset(Without(a, 0)) == multiset(a) - multiset([a[0]]);
      assert multiset(Without(b, k)) == multiset(b) - multiset([a[0]]);
      CountOfMore(p, Without(a, 0), Without(b, k));
      CountWithout(p, a, 0);
      CountWithout(p, b, k);
    }
  }

  function Filter<T>(p: T -> bool, s: seq<T>): (r: seq<T>)
    ensures |r| == Count(p, s)
    ensures forall x :: x in r ==> x in s && p(x)
  {
    if s == [] then [] else (if p(s[0]) then [s[0]] else []) + Filter(p, s[1..])
  }

  lemma {:induction false} CountSnoc<T>(p: T -> bool, s: seq<T>, x: T)
    ensures Count(p, s + [x]) == Count(p, s) + if p(x) then 1 else 0
  {
    if s != [] {
      assert (s + [x])[1..] == s[1..] + [x];
      CountSnoc(p, s[1..], x);
    }
  }

  function Both<T>(p: T -> bool, q: T -> bool): T -> bool { x => p(x) && q(x) }

  lemma {:induction false} CountFiltered<T>(p: T -> bool, q: T -> bool, s: seq<T>)
    ensures Count(p, Filter(q, s)) == Count(Both(q, p), s)
  {
    if s != [] {
      CountFiltered(p, q, s[1..]);
      var rest := Filter(q, s[1..]);
      if q(s[0]) {
        assert Filter(q, s)[1..] == rest;
      } else {
        assert Filter(q, s) == rest;
      }
    }
  }

  lemma {:induction false} CountSame<T>(p: T -> bool, q: T -> bool, s: seq<T>)
    requires forall x :: x in s ==> p(x) == q(x)
    ensures Count(p, s) == Count(q, s)
  {
    if s != [] {
      CountSame(p, q, s[1..]);
    }
  }

  function Sum<T>(f: T -> nat, s: seq<T>): nat {
    if s == [] then 0 else f(s[0]) + Sum(f, s[1..])
  }

  lemma {:induction false} SumSnoc<T>(f: T -> nat, s: seq<T>, x: T)
    ensures Sum(f, s + [x]) == Sum(f, s) + f(x)
  {
    if s != [] {
      assert (s + [x])[1..] == s[1..] + [x];
      SumSnoc(f, s[1..], x);
    }
  }

  lemma {:induction false} InFilter<T>(p: T -> bool, s: seq<T>)
    ensures forall x :: x in Filter(p, s) <==> x in s && p(x)
  {
    if s != [] {
      InFilter(p, s[1..]);
      assert forall x :: x in s <==> x == s[0] || x in s[1..];
    }
  }

  /** A narrower condition counts as many exactly if it leaves nothing out. */
  lemma {:induction false} CountNarrowed<T>(narrow: T -> bool, wide: T -> bool, s: seq<T>)
    requires forall x :: x in s && narrow(x) ==> wide(x)
    ensures Count(narrow, s) <= Count(wide, s)
    ensures Count(narrow, s) == Count(wide, s) <==> forall x :: x in s && wide(x) ==> narrow(x)
  {
    if s != [] {
      CountNarrowed(narrow, wide, s[1..]);
      assert forall x :: x in s <==> x == s[0] || x in s[1..];
    }
  }

  lemma CountNothing<T>(p: T -> bool)
    ensures Count(p, []) == 0
  {
  }

  lemma SumNothing<T>(f: T -> nat)
    ensures Sum(f, []) == 0
  {
  }

  predicate Distinct<T(==)>(s: seq<T>) {
    forall i, j :: 0 <= i < j < |s| ==> s[i] != s[j]
  }

  lemma {:induction false} CountedOnce<T>(s: seq<T>, x: T)
    requires Distinct(s)
    ensures multiset(s)[x] == if x in s then 1 else 0
  {
    if s != [] {
      CountedOnce(s[1..], x);
      assert s == [s[0]] + s[1..];
      assert x in s <==> x == s[0] || x in s[1..];
    }
  }

  lemma CountedTwice<T>(s: seq<T>, i: nat, j: nat)
    requires i < j < |s| && s[i] == s[j]
    ensures multiset(s)[s[i]] >= 2
  {
    assert s == s[..j] + [s[j]] + s[j + 1..];
    assert s[..j][i] in multiset(s[..j]);
  }

  lemma DistinctAnyOrder<T>(a: seq<T>, b: seq<T>)
    requires multiset(a) == multiset(b) && Distinct(a)
    ensures Distinct(b)
  {
    forall i, j | 0 <= i < j < |b| ensures b[i] != b[j] {
      CountedOnce(a, b[i]);
      if b[i] == b[j] {
        CountedTwice(b, i, j);
        assert false;
      }
    }
  }

  function ElementsOf<T>(s: seq<T>): set<T> { set x | x in s }

  lemma {:induction false} DistinctSize<T>(s: seq<T>)
    requires Distinct(s)
    ensures |ElementsOf(s)| == |s|
  {
    if s != [] {
      DistinctSize(s[1..]);
      assert ElementsOf(s) == {s[0]} + ElementsOf(s[1..]);
      assert s[0] !in s[1..];
    }
  }

  lemma {:induction false} SubsetSize<T>(a: set<T>, b: set<T>)
    requires a <= b
    ensures |a| <= |b| && (|a| == |b| ==> a == b)
  {
    if a != {} {
      var x :| x in a;
      SubsetSize(a - {x}, b - {x});
    } else if b != {} {
      var x :| x in b;
      assert b == (b - {x}) + {x};
    }
  }

  lemma DistinctSameElements<T(!new)>(a: seq<T>, b: seq<T>)
    requires Distinct(a) && Distinct(b) && forall x :: x in a <==> x in b
    ensures multiset(a) == multiset(b)
  {
    forall x ensures multiset(a)[x] == multiset(b)[x] {
      CountedOnce(a, x);
      CountedOnce(b, x);
    }
  }

  /** Two lists without repetition, of one length, the first within the second, hold the same. */
  lemma DistinctSameSize<T(!new)>(a: seq<T>, b: seq<T>)
    requires Distinct(a) && Distinct(b) && |a| == |b| && forall x :: x in a ==> x in b
    ensures multiset(a) == multiset(b)
  {
    DistinctSize(a);
    DistinctSize(b);
    SubsetSize(ElementsOf(a), ElementsOf(b));
    forall x ensures x in a <==> x in b {
      assert x in a <==> x in ElementsOf(a);
      assert x in b <==> x in ElementsOf(b);
    }
    DistinctSameElements(a, b);
  }

  /** The elements with a property. */
  function Those<T(==)>(p: T -> bool, s: seq<T>): set<T> { set x | x in s && p(x) }

  lemma {:induction false} DistinctCount<T>(p: T -> bool, s: seq<T>)
    requires Distinct(s)
    ensures |Those(p, s)| == Count(p, s)
  {
    if s != [] {
      DistinctCount(p, s[1..]);
      var rest := Those(p, s[1..]);
      assert s[0] !in s[1..];
      assert Those(p, s) == if p(s[0]) then rest + {s[0]} else rest;
    }
  }
}
