/** The order of strings by their characters. */
module TextOrder {
  import opened Sorting

  predicate NotAfter(a: string, b: string) {
    a == "" || (b != "" && (a[0] < b[0] || (a[0] == b[0] && NotAfter(a[1..], b[1..]))))
  }

  lemma {:induction false} Total(a: string, b: string)
    ensures NotAfter(a, b) || NotAfter(b, a)
    ensures NotAfter(a, b) && NotAfter(b, a) ==> a == b
  {
    if a != "" && b != "" && a[0] == b[0] {
      Total(a[1..], b[1..]);
      assert a == [a[0]] + a[1..] && b == [b[0]] + b[1..];
    }
  }

  lemma {:induction false} Transitive(a: string, b: string, c: string)
    requires NotAfter(a, b) && NotAfter(b, c)
    ensures NotAfter(a, c)
  {
    if a != "" && a[0] == b[0] == c[0] {
      Transitive(a[1..], b[1..], c[1..]);
    }
  }

  /** Comparing by an injective text is an ordering without ties. */
  function By<T>(key: T -> string): (T, T) -> bool { (x: T, y: T) => NotAfter(key(x), key(y)) }

  ghost predicate Injective<T(!new)>(key: T -> string) {
    forall x, y :: key(x) == key(y) ==> x == y
  }

  lemma ByIsOrdering<T(!new)>(key: T -> string)
    ensures Ordering(By(key))
  {
    forall x, y ensures By(key)(x, y) || By(key)(y, x) {
      Total(key(x), key(y));
    }
    forall x, y, z | By(key)(x, y) && By(key)(y, z) ensures By(key)(x, z) {
      Transitive(key(x), key(y), key(z));
    }
  }

  lemma ByTellsApart<T(!new)>(key: T -> string, s: seq<T>)
    requires Injective(key)
    ensures Untied(By(key), s)
  {
    forall i, j | 0 <= i < |s| && 0 <= j < |s| && By(key)(s[i], s[j]) && By(key)(s[j], s[i]) ensures s[i] == s[j] {
      Total(key(s[i]), key(s[j]));
    }
  }
}
