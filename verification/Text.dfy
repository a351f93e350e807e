/** The few text operations the models read: trimming, and decimal row numbers used as keys. */
module Text {
  import opened ReviewTypes

  /** The characters `String.prototype.trim` removes. */
  predicate Blank(c: char) {
    c in {'\t', '\n', '\r', ' ', '\U{000B}', '\U{000C}', '\U{00A0}', '\U{1680}', '\U{2028}', '\U{2029}',
          '\U{202F}', '\U{205F}', '\U{3000}', '\U{FEFF}'}
    || '\U{2000}' <= c <= '\U{200A}'
  }

  function Trim(s: string): (t: string)
    ensures |t| <= |s|
    ensures t != "" ==> !Blank(t[0]) && !Blank(t[|t| - 1])
    ensures s != "" && !Blank(s[0]) && !Blank(s[|s| - 1]) ==> t == s
    decreases |s|
  {
    if s == "" then ""
    else if Blank(s[0]) then Trim(s[1..])
    else if Blank(s[|s| - 1]) then Trim(s[..|s| - 1])
    else s
  }

  predicate BlankOutside(s: string, i: nat, j: nat) {
    i <= j <= |s| && forall k :: 0 <= k < |s| && !(i <= k < j) ==> Blank(s[k])
  }

  lemma BlankInFront(s: string, i: nat, j: nat)
    requires s != "" && Blank(s[0]) && BlankOutside(s[1..], i, j)
    ensures BlankOutside(s, i + 1, j + 1) && s[1..][i..j] == s[i + 1..j + 1]
  {
    hide Blank;
    forall k | 0 <= k < |s| && !(i + 1 <= k < j + 1) ensures Blank(s[k]) {
      assert k > 0 ==> s[1..][k - 1] == s[k];
    }
  }

  lemma BlankBehind(s: string, i: nat, j: nat)
    requires s != "" && Blank(s[|s| - 1]) && BlankOutside(s[..|s| - 1], i, j)
    ensures BlankOutside(s, i, j) && s[..|s| - 1][i..j] == s[i..j]
  {
    hide Blank;
    forall k | 0 <= k < |s| && !(i <= k < j) ensures Blank(s[k]) {
      assert k < |s| - 1 ==> s[..|s| - 1][k] == s[k];
    }
  }

  /** What is trimmed off is blank: the rest starts at i and ends before j. */
  lemma {:induction false} TrimmedOff(s: string) returns (i: nat, j: nat)
    ensures BlankOutside(s, i, j) && Trim(s) == s[i..j]
    decreases |s|
  {
    hide Blank;
    i, j := 0, |s|;
    if s != "" && Blank(s[0]) {
      i, j := TrimmedOff(s[1..]);
      BlankInFront(s, i, j);
      i, j := i + 1, j + 1;
    } else if s != "" && Blank(s[|s| - 1]) {
      i, j := TrimmedOff(s[..|s| - 1]);
      BlankBehind(s, i, j);
    }
  }

  /** JavaScript's truth of a nullable string. */
  predicate Truthy(s: Option<string>) { s.Some? && s.value != "" }

  function NonEmpty(s: string): Option<string> { if s == "" then None else Some(s) }

  predicate IsDigit(c: char) { '0' <= c <= '9' }

  function Digit(d: nat): (c: char)
    requires d < 10
    ensures IsDigit(c) && c as int - '0' as int == d
  {
    '0' + d as char
  }

  /** `String(n)` of a natural number. */
  function Decimal(n: nat): (s: string)
    ensures s != ""
  {
    if n < 10 then [Digit(n)] else Decimal(n / 10) + [Digit(n % 10)]
  }

  predicate AllDigits(s: string) { s != "" && forall i :: 0 <= i < |s| ==> IsDigit(s[i]) }

  /** `Number(s)` of a string of digits. */
  function DigitsValue(s: string): nat
    requires forall i :: 0 <= i < |s| ==> IsDigit(s[i])
  {
    if s == "" then 0
    else
      assert IsDigit(s[|s| - 1]);
      10 * DigitsValue(s[..|s| - 1]) + (s[|s| - 1] as int - '0' as int)
  }

  lemma {:induction false} DecimalRoundTrip(n: nat)
    ensures AllDigits(Decimal(n)) && DigitsValue(Decimal(n)) == n
  {
    if n >= 10 {
      DecimalRoundTrip(n / 10);
      var s := Decimal(n);
      assert s[..|s| - 1] == Decimal(n / 10);
    } else {
      assert Decimal(n)[..0] == "";
    }
  }

  lemma DecimalInjective(m: nat, n: nat)
    requires Decimal(m) == Decimal(n)
    ensures m == n
  {
    DecimalRoundTrip(m);
    DecimalRoundTrip(n);
  }
}
