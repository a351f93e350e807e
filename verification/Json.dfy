/** JSON values and `JSON.stringify`. A number stands as its lexeme, the members of an object in order. */
module Json {
  import opened Text

  predicate NumeralChar(c: char) { IsDigit(c) || c in {'-', '+', '.', 'e', 'E'} }

  predicate IsNumeral(s: string) {
    s != "" && (IsDigit(s[0]) || s[0] == '-') && forall i :: 0 <= i < |s| ==> NumeralChar(s[i])
  }

  type Numeral = s: string | IsNumeral(s) witness "0"

  datatype Value =
    | Null
    | Bool(truth: bool)
    | Number(lexeme: Numeral)
    | Text(text: string)
    | List(items: seq<Value>)
    | Object(members: seq<Member>)

  datatype Member = Member(name: string, value: Value)

  // ---------- Writing ----------

  function HexDigit(d: nat): char
    requires d < 16
  {
    if d < 10 then '0' + d as char else 'a' + (d - 10) as char
  }

  function Escape(c: char): (s: string)
    ensures s != "" && s[0] != '"'
    ensures s[0] != '\\' ==> s == [c]
  {
    if c == '"' then "\\\""
    else if c == '\\' then "\\\\"
    else if c == '\U{0008}' then "\\b"
    else if c == '\U{000C}' then "\\f"
    else if c == '\n' then "\\n"
    else if c == '\r' then "\\r"
    else if c == '\t' then "\\t"
    else if c < ' ' then "\\u00" + [HexDigit(c as int / 16), HexDigit(c as int % 16)]
    else [c]
  }

  function EscapeAll(s: string): string {
    if s == "" then "" else Escape(s[0]) + EscapeAll(s[1..])
  }

  function Quote(s: string): string { "\"" + EscapeAll(s) + "\"" }

  function Stringify(v: Value): string
    decreases v
  {
    match v
    case Null => "null"
    case Bool(truth) => if truth then "true" else "false"
    case Number(lexeme) => lexeme
    case Text(text) => Quote(text)
    case List(items) => "[" + StringifyItems(items) + "]"
    case Object(members) => "{" + StringifyMembers(members) + "}"
  }

  function StringifyItems(items: seq<Value>): string
    decreases items
  {
    if items == [] then ""
    else Stringify(items[0]) + (if |items| == 1 then "" else "," + StringifyItems(items[1..]))
  }

  function StringifyMembers(members: seq<Member>): string
    decreases members
  {
    if members == [] then ""
    else StringifyMember(members[0]) + (if |members| == 1 then "" else "," + StringifyMembers(members[1..]))
  }

  function StringifyMember(member: Member): string
    decreases member
  {
    Quote(member.name) + ":" + Stringify(member.value)
  }

  // ---------- Reading back: no two values are written alike ----------

  lemma Cancel(p: string, x: string, y: string)
    requires p + x == p + y
    ensures x == y
  {
    assert x == (p + x)[|p|..] && y == (p + y)[|p|..];
  }

  lemma Regroup(a: string, b: string, c: string)
    ensures a + b + c == a + (b + c)
  {
  }

  /** A quoted text starts with a quotation mark, an escaped character never does. */
  lemma EscapeReadable(c: char, d: char, x: string, y: string)
    requires Escape(c) + x == Escape(d) + y
    ensures c == d && x == y
  {
    var l, r := Escape(c) + x, Escape(d) + y;
    assert l[0] == Escape(c)[0] && r[0] == Escape(d)[0];
    if l[0] == '\\' {
      assert l[1] == Escape(c)[1] && r[1] == Escape(d)[1];
      if l[1] == 'u' {
        assert l[4] == Escape(c)[4] && r[4] == Escape(d)[4];
        assert l[5] == Escape(c)[5] && r[5] == Escape(d)[5];
      }
    }
    Cancel(Escape(c), x, y);
  }

  /** The rest of a quoted text: its characters, the closing mark, and what follows. */
  function Remainder(s: string, x: string): string { EscapeAll(s) + ("\"" + x) }

  lemma RemainderSplit(s: string, x: string)
    requires s != ""
    ensures Remainder(s, x) == Escape(s[0]) + Remainder(s[1..], x)
    ensures Remainder(s, x)[0] == Escape(s[0])[0]
  {
  }

  lemma {:induction false} RemainderReadable(s: string, t: string, x: string, y: string)
    requires Remainder(s, x) == Remainder(t, y)
    ensures s == t && x == y
  {
    if s != "" {
      RemainderSplit(s, x);
    }
    if t != "" {
      RemainderSplit(t, y);
    }
    if s == "" || t == "" {
      assert Remainder("", x) == "\"" + x && Remainder("", y) == "\"" + y;
      Cancel("\"", x, y);
    } else {
      hide Escape, Remainder;
      EscapeReadable(s[0], t[0], Remainder(s[1..], x), Remainder(t[1..], y));
      RemainderReadable(s[1..], t[1..], x, y);
      assert s == [s[0]] + s[1..] && t == [t[0]] + t[1..];
    }
  }

  lemma QuoteSplit(s: string, x: string)
    ensures Quote(s) + x == "\"" + Remainder(s, x)
  {
    hide EscapeAll;
    Regroup("\"", EscapeAll(s), "\"");
    Regroup("\"", EscapeAll(s) + "\"", x);
    Regroup(EscapeAll(s), "\"", x);
  }

  lemma QuoteReadable(s: string, t: string, x: string, y: string)
    requires Quote(s) + x == Quote(t) + y
    ensures s == t && x == y
  {
    hide Quote, Remainder;
    QuoteSplit(s, x);
    QuoteSplit(t, y);
    Cancel("\"", Remainder(s, x), Remainder(t, y));
    RemainderReadable(s, t, x, y);
  }

  /** What may follow a value: the end, or a character that does not continue a numeral. */
  predicate Ends(x: string) { x == "" || !NumeralChar(x[0]) }

  lemma NumeralNotShorter(s: Numeral, t: Numeral, x: string, y: string)
    requires s + x == t + y && Ends(x)
    ensures |s| >= |t|
  {
    assert forall i :: 0 <= i < |t| ==> NumeralChar((t + y)[i]);
    assert x != "" ==> (s + x)[|s|] == x[0];
  }

  lemma NumeralReadable(s: Numeral, t: Numeral, x: string, y: string)
    requires s + x == t + y && Ends(x) && Ends(y)
    ensures s == t && x == y
  {
    NumeralNotShorter(s, t, x, y);
    NumeralNotShorter(t, s, y, x);
    assert s == (s + x)[..|s|] && t == (t + y)[..|t|];
    Cancel(s, x, y);
  }

  /** The first character tells the kind of value. */
  predicate Starts(v: Value, c: char) {
    match v
    case Null => c == 'n'
    case Bool(truth) => c == if truth then 't' else 'f'
    case Number(lexeme) => IsDigit(c) || c == '-'
    case Text(text) => c == '"'
    case List(items) => c == '['
    case Object(members) => c == '{'
  }

  lemma StartsAsWritten(v: Value, x: string)
    ensures Stringify(v) + x != "" && Starts(v, (Stringify(v) + x)[0])
  {
  }

  lemma ListSplit(items: seq<Value>, x: string)
    ensures Stringify(List(items)) + x == "[" + (StringifyItems(items) + ("]" + x))
  {
    hide StringifyItems;
    Regroup("[", StringifyItems(items), "]");
    Regroup("[", StringifyItems(items) + "]", x);
    Regroup(StringifyItems(items), "]", x);
  }

  lemma ObjectSplit(members: seq<Member>, x: string)
    ensures Stringify(Object(members)) + x == "{" + (StringifyMembers(members) + ("}" + x))
  {
    hide StringifyMembers;
    Regroup("{", StringifyMembers(members), "}");
    Regroup("{", StringifyMembers(members) + "}", x);
    Regroup(StringifyMembers(members), "}", x);
  }

  /** The text of a value can be read back in only one way, whatever follows it. */
  lemma {:induction false} Readable(v: Value, w: Value, x: string, y: string)
    requires Stringify(v) + x == Stringify(w) + y && Ends(x) && Ends(y)
    ensures v == w && x == y
    decreases v
  {
    StartsAsWritten(v, x);
    StartsAsWritten(w, y);
    match v {
      case Null => Cancel(Stringify(v), x, y);
      case Bool(_) => Cancel(Stringify(v), x, y);
      case Number(lexeme) => NumeralReadable(lexeme, w.lexeme, x, y);
      case Text(text) => QuoteReadable(text, w.text, x, y);
      case List(items) =>
        hide Stringify, StringifyItems;
        ListSplit(items, x);
        ListSplit(w.items, y);
        Cancel("[", StringifyItems(items) + ("]" + x), StringifyItems(w.items) + ("]" + y));
        ItemsReadable(items, w.items, x, y);
      case Object(members) =>
        hide Stringify, StringifyMembers;
        ObjectSplit(members, x);
        ObjectSplit(w.members, y);
        Cancel("{", StringifyMembers(members) + ("}" + x), StringifyMembers(w.members) + ("}" + y));
        MembersReadable(members, w.members, x, y);
    }
  }

  /** What follows the first of some items: the rest of them, then the closing bracket. */
  function AfterItem(items: seq<Value>, x: string): (rest: string)
    requires items != []
    ensures rest != "" && rest[0] == if |items| == 1 then ']' else ','
  {
    if |items| == 1 then "]" + x else "," + (StringifyItems(items[1..]) + ("]" + x))
  }

  lemma ItemsSplit(items: seq<Value>, x: string)
    requires items != []
    ensures StringifyItems(items) + ("]" + x) == Stringify(items[0]) + AfterItem(items, x)
    ensures Starts(items[0], (StringifyItems(items) + ("]" + x))[0])
  {
    hide Stringify;
    StartsAsWritten(items[0], AfterItem(items, x));
    if |items| > 1 {
      Regroup(Stringify(items[0]), "," + StringifyItems(items[1..]), "]" + x);
      Regroup(",", StringifyItems(items[1..]), "]" + x);
    }
  }

  lemma NoItemsReadable(a: seq<Value>, b: seq<Value>, x: string, y: string)
    requires StringifyItems(a) + ("]" + x) == StringifyItems(b) + ("]" + y) && (a == [] || b == [])
    ensures a == b && x == y
  {
    hide Stringify;
    assert StringifyItems([]) + ("]" + x) == "]" + x && StringifyItems([]) + ("]" + y) == "]" + y;
    if a != [] {
      ItemsSplit(a, x);
      assert false;
    }
    if b != [] {
      ItemsSplit(b, y);
      assert false;
    }
    Cancel("]", x, y);
  }

  lemma {:induction false} ItemsReadable(a: seq<Value>, b: seq<Value>, x: string, y: string)
    requires StringifyItems(a) + ("]" + x) == StringifyItems(b) + ("]" + y)
    ensures a == b && x == y
    decreases a
  {
    hide Stringify, StringifyItems;
    if a == [] || b == [] {
      NoItemsReadable(a, b, x, y);
    } else {
      ItemsSplit(a, x);
      ItemsSplit(b, y);
      Readable(a[0], b[0], AfterItem(a, x), AfterItem(b, y));
      if |a| > 1 {
        Cancel(",", StringifyItems(a[1..]) + ("]" + x), StringifyItems(b[1..]) + ("]" + y));
        ItemsReadable(a[1..], b[1..], x, y);
        assert a == [a[0]] + a[1..] && b == [b[0]] + b[1..];
      } else {
        Cancel("]", x, y);
      }
    }
  }

  function AfterMember(members: seq<Member>, x: string): (rest: string)
    requires members != []
    ensures rest != "" && rest[0] == if |members| == 1 then '}' else ','
  {
    if |members| == 1 then "}" + x else "," + (StringifyMembers(members[1..]) + ("}" + x))
  }

  lemma MemberSplit(m: Member, x: string)
    ensures StringifyMember(m) + x == Quote(m.name) + (":" + (Stringify(m.value) + x))
    ensures StringifyMember(m) + x != "" && (StringifyMember(m) + x)[0] == '"'
  {
    hide Stringify, EscapeAll;
    Regroup(Quote(m.name), ":", Stringify(m.value));
    Regroup(Quote(m.name), ":" + Stringify(m.value), x);
    Regroup(":", Stringify(m.value), x);
  }

  lemma MembersSplit(members: seq<Member>, x: string)
    requires members != []
    ensures StringifyMembers(members) + ("}" + x) == StringifyMember(members[0]) + AfterMember(members, x)
    ensures (StringifyMembers(members) + ("}" + x))[0] == '"'
  {
    hide StringifyMember;
    MemberSplit(members[0], AfterMember(members, x));
    if |members| > 1 {
      Regroup(StringifyMember(members[0]), "," + StringifyMembers(members[1..]), "}" + x);
      Regroup(",", StringifyMembers(members[1..]), "}" + x);
    }
  }

  lemma {:induction false} MemberReadable(m: Member, n: Member, x: string, y: string)
    requires StringifyMember(m) + x == StringifyMember(n) + y && Ends(x) && Ends(y)
    ensures m == n && x == y
    decreases m
  {
    hide StringifyMember, Stringify, Quote;
    MemberSplit(m, x);
    MemberSplit(n, y);
    QuoteReadable(m.name, n.name, ":" + (Stringify(m.value) + x), ":" + (Stringify(n.value) + y));
    Cancel(":", Stringify(m.value) + x, Stringify(n.value) + y);
    Readable(m.value, n.value, x, y);
  }

  lemma NoMembersReadable(a: seq<Member>, b: seq<Member>, x: string, y: string)
    requires StringifyMembers(a) + ("}" + x) == StringifyMembers(b) + ("}" + y) && (a == [] || b == [])
    ensures a == b && x == y
  {
    hide StringifyMember;
    assert StringifyMembers([]) + ("}" + x) == "}" + x && StringifyMembers([]) + ("}" + y) == "}" + y;
    if a != [] {
      MembersSplit(a, x);
      assert false;
    }
    if b != [] {
      MembersSplit(b, y);
      assert false;
    }
    Cancel("}", x, y);
  }

  lemma {:induction false} MembersReadable(a: seq<Member>, b: seq<Member>, x: string, y: string)
    requires StringifyMembers(a) + ("}" + x) == StringifyMembers(b) + ("}" + y)
    ensures a == b && x == y
    decreases a
  {
    hide StringifyMember, StringifyMembers;
    if a == [] || b == [] {
      NoMembersReadable(a, b, x, y);
    } else {
      MembersSplit(a, x);
      MembersSplit(b, y);
      MemberReadable(a[0], b[0], AfterMember(a, x), AfterMember(b, y));
      if |a| > 1 {
        Cancel(",", StringifyMembers(a[1..]) + ("}" + x), StringifyMembers(b[1..]) + ("}" + y));
        MembersReadable(a[1..], b[1..], x, y);
        assert a == [a[0]] + a[1..] && b == [b[0]] + b[1..];
      } else {
        Cancel("}", x, y);
      }
    }
  }

  /** `JSON.stringify` tells any two values apart. */
  lemma StringifyInjective(v: Value, w: Value)
    ensures Stringify(v) == Stringify(w) <==> v == w
  {
    if Stringify(v) == Stringify(w) {
      assert Stringify(v) + "" == Stringify(w) + "";
      Readable(v, w, "", "");
    }
  }
}
