/** What is written for a JSON value is a JSON text of it, by the grammar of RFC 8259 (sections 2 to 7). */
module JsonText {
  import opened Json

  /** The two-character escapes of section 7, by their second character. */
  function ShortEscape(c: char): (meant: seq<char>)
    ensures |meant| <= 1
  {
    match c
    case '"' => ['"']
    case '\\' => ['\\']
    case '/' => ['/']
    case 'b' => ['\U{0008}']
    case 'f' => ['\U{000C}']
    case 'n' => ['\n']
    case 'r' => ['\r']
    case 't' => ['\t']
    case _ => []
  }

  /** The value of a hexadecimal digit, or 16. */
  function HexValue(c: char): nat {
    if '0' <= c <= '9' then c as int - '0' as int
    else if 'a' <= c <= 'f' then c as int - 'a' as int + 10
    else if 'A' <= c <= 'F' then c as int - 'A' as int + 10
    else 16
  }

  predicate FourHex(s: string, value: nat)
    requires |s| == 4
  {
    && (forall i :: 0 <= i < 4 ==> HexValue(s[i]) < 16)
    && value == 4096 * HexValue(s[0]) + 256 * HexValue(s[1]) + 16 * HexValue(s[2]) + HexValue(s[3])
  }

  /** The piece of a quoted text stands for the character. */
  predicate StandsFor(piece: string, c: char) {
    || (piece == [c] && c !in {'"', '\\'} && c >= ' ')
    || (|piece| == 2 && piece[0] == '\\' && ShortEscape(piece[1]) == [c])
    || (|piece| == 6 && piece[0] == '\\' && piece[1] == 'u' && FourHex(piece[2..], c as int))
  }

  ghost predicate Spells(body: string, text: string) {
    if text == "" then body == ""
    else exists k :: 0 < k <= |body| && StandsFor(body[..k], text[0]) && Spells(body[k..], text[1..])
  }

  predicate Between(s: string, left: char, right: char) { |s| >= 2 && s[0] == left && s[|s| - 1] == right }

  function Inside(s: string): string
    requires |s| >= 2
  {
    s[1..|s| - 1]
  }

  ghost predicate IsQuoted(s: string, text: string) { Between(s, '"', '"') && Spells(Inside(s), text) }

  ghost predicate IsJson(s: string, v: Value)
    decreases v, 0
  {
    match v
    case Null => s == "null"
    case Bool(truth) => s == (if truth then "true" else "false")
    case Number(lexeme) => s == lexeme
    case Text(text) => IsQuoted(s, text)
    case List(items) => Between(s, '[', ']') && AreItems(Inside(s), items)
    case Object(members) => Between(s, '{', '}') && AreMembers(Inside(s), members)
  }

  /** Items separated by commas. */
  ghost predicate AreItems(s: string, items: seq<Value>)
    decreases items, 1
  {
    if items == [] then s == ""
    else if |items| == 1 then IsJson(s, items[0])
    else exists k :: 0 <= k < |s| && s[k] == ',' && IsJson(s[..k], items[0]) && AreItems(s[k + 1..], items[1..])
  }

  ghost predicate AreMembers(s: string, members: seq<Member>)
    decreases members, 1
  {
    if members == [] then s == ""
    else if |members| == 1 then IsMember(s, members[0])
    else exists k :: 0 <= k < |s| && s[k] == ',' && IsMember(s[..k], members[0]) && AreMembers(s[k + 1..], members[1..])
  }

  /** A quoted name, a colon, and the value. */
  ghost predicate IsMember(s: string, m: Member)
    decreases m, 0
  {
    exists k :: 0 <= k < |s| && s[k] == ':' && IsQuoted(s[..k], m.name) && IsJson(s[k + 1..], m.value)
  }

  // ---------- What is written ----------

  /** A character is written as itself if the grammar allows, else by its short escape, else by four lower-case
      hexadecimal digits. */
  lemma EscapeStandsFor(c: char)
    ensures StandsFor(Escape(c), c)
    ensures |Escape(c)| == if c in {'"', '\\', '\U{0008}', '\U{000C}', '\n', '\r', '\t'} then 2
                           else if c < ' ' then 6 else 1
    ensures |Escape(c)| == 6 ==> forall i :: 0 <= i < 6 ==> !('A' <= Escape(c)[i] <= 'F')
  {
    if |Escape(c)| == 6 {
      var code := c as int;
      assert Escape(c) == "\\u00" + [HexDigit(code / 16), HexDigit(code % 16)];
      assert Escape(c)[2..] == ['0', '0', HexDigit(code / 16), HexDigit(code % 16)];
      assert HexValue(HexDigit(code / 16)) == code / 16 && HexValue(HexDigit(code % 16)) == code % 16;
    }
  }

  lemma {:induction false} EscapedSpells(text: string)
    ensures Spells(EscapeAll(text), text)
  {
    if text != "" {
      hide Escape, StandsFor;
      EscapeStandsFor(text[0]);
      EscapedSpells(text[1..]);
      var k, body := |Escape(text[0])|, EscapeAll(text);
      assert body[..k] == Escape(text[0]) && body[k..] == EscapeAll(text[1..]);
    }
  }

  lemma QuoteIsQuoted(text: string)
    ensures IsQuoted(Quote(text), text)
  {
    EscapedSpells(text);
    assert Inside(Quote(text)) == EscapeAll(text);
  }

  /** What is written for a value is a JSON text of it. */
  lemma {:induction false} StringifyIsJson(v: Value)
    ensures IsJson(Stringify(v), v)
    decreases v, 1
  {
    match v
    case Text(text) => QuoteIsQuoted(text);
    case List(items) =>
      ItemsAreItems(items);
      assert Inside(Stringify(v)) == StringifyItems(items);
    case Object(members) =>
      MembersAreMembers(members);
      assert Inside(Stringify(v)) == StringifyMembers(members);
    case _ =>
  }

  lemma Joined(a: string, separator: char, b: string)
    ensures var s := a + ([separator] + b);
            |a| < |s| && s[..|a|] == a && s[|a|] == separator && s[|a| + 1..] == b
  {
  }

  lemma {:induction false} ItemsAreItems(items: seq<Value>)
    ensures AreItems(StringifyItems(items), items)
    decreases items, 0
  {
    if items != [] {
      StringifyIsJson(items[0]);
      if |items| == 1 {
        assert StringifyItems(items) == Stringify(items[0]);
      } else {
        ItemsAreItems(items[1..]);
        assert StringifyItems(items) == Stringify(items[0]) + ("," + StringifyItems(items[1..]));
        hide StringifyItems, Stringify, IsJson;
        Joined(Stringify(items[0]), ',', StringifyItems(items[1..]));
      }
    }
  }

  lemma {:induction false} MembersAreMembers(members: seq<Member>)
    ensures AreMembers(StringifyMembers(members), members)
    decreases members, 0
  {
    hide IsMember, StringifyMember;
    if members != [] {
      MemberIsMember(members[0]);
      if |members| == 1 {
        assert StringifyMembers(members) == StringifyMember(members[0]);
      } else {
        MembersAreMembers(members[1..]);
        assert StringifyMembers(members) == StringifyMember(members[0]) + ("," + StringifyMembers(members[1..]));
        hide StringifyMembers;
        Joined(StringifyMember(members[0]), ',', StringifyMembers(members[1..]));
      }
    }
  }

  lemma {:induction false} MemberIsMember(m: Member)
    ensures IsMember(StringifyMember(m), m)
    decreases m, 2
  {
    QuoteIsQuoted(m.name);
    StringifyIsJson(m.value);
    assert StringifyMember(m) == Quote(m.name) + (":" + Stringify(m.value));
    hide StringifyMember, Stringify, IsJson, IsQuoted, Quote;
    Joined(Quote(m.name), ':', Stringify(m.value));
  }
}
