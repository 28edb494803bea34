/** The grammar of JSON texts without white space (RFC 8259), and the fact that the
    compact text of a document spells the document. */
module JsonGrammar {
  import opened Common
  import opened JsonText

  /** The value of a hexadecimal digit. */
  function Hex(c: char): Option<nat> {
    if '0' <= c <= '9' then Some(c as int - '0' as int)
    else if 'a' <= c <= 'f' then Some(c as int - 'a' as int + 10)
    else if 'A' <= c <= 'F' then Some(c as int - 'A' as int + 10)
    else None
  }

  /** What two characters after a backslash stand for. */
  predicate Short(e: char, c: char) {
    || (e == '"' && c == '"') || (e == '\\' && c == '\\') || (e == '/' && c == '/')
    || (e == 'b' && c as int == 8) || (e == 'f' && c as int == 12) || (e == 'n' && c as int == 10)
    || (e == 'r' && c as int == 13) || (e == 't' && c as int == 9)
  }

  /** A character of a string, section 7 of RFC 8259: as it is, if it needs no escape,
      or after a backslash, or as four hexadecimal digits. */
  predicate SpellsChar(text: string, c: char) {
    || (text == [c] && c as int >= 0x20 && c != '"' && c != '\\')
    || (|text| == 2 && text[0] == '\\' && Short(text[1], c))
    || (|text| == 6 && text[0] == '\\' && text[1] == 'u' && (forall i | 2 <= i < 6 :: Hex(text[i]).Some?) &&
        4096 * Hex(text[2]).value + 256 * Hex(text[3]).value + 16 * Hex(text[4]).value + Hex(text[5]).value ==
          c as int)
  }

  ghost predicate SpellsChars(text: string, s: string)
    decreases |s|
  {
    if s == "" then text == ""
    else exists first, rest :: text == first + rest && SpellsChar(first, s[0]) && SpellsChars(rest, s[1..])
  }

  ghost predicate SpellsString(text: string, s: string) {
    exists inner :: text == "\"" + inner + "\"" && SpellsChars(inner, s)
  }

  /** The texts with commas between them. */
  function Commas(texts: seq<string>): string {
    if texts == [] then "" else if |texts| == 1 then texts[0] else texts[0] + "," + Commas(texts[1..])
  }

  ghost predicate SpellsMember(text: string, m: Member)
    decreases m, 1
  {
    exists key, value :: text == key + ":" + value && SpellsString(key, m.key) && Spells(value, m.value)
  }

  ghost predicate Spells(text: string, v: Json)
    decreases v, 0
  {
    match v
    case Null => text == "null"
    case Bool(b) => text == if b then "true" else "false"
    case Number(repr) => text == repr
    case String(s) => SpellsString(text, s)
    case Array(items) =>
      exists texts: seq<string> ::
        && text == "[" + Commas(texts) + "]" && |texts| == |items|
        && forall i | 0 <= i < |items| :: Spells(texts[i], items[i])
    case Object(members) =>
      exists texts: seq<string> ::
        && text == "{" + Commas(texts) + "}" && |texts| == |members|
        && forall i | 0 <= i < |members| :: SpellsMember(texts[i], members[i])
  }

  // ----- the compact text is such a text -----

  lemma EscapeSpells(c: char)
    ensures SpellsChar(Escape(c), c)
  {
    if c < ' ' && c as int != 8 && c != '\t' && c != '\n' && c as int != 12 && c != '\r' {
      HexBack(c as int / 16);
      HexBack(c as int % 16);
      var text := Escape(c);
      assert text == ['\\', 'u', '0', '0', HexDigit(c as int / 16), HexDigit(c as int % 16)];
    }
  }

  lemma HexBack(n: nat)
    requires n < 16
    ensures Hex(HexDigit(n)) == Some(n)
  {
  }

  lemma {:induction false} EscapedSpells(s: string)
    ensures SpellsChars(Escaped(s), s)
  {
    if s != "" {
      EscapeSpells(s[0]);
      EscapedSpells(s[1..]);
      assert Escaped(s) == Escape(s[0]) + Escaped(s[1..]);
    }
  }

  lemma QuotedSpells(s: string)
    ensures SpellsString(Quoted(s), s)
  {
    EscapedSpells(s);
    assert Quoted(s) == "\"" + Escaped(s) + "\"";
  }

  function TextsOf(items: seq<Json>): (r: seq<string>)
    ensures |r| == |items| && forall i | 0 <= i < |items| :: r[i] == Text(items[i])
  {
    seq(|items|, i requires 0 <= i < |items| => Text(items[i]))
  }

  function MemberText(m: Member): string {
    Quoted(m.key) + ":" + Text(m.value)
  }

  function MemberTexts(members: seq<Member>): (r: seq<string>)
    ensures |r| == |members| && forall i | 0 <= i < |members| :: r[i] == MemberText(members[i])
  {
    seq(|members|, i requires 0 <= i < |members| => MemberText(members[i]))
  }

  lemma {:induction false} ItemsCommas(first: Json, rest: seq<Json>)
    ensures Text(first) + MoreItems(rest) == Commas(TextsOf([first] + rest)) + "]"
    decreases |rest|
  {
    var texts := TextsOf([first] + rest);
    if rest == [] {
      assert texts == [Text(first)];
    } else {
      assert [first] + rest == [first] + ([rest[0]] + rest[1..]);
      assert texts[1..] == TextsOf([rest[0]] + rest[1..]);
      ItemsCommas(rest[0], rest[1..]);
      CommaStep(Text(first), Text(rest[0]) + MoreItems(rest[1..]), Commas(texts[1..]), "]");
    }
  }

  lemma CommaStep(a: string, more: string, commas: string, end: string)
    requires more == commas + end
    ensures a + ("," + more) == a + "," + commas + end
  {
  }

  lemma {:induction false} MembersCommas(first: Member, rest: seq<Member>)
    ensures MemberText(first) + MoreMembers(rest) == Commas(MemberTexts([first] + rest)) + "}"
    decreases |rest|
  {
    var texts := MemberTexts([first] + rest);
    if rest == [] {
      assert texts == [MemberText(first)];
    } else {
      assert [first] + rest == [first] + ([rest[0]] + rest[1..]);
      assert texts[1..] == MemberTexts([rest[0]] + rest[1..]);
      MembersCommas(rest[0], rest[1..]);
      MoreMembersText(rest);
      CommaStep(MemberText(first), MemberText(rest[0]) + MoreMembers(rest[1..]), Commas(texts[1..]), "}");
    }
  }

  lemma MoreMembersText(members: seq<Member>)
    requires members != []
    ensures MoreMembers(members) == "," + (MemberText(members[0]) + MoreMembers(members[1..]))
  {
    MemberJoin(Quoted(members[0].key), Text(members[0].value), MoreMembers(members[1..]));
  }

  lemma MemberJoin(key: string, value: string, more: string)
    ensures key + (":" + (value + more)) == key + ":" + value + more
  {
  }

  lemma ArrayText(items: seq<Json>)
    ensures Text(Array(items)) == "[" + Commas(TextsOf(items)) + "]"
  {
    if items != [] {
      assert items == [items[0]] + items[1..];
      ItemsCommas(items[0], items[1..]);
    }
  }

  lemma ObjectText(members: seq<Member>)
    ensures Text(Object(members)) == "{" + Commas(MemberTexts(members)) + "}"
  {
    if members != [] {
      assert members == [members[0]] + members[1..];
      MembersCommas(members[0], members[1..]);
      MemberJoin(Quoted(members[0].key), Text(members[0].value), MoreMembers(members[1..]));
    }
  }

  /** The compact text is a JSON text of the document. */
  lemma {:induction false} TextSpells(v: Json)
    ensures Spells(Text(v), v)
    decreases v, 0
  {
    match v
    case String(s) => QuotedSpells(s);
    case Array(items) =>
      ArrayText(items);
      forall i | 0 <= i < |items| ensures Spells(TextsOf(items)[i], items[i]) {
        TextSpells(items[i]);
      }
    case Object(members) =>
      ObjectText(members);
      forall i | 0 <= i < |members| ensures SpellsMember(MemberTexts(members)[i], members[i]) {
        QuotedSpells(members[i].key);
        TextSpells(members[i].value);
      }
    case _ =>
  }
}
