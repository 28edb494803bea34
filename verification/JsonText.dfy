/** JSON documents with ordered members, their compact text, and the fact that
    the text determines the document. */
module JsonText {

  datatype Json =
    | Null
    | Bool(bool)
    | Number(repr: string)
    | String(text: string)
    | Array(items: seq<Json>)
    | Object(members: seq<Member>)

  datatype Member = Member(key: string, value: Json)

  predicate IsNumberChar(c: char) {
    ('0' <= c <= '9') || c == '-' || c == '+' || c == '.' || c == 'e' || c == 'E'
  }

  predicate IsNumberText(s: string) {
    s != "" && (s[0] == '-' || '0' <= s[0] <= '9') && forall i | 0 <= i < |s| :: IsNumberChar(s[i])
  }

  ghost predicate DistinctKeys(members: seq<Member>) {
    forall i, j | 0 <= i < j < |members| :: members[i].key != members[j].key
  }

  /** Numbers are spelled as numbers and no object repeats a key. */
  ghost predicate WellFormed(v: Json) {
    match v
    case Number(repr) => IsNumberText(repr)
    case Array(items) => forall i | 0 <= i < |items| :: WellFormed(items[i])
    case Object(members) => DistinctKeys(members) && forall i | 0 <= i < |members| :: WellFormed(members[i].value)
    case _ => true
  }

  // ----- text -----

  function HexDigit(n: nat): char
    requires n < 16
  {
    "0123456789abcdef"[n]
  }

  /** A character inside a string literal. */
  function Escape(c: char): string {
    if c == '"' then "\\\""
    else if c == '\\' then "\\\\"
    else if c as int == 8 then "\\b"
    else if c == '\t' then "\\t"
    else if c == '\n' then "\\n"
    else if c as int == 12 then "\\f"
    else if c == '\r' then "\\r"
    else if c < ' ' then "\\u00" + [HexDigit(c as int / 16), HexDigit(c as int % 16)]
    else [c]
  }

  function Escaped(s: string): string {
    if s == "" then "" else Escape(s[0]) + Escaped(s[1..])
  }

  function Quoted(s: string): string {
    "\"" + (Escaped(s) + "\"")
  }

  function Text(v: Json): string
    decreases v, 1
  {
    match v
    case Null => "null"
    case Bool(b) => if b then "true" else "false"
    case Number(repr) => repr
    case String(s) => Quoted(s)
    case Array(items) => if items == [] then "[]" else "[" + (Text(items[0]) + MoreItems(items[1..]))
    case Object(members) =>
      if members == [] then "{}"
      else "{" + (Quoted(members[0].key) + (":" + (Text(members[0].value) + MoreMembers(members[1..]))))
  }

  /** The items after the first, each led by a comma, and the closing bracket. */
  function MoreItems(items: seq<Json>): string
    decreases items, 0
  {
    if items == [] then "]" else "," + (Text(items[0]) + MoreItems(items[1..]))
  }

  function MoreMembers(members: seq<Member>): string
    decreases members, 0
  {
    if members == [] then "}"
    else "," + (Quoted(members[0].key) + (":" + (Text(members[0].value) + MoreMembers(members[1..]))))
  }

  // ----- the text determines the document -----

  /** Dropping a common first character. */
  lemma Tail(x: string, a: string, y: string, b: string)
    requires x != "" && y != "" && x + a == y + b
    ensures x[0] == y[0] && x[1..] + a == y[1..] + b
  {
    assert (x + a)[0] == x[0] && (y + b)[0] == y[0];
    assert (x + a)[1..] == x[1..] + a && (y + b)[1..] == y[1..] + b;
  }
  
  /** Dropping a common prefix. */
  lemma Cancel(x: string, a: string, b: string)
    requires x + a == x + b
    ensures a == b
  {
    assert (x + a)[|x|..] == a && (x + b)[|x|..] == b;
  }

  /** The first two characters of an escape give its length away. */
  lemma EscapeShape(c: char)
    ensures var x := Escape(c);
            || (|x| == 1 && x[0] != '\\')
            || (|x| == 2 && x[0] == '\\' && x[1] != 'u')
            || (|x| == 6 && x[0] == '\\' && x[1] == 'u')
  {
  }

  lemma EscapeInjective(c: char, d: char)
    requires Escape(c) == Escape(d)
    ensures c == d
  {
    var x, y := Escape(c), Escape(d);
    if |x| == 6 {
      assert x[4] == y[4] && x[5] == y[5];
      assert c as int == c as int / 16 * 16 + c as int % 16;
      assert d as int == d as int / 16 * 16 + d as int % 16;
    } else {
      assert x[0] == y[0] && x[|x| - 1] == y[|y| - 1];
    }
  }

  /** Texts that agree and start with pieces of the same length start with the same piece. */
  lemma SameHead(x: string, a: string, y: string, b: string)
    requires x + a == y + b && |x| == |y|
    ensures x == y && a == b
  {
    assert x == (x + a)[..|x|] && y == (y + b)[..|y|];
    assert a == (x + a)[|x|..] && b == (y + b)[|y|..];
  }

  lemma EscapeDecodes(c: char, d: char, a: string, b: string)
    requires Escape(c) + a == Escape(d) + b
    ensures c == d && a == b
  {
    var x, y := Escape(c), Escape(d);
    EscapeShape(c);
    EscapeShape(d);
    assert x[0] == (x + a)[0] && y[0] == (y + b)[0];
    if |x| > 1 {
      assert x[1] == (x + a)[1] && y[1] == (y + b)[1];
    }
    SameHead(x, a, y, b);
    EscapeInjective(c, d);
  }

  /** Only the end of a literal starts with a quote. */
  lemma EscapedHead(s: string, a: string)
    ensures ((Escaped(s) + "\"") + a)[0] == '"' <==> s == ""
  {
    if s != "" {
      assert ((Escaped(s) + "\"") + a)[0] == Escape(s[0])[0];
    }
  }

  lemma EscapedStep(s: string, a: string)
    requires s != ""
    ensures (Escaped(s) + "\"") + a == Escape(s[0]) + ((Escaped(s[1..]) + "\"") + a)
  {
  }

  lemma {:induction false} EscapedDecodes(s: string, t: string, a: string, b: string)
    requires (Escaped(s) + "\"") + a == (Escaped(t) + "\"") + b
    ensures s == t && a == b
  {
    EscapedHead(s, a);
    EscapedHead(t, b);
    if s == "" {
      assert Escaped(s) + "\"" == "\"" && Escaped(t) + "\"" == "\"";
      Cancel("\"", a, b);
    } else {
      EscapedStep(s, a);
      EscapedStep(t, b);
      EscapeDecodes(s[0], t[0], (Escaped(s[1..]) + "\"") + a, (Escaped(t[1..]) + "\"") + b);
      EscapedDecodes(s[1..], t[1..], a, b);
      assert s == [s[0]] + s[1..] && t == [t[0]] + t[1..];
    }
  }

  lemma QuotedDecodes(s: string, t: string, a: string, b: string)
    requires Quoted(s) + a == Quoted(t) + b
    ensures s == t && a == b
  {
    Tail(Quoted(s), a, Quoted(t), b);
    assert Quoted(s)[1..] == Escaped(s) + "\"" && Quoted(t)[1..] == Escaped(t) + "\"";
    EscapedDecodes(s, t, a, b);
  }

  /** What may follow a value inside a document. */
  predicate Ended(rest: string) {
    rest == "" || rest[0] == ',' || rest[0] == ']' || rest[0] == '}'
  }

  predicate StartsNumber(s: string) {
    s != "" && IsNumberChar(s[0])
  }

  lemma {:induction false} NumberDecodes(s: string, t: string, a: string, b: string)
    requires forall i | 0 <= i < |s| :: IsNumberChar(s[i])
    requires forall i | 0 <= i < |t| :: IsNumberChar(t[i])
    requires Ended(a) && Ended(b) && s + a == t + b
    ensures s == t && a == b
  {
    assert StartsNumber(s + a) <==> s != "";
    assert StartsNumber(t + b) <==> t != "";
    if s != "" {
      Tail(s, a, t, b);
      NumberDecodes(s[1..], t[1..], a, b);
      assert s == [s[0]] + s[1..] && t == [t[0]] + t[1..];
    } else {
      assert s + a == a && t + b == b;
    }
  }

  /** The first character of a value's text tells what kind of value it is. */
  function Kind(v: Json): nat {
    match v
    case Null => 0
    case Bool(b) => if b then 1 else 2
    case Number(_) => 3
    case String(_) => 4
    case Array(_) => 5
    case Object(_) => 6
  }

  function KindOfChar(c: char): nat {
    if c == 'n' then 0 else if c == 't' then 1 else if c == 'f' then 2
    else if c == '"' then 4 else if c == '[' then 5 else if c == '{' then 6 else 3
  }

  lemma FirstChar(v: Json)
    requires WellFormed(v)
    ensures Text(v) != "" && KindOfChar(Text(v)[0]) == Kind(v)
    ensures !Ended(Text(v))
  {
  }

  /** A value's text can be told apart from whatever follows it, and no other
      value has the same text. */
  lemma {:induction false} TextDecodes(v: Json, w: Json, a: string, b: string)
    requires WellFormed(v) && WellFormed(w) && Ended(a) && Ended(b)
    requires Text(v) + a == Text(w) + b
    ensures v == w && a == b
    decreases v, 1
  {
    FirstChar(v);
    FirstChar(w);
    Tail(Text(v), a, Text(w), b);
    assert Kind(v) == Kind(w);
    match v {
      case Null => Cancel("null", a, b);
      case Bool(_) => Cancel(Text(v), a, b);
      case Number(repr) => NumberDecodes(repr, w.repr, a, b);
      case String(s) => QuotedDecodes(s, w.text, a, b);
      case Array(items) => ArrayDecodes(v, w, a, b);
      case Object(members) => ObjectDecodes(v, w, a, b);
    }
  }

  lemma {:induction false} ArrayDecodes(v: Json, w: Json, a: string, b: string)
    requires v.Array? && w.Array? && WellFormed(v) && WellFormed(w)
    requires Text(v)[1..] + a == Text(w)[1..] + b
    ensures v == w && a == b
    decreases v, 0
  {
    var x, y := v.items, w.items;
    ItemsHead(v, a);
    ItemsHead(w, b);
    if x == [] {
      Cancel("]", a, b);
    } else {
      var restX, restY := MoreItems(x[1..]) + a, MoreItems(y[1..]) + b;
      ItemsText(v, a);
      ItemsText(w, b);
      TextDecodes(x[0], y[0], restX, restY);
      MoreItemsDecode(x[1..], y[1..], a, b);
      assert x == [x[0]] + x[1..] && y == [y[0]] + y[1..];
    }
  }

  lemma ItemsText(v: Json, a: string)
    requires v.Array? && v.items != []
    ensures Text(v)[1..] + a == Text(v.items[0]) + (MoreItems(v.items[1..]) + a)
  {
    assert Text(v)[1..] == Text(v.items[0]) + MoreItems(v.items[1..]);
  }

  lemma ItemsHead(v: Json, a: string)
    requires v.Array? && WellFormed(v)
    ensures |Text(v)[1..]| > 0
    ensures (Text(v)[1..] + a)[0] == ']' <==> v.items == []
  {
    if v.items != [] {
      FirstChar(v.items[0]);
      assert Text(v)[1..] == Text(v.items[0]) + MoreItems(v.items[1..]);
      assert (Text(v)[1..] + a)[0] == Text(v.items[0])[0];
    }
  }

  lemma {:induction false} MoreItemsDecode(x: seq<Json>, y: seq<Json>, a: string, b: string)
    requires forall i | 0 <= i < |x| :: WellFormed(x[i])
    requires forall i | 0 <= i < |y| :: WellFormed(y[i])
    requires MoreItems(x) + a == MoreItems(y) + b
    ensures x == y && a == b
    decreases x, 0
  {
    Tail(MoreItems(x), a, MoreItems(y), b);
    if x == [] {
      assert y == [];
      Cancel("]", a, b);
    } else {
      assert y != [];
      var restX, restY := MoreItems(x[1..]) + a, MoreItems(y[1..]) + b;
      assert MoreItems(x)[1..] + a == Text(x[0]) + restX;
      assert MoreItems(y)[1..] + b == Text(y[0]) + restY;
      TextDecodes(x[0], y[0], restX, restY);
      MoreItemsDecode(x[1..], y[1..], a, b);
      assert x == [x[0]] + x[1..] && y == [y[0]] + y[1..];
    }
  }

  lemma {:induction false} ObjectDecodes(v: Json, w: Json, a: string, b: string)
    requires v.Object? && w.Object? && WellFormed(v) && WellFormed(w)
    requires Text(v)[1..] + a == Text(w)[1..] + b
    ensures v == w && a == b
    decreases v, 0
  {
    var x, y := v.members, w.members;
    MembersHead(v, a);
    MembersHead(w, b);
    if x == [] {
      Cancel("}", a, b);
    } else {
      assert Text(v)[1..] == MemberText(x);
      assert Text(w)[1..] == MemberText(y);
      MembersDecode(x, y, a, b);
    }
  }

  lemma MembersHead(v: Json, a: string)
    requires v.Object?
    ensures (Text(v)[1..] + a)[0] == '}' <==> v.members == []
  {
    if v.members != [] {
      assert (Text(v)[1..] + a)[0] == '"';
    }
  }

  function MemberText(members: seq<Member>): string
    requires members != []
  {
    Quoted(members[0].key) + (":" + (Text(members[0].value) + MoreMembers(members[1..])))
  }

  lemma MemberSplit(members: seq<Member>, a: string)
    requires members != []
    ensures MemberText(members) + a ==
              Quoted(members[0].key) + (":" + (Text(members[0].value) + (MoreMembers(members[1..]) + a)))
  {
  }

  lemma {:induction false} MembersDecode(x: seq<Member>, y: seq<Member>, a: string, b: string)
    requires x != [] && y != []
    requires forall i | 0 <= i < |x| :: WellFormed(x[i].value)
    requires forall i | 0 <= i < |y| :: WellFormed(y[i].value)
    requires MemberText(x) + a == MemberText(y) + b
    ensures x == y && a == b
    decreases x, 0
  {
    MemberSplit(x, a);
    MemberSplit(y, b);
    var restX, restY := MoreMembers(x[1..]) + a, MoreMembers(y[1..]) + b;
    QuotedDecodes(x[0].key, y[0].key, ":" + (Text(x[0].value) + restX), ":" + (Text(y[0].value) + restY));
    Cancel(":", Text(x[0].value) + restX, Text(y[0].value) + restY);
    TextDecodes(x[0].value, y[0].value, restX, restY);
    MoreMembersDecode(x[1..], y[1..], a, b);
    assert x == [x[0]] + x[1..] && y == [y[0]] + y[1..];
  }

  lemma {:induction false} MoreMembersDecode(x: seq<Member>, y: seq<Member>, a: string, b: string)
    requires forall i | 0 <= i < |x| :: WellFormed(x[i].value)
    requires forall i | 0 <= i < |y| :: WellFormed(y[i].value)
    requires MoreMembers(x) + a == MoreMembers(y) + b
    ensures x == y && a == b
    decreases x, 1
  {
    Tail(MoreMembers(x), a, MoreMembers(y), b);
    if x == [] {
      assert y == [];
      Cancel("}", a, b);
    } else {
      assert y != [];
      assert MoreMembers(x)[1..] == MemberText(x);
      assert MoreMembers(y)[1..] == MemberText(y);
      MembersDecode(x, y, a, b);
    }
  }

  /** The compact text of a document determines it. */
  lemma TextInjective(v: Json, w: Json)
    requires WellFormed(v) && WellFormed(w) && Text(v) == Text(w)
    ensures v == w
  {
    assert Text(v) + "" == Text(v) && Text(w) + "" == Text(w);
    TextDecodes(v, w, "", "");
  }
}
