/** String operations shared by the models: splitting, trimming, replacing. */
module Strings {

  /** Unicode White_Space, the characters that trimming removes. */
  predicate IsWhitespace(c: char) {
    ('\t' <= c <= '\r') || c == ' ' || c as int == 0x85 || c as int == 0xA0 || c as int == 0x1680
    || (0x2000 <= c as int <= 0x200A) || c as int == 0x2028 || c as int == 0x2029
    || c as int == 0x202F || c as int == 0x205F || c as int == 0x3000
  }

  // ----- splitting at a separator -----

  function Split(s: string, sep: char): (parts: seq<string>)
    ensures parts != []
    ensures forall p | p in parts :: sep !in p
  {
    if s == "" then [""]
    else
      var rest := Split(s[1..], sep);
      if s[0] == sep then [""] + rest
      else [[s[0]] + rest[0]] + rest[1..]
  }

  function Join(parts: seq<string>, sep: char): string
    requires parts != []
  {
    if |parts| == 1 then parts[0] else parts[0] + [sep] + Join(parts[1..], sep)
  }

  /** Joining the parts of a split restores the string. */
  lemma {:induction false} JoinSplit(s: string, sep: char)
    ensures Join(Split(s, sep), sep) == s
  {
    if s != "" {
      var rest := Split(s[1..], sep);
      JoinSplit(s[1..], sep);
      var all := Split(s, sep);
      assert s == [s[0]] + s[1..];
      if s[0] == sep {
        assert all[1..] == rest;
        assert Join(all, sep) == "" + [sep] + s[1..];
      } else {
        assert all[1..] == rest[1..];
        if |rest| > 1 {
          assert Join(all, sep) == ([s[0]] + rest[0]) + [sep] + Join(rest[1..], sep);
          assert ([s[0]] + rest[0]) + [sep] + Join(rest[1..], sep) == [s[0]] + (rest[0] + [sep] + Join(rest[1..], sep));
        }
      }
    }
  }

  /** The text before the first separator is the first part. */
  lemma {:induction false} SplitFirst(head: string, sep: char, tail: string)
    requires sep !in head
    ensures Split(head + [sep] + tail, sep) == [head] + Split(tail, sep)
  {
    var s := head + [sep] + tail;
    if head == "" {
      assert s[1..] == tail;
    } else {
      assert s[1..] == head[1..] + [sep] + tail;
      SplitFirst(head[1..], sep, tail);
      assert head == [head[0]] + head[1..];
    }
  }

  lemma {:induction false} SplitWhole(s: string, sep: char)
    requires sep !in s
    ensures Split(s, sep) == [s]
  {
    if s != "" {
      SplitWhole(s[1..], sep);
      assert s == [s[0]] + s[1..];
    }
  }

  /** Splitting joined parts restores the parts. */
  lemma {:induction false} SplitJoin(parts: seq<string>, sep: char)
    requires parts != [] && forall p | p in parts :: sep !in p
    ensures Split(Join(parts, sep), sep) == parts
  {
    if |parts| == 1 {
      SplitWhole(parts[0], sep);
    } else {
      SplitJoin(parts[1..], sep);
      SplitFirst(parts[0], sep, Join(parts[1..], sep));
    }
  }

  // ----- replacing -----

  /** Replaces every non-overlapping occurrence, from the left. */
  function ReplaceAll(s: string, pattern: string, replacement: string): string
    requires pattern != ""
    decreases |s|
  {
    if s == "" then ""
    else if pattern <= s then replacement + ReplaceAll(s[|pattern|..], pattern, replacement)
    else [s[0]] + ReplaceAll(s[1..], pattern, replacement)
  }

  lemma {:induction false} ReplaceNothing(s: string, pattern: string, replacement: string)
    requires pattern != ""
    requires forall i | 0 <= i < |s| :: !(pattern <= s[i..])
    ensures ReplaceAll(s, pattern, replacement) == s
  {
    if s != "" {
      assert s[0..] == s;
      forall i | 0 <= i < |s[1..]| ensures !(pattern <= s[1..][i..]) {
        assert s[1..][i..] == s[i + 1..];
      }
      ReplaceNothing(s[1..], pattern, replacement);
    }
  }

  // ----- trimming -----

  predicate AllSpace(s: string) {
    forall i | 0 <= i < |s| :: IsWhitespace(s[i])
  }

  function TrimStart(s: string): string {
    if s != "" && IsWhitespace(s[0]) then TrimStart(s[1..]) else s
  }

  function TrimEnd(s: string): string {
    if s != "" && IsWhitespace(s[|s| - 1]) then TrimEnd(s[..|s| - 1]) else s
  }

  function Trim(s: string): string {
    TrimEnd(TrimStart(s))
  }

  /** Neither end is white space. */
  predicate Trimmed(s: string) {
    s != "" ==> !IsWhitespace(s[0]) && !IsWhitespace(s[|s| - 1])
  }

  lemma {:induction false} TrimStartSplits(s: string) returns (lead: string)
    ensures AllSpace(lead) && s == lead + TrimStart(s)
    ensures TrimStart(s) != "" ==> !IsWhitespace(TrimStart(s)[0])
  {
    if s != "" && IsWhitespace(s[0]) {
      var rest := TrimStartSplits(s[1..]);
      lead := [s[0]] + rest;
    } else {
      lead := "";
    }
  }

  lemma {:induction false} TrimEndSplits(s: string) returns (trail: string)
    ensures AllSpace(trail) && s == TrimEnd(s) + trail
    ensures TrimEnd(s) != "" ==> !IsWhitespace(TrimEnd(s)[|TrimEnd(s)| - 1])
  {
    if s != "" && IsWhitespace(s[|s| - 1]) {
      var rest := TrimEndSplits(s[..|s| - 1]);
      trail := rest + [s[|s| - 1]];
      assert s == s[..|s| - 1] + [s[|s| - 1]];
    } else {
      trail := "";
    }
  }

  /** Trimming cuts white space off both ends and nothing else. */
  lemma TrimSplits(s: string) returns (lead: string, trail: string)
    ensures AllSpace(lead) && AllSpace(trail) && s == lead + Trim(s) + trail
    ensures Trimmed(Trim(s))
  {
    lead := TrimStartSplits(s);
    trail := TrimEndSplits(TrimStart(s));
    assert Trim(s) != "" ==> Trim(s)[0] == TrimStart(s)[0];
  }

  lemma {:induction false} TrimStartSpace(lead: string, s: string)
    requires AllSpace(lead)
    ensures TrimStart(lead + s) == TrimStart(s)
  {
    if lead == "" {
      assert lead + s == s;
    } else {
      assert (lead + s)[1..] == lead[1..] + s;
      TrimStartSpace(lead[1..], s);
    }
  }

  /** Leading white space does not matter. */
  lemma TrimLead(lead: string, s: string)
    requires AllSpace(lead)
    ensures Trim(lead + s) == Trim(s)
  {
    TrimStartSpace(lead, s);
  }

  lemma {:induction false} TrimEndSpace(s: string, trail: string)
    requires AllSpace(trail) && (s != "" ==> !IsWhitespace(s[|s| - 1]))
    ensures TrimEnd(s + trail) == s
  {
    if trail == "" {
      assert s + trail == s;
    } else {
      assert (s + trail)[..|s + trail| - 1] == s + trail[..|trail| - 1];
      TrimEndSpace(s, trail[..|trail| - 1]);
    }
  }

  /** Trailing white space is what trimming removes. */
  lemma TrimTrail(s: string, trail: string)
    requires s != "" && Trimmed(s) && AllSpace(trail)
    ensures Trim(s + trail) == s
  {
    assert (s + trail)[0] == s[0];
    TrimEndSpace(s, trail);
  }

  lemma {:induction false} TrimEndKeepsPrefix(s: string, more: string)
    requires s != "" && !IsWhitespace(s[|s| - 1])
    ensures s <= TrimEnd(s + more)
  {
    var whole := s + more;
    if more == "" {
      assert whole == s;
    } else if IsWhitespace(whole[|whole| - 1]) {
      assert whole[..|whole| - 1] == s + more[..|more| - 1];
      TrimEndKeepsPrefix(s, more[..|more| - 1]);
    }
  }

  /** Trimming keeps trimmed text that something follows. */
  lemma TrimKeepsPrefix(s: string, more: string)
    requires s != "" && Trimmed(s)
    ensures s <= Trim(s + more)
  {
    assert (s + more)[0] == s[0];
    TrimEndKeepsPrefix(s, more);
  }

  // ----- numbers in decimal -----

  predicate IsDigit(c: char) {
    '0' <= c <= '9'
  }

  function DecimalValue(digits: string): nat
    requires forall i | 0 <= i < |digits| :: IsDigit(digits[i])
  {
    if digits == [] then 0
    else
      var last := digits[|digits| - 1];
      assert IsDigit(last);
      10 * DecimalValue(digits[..|digits| - 1]) + (last as int - '0' as int)
  }

  /** The digits of a number. */
  function Decimal(n: nat): (digits: string)
    ensures digits != "" && forall i | 0 <= i < |digits| :: IsDigit(digits[i])
  {
    var digit := ['0' + (n % 10) as char];
    if n < 10 then digit else Decimal(n / 10) + digit
  }

  lemma {:induction false} DecimalReads(n: nat)
    ensures DecimalValue(Decimal(n)) == n
  {
    if n >= 10 {
      DecimalReads(n / 10);
      assert Decimal(n)[..|Decimal(n)| - 1] == Decimal(n / 10);
    }
  }

  lemma {:induction false} DecimalLeads(n: nat)
    ensures n > 0 ==> Decimal(n)[0] != '0'
  {
    if n >= 10 {
      DecimalLeads(n / 10);
      assert Decimal(n)[0] == Decimal(n / 10)[0];
    }
  }

  /** Digits without leading zeros. */
  predicate IsDecimal(s: string) {
    s != "" && (forall i | 0 <= i < |s| :: IsDigit(s[i])) && (s[0] == '0' ==> |s| == 1)
  }

  lemma {:induction false} ValueLeads(digits: string)
    requires IsDecimal(digits) && digits != "0"
    ensures DecimalValue(digits) > 0
  {
    var init := digits[..|digits| - 1];
    if init != "" {
      assert init[0] == digits[0];
      ValueLeads(init);
    } else {
      assert digits == [digits[0]];
    }
  }

  lemma DecimalAppend(n: nat, digit: nat)
    requires digit < 10
    ensures Decimal(10 * n + digit) == (if n == 0 then "" else Decimal(n)) + ['0' + digit as char]
  {
    var whole := 10 * n + digit;
    assert whole / 10 == n && whole % 10 == digit && (whole < 10 <==> n == 0);
  }

  /** Such digits are the only ones of their value. */
  lemma {:induction false} DecimalUnique(digits: string)
    requires IsDecimal(digits)
    ensures Decimal(DecimalValue(digits)) == digits
  {
    var init, last := digits[..|digits| - 1], digits[|digits| - 1];
    assert digits == init + [last] && IsDigit(last);
    var n, digit := DecimalValue(init), last as int - '0' as int;
    DecimalAppend(n, digit);
    assert '0' + digit as char == last;
    if init != "" {
      assert init[0] == digits[0];
      ValueLeads(init);
      DecimalUnique(init);
    }
  }
}
