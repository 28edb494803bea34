/** Text with percent escapes of UTF-8 bytes, as in the fragment of a URI. */
module PercentText {
  import opened Common

  function HexValue(c: char): Option<nat> {
    if '0' <= c <= '9' then Some(c as int - '0' as int)
    else if 'a' <= c <= 'f' then Some(c as int - 'a' as int + 10)
    else if 'A' <= c <= 'F' then Some(c as int - 'A' as int + 10)
    else None
  }

  /** The byte that the escape at a position spells. */
  function ByteAt(s: string, i: nat): Option<nat> {
    if i + 3 > |s| || s[i] != '%' then None
    else
      var high, low := HexValue(s[i + 1]), HexValue(s[i + 2]);
      if high.None? || low.None? then None else Some(16 * high.value + low.value)
  }

  /** The code that `n` continuation bytes complete. */
  function Continued(s: string, i: nat, n: nat, code: nat): Option<nat>
    decreases n
  {
    if n == 0 then Some(code)
    else
      var b := ByteAt(s, i);
      if b.None? || !(0x80 <= b.value < 0xC0) then None else Continued(s, i + 3, n - 1, 64 * code + b.value - 0x80)
  }

  /** How the first byte of a character announces it: how many bytes continue it, what
      the first one adds, and the least code that needs so many. */
  datatype Lead = Lead(more: nat, code: nat, least: nat)

  function LeadOf(b: nat): Option<Lead> {
    if b < 0x80 then Some(Lead(0, b, 0))
    else if 0xC0 <= b < 0xE0 then Some(Lead(1, b - 0xC0, 0x80))
    else if 0xE0 <= b < 0xF0 then Some(Lead(2, b - 0xE0, 0x800))
    else if 0xF0 <= b < 0xF8 then Some(Lead(3, b - 0xF0, 0x10000))
    else None
  }

  predicate IsScalar(code: nat) {
    code < 0xD800 || 0xE000 <= code < 0x11_0000
  }

  datatype Escape = Escape(c: char, length: nat)

  /** The character that the escapes at the front spell, in the shortest UTF-8 form. */
  function EscapeAt(s: string): (e: Option<Escape>)
    ensures e.Some? ==> 0 < e.value.length
  {
    var b := ByteAt(s, 0);
    var lead := if b.None? then None else LeadOf(b.value);
    if lead.None? then None
    else
      var code := Continued(s, 3, lead.value.more, lead.value.code);
      if code.None? || code.value < lead.value.least || !IsScalar(code.value) then None
      else Some(Escape(code.value as char, 3 + 3 * lead.value.more))
  }

  /** The text with its escapes decoded, if they are well formed. */
  function Percent(s: string): Option<string>
    decreases |s|
  {
    if s == "" then Some("")
    else if s[0] != '%' then
      var rest := Percent(s[1..]);
      if rest.None? then None else Some([s[0]] + rest.value)
    else
      var e := EscapeAt(s);
      if e.None? || e.value.length > |s| then None
      else
        var rest := Percent(s[e.value.length..]);
        if rest.None? then None else Some([e.value.c] + rest.value)
  }

  /** Text before the first escape stands for itself. */
  lemma {:induction false} PercentPlain(a: string, b: string)
    requires '%' !in a
    ensures Percent(a + b) == if Percent(b).None? then None else Some(a + Percent(b).value)
  {
    if a == "" {
      assert a + b == b;
      assert Percent(b).Some? ==> a + Percent(b).value == Percent(b).value;
    } else {
      assert (a + b)[1..] == a[1..] + b && (a + b)[0] == a[0] && a[0] in a;
      PercentPlain(a[1..], b);
      assert Percent(b).Some? ==> [a[0]] + (a[1..] + Percent(b).value) == a + Percent(b).value;
    }
  }

  // ----- escaping -----

  function HexDigit(n: nat): (c: char)
    requires n < 16
    ensures HexValue(c) == Some(n) && c != '%' && c != '/'
  {
    if n < 10 then '0' + n as char else 'A' + (n - 10) as char
  }

  function EscapeByte(b: nat): string
    requires b < 0x100
  {
    ['%', HexDigit(b / 16), HexDigit(b % 16)]
  }

  predicate Bytes(bytes: seq<nat>) {
    forall i | 0 <= i < |bytes| :: bytes[i] < 0x100
  }

  function EscapeBytes(bytes: seq<nat>): (s: string)
    requires Bytes(bytes)
    ensures |s| == 3 * |bytes|
  {
    if bytes == [] then "" else EscapeByte(bytes[0]) + EscapeBytes(bytes[1..])
  }

  /** The UTF-8 form of a character. */
  function Utf8(c: char): (bytes: seq<nat>)
    ensures bytes != [] && Bytes(bytes)
  {
    var code := c as int;
    if code < 0x80 then [code]
    else if code < 0x800 then [0xC0 + code / 64, 0x80 + code % 64]
    else if code < 0x10000 then [0xE0 + code / 64 / 64, 0x80 + code / 64 % 64, 0x80 + code % 64]
    else [0xF0 + code / 64 / 64 / 64, 0x80 + code / 64 / 64 % 64, 0x80 + code / 64 % 64, 0x80 + code % 64]
  }

  /** The text with every byte of every character escaped. */
  function EscapeAll(s: string): string {
    if s == "" then "" else EscapeBytes(Utf8(s[0])) + EscapeAll(s[1..])
  }

  lemma {:induction false} ByteBack(bytes: seq<nat>, tail: string, k: nat)
    requires Bytes(bytes) && k < |bytes|
    ensures ByteAt(EscapeBytes(bytes) + tail, 3 * k) == Some(bytes[k])
  {
    var s, rest := EscapeBytes(bytes) + tail, EscapeBytes(bytes[1..]) + tail;
    if k == 0 {
      assert s[0] == '%' && s[1] == HexDigit(bytes[0] / 16) && s[2] == HexDigit(bytes[0] % 16);
    } else {
      ByteBack(bytes[1..], tail, k - 1);
      assert s == EscapeByte(bytes[0]) + rest;
      var i := 3 * (k - 1);
      assert s[i + 3] == rest[i] && s[i + 4] == rest[i + 1] && s[i + 5] == rest[i + 2];
    }
  }

  /** Continuation bytes, and what they complete. */
  lemma {:induction false} ContinuedBytes(s: string, bytes: seq<nat>, k: nat, code: nat)
    requires k <= |bytes| && forall i: nat | i < |bytes| :: ByteAt(s, 3 * i) == Some(bytes[i])
    requires forall i | k <= i < |bytes| :: 0x80 <= bytes[i] < 0xC0
    ensures Continued(s, 3 * k, |bytes| - k, code) == Some(Completed(bytes[k..], code))
    decreases |bytes| - k
  {
    if k < |bytes| {
      assert ByteAt(s, 3 * k) == Some(bytes[k]) && 3 * k + 3 == 3 * (k + 1);
      ContinuedBytes(s, bytes, k + 1, 64 * code + bytes[k] - 0x80);
      assert bytes[k..][1..] == bytes[k + 1..];
    }
  }

  function Completed(bytes: seq<nat>, code: nat): nat
    requires forall i | 0 <= i < |bytes| :: 0x80 <= bytes[i]
  {
    if bytes == [] then code else Completed(bytes[1..], 64 * code + bytes[0] - 0x80)
  }

  lemma CompletedThree(a: nat, b: nat, c: nat, code: nat)
    requires a >= 0x80 && b >= 0x80 && c >= 0x80
    ensures Completed([c], code) == 64 * code + c - 0x80
    ensures Completed([b, c], code) == 64 * (64 * code + b - 0x80) + c - 0x80
    ensures Completed([a, b, c], code) == 64 * (64 * (64 * code + a - 0x80) + b - 0x80) + c - 0x80
  {
    assert [a, b, c][1..] == [b, c] && [b, c][1..] == [c] && [c][1..] == [];
    assert Completed([c], 64 * code + b - 0x80) == 64 * (64 * code + b - 0x80) + c - 0x80;
    var more := 64 * code + a - 0x80;
    assert Completed([c], 64 * more + b - 0x80) == 64 * (64 * more + b - 0x80) + c - 0x80;
    assert Completed([b, c], more) == Completed([c], 64 * more + b - 0x80);
  }

  /** Decoding the UTF-8 form of a character gives its code. */
  lemma CodeBack(c: char)
    ensures var bytes := Utf8(c);
            var lead := LeadOf(bytes[0]);
            && lead.Some? && lead.value.more == |bytes| - 1 && lead.value.least <= c as int
            && (forall i | 1 <= i < |bytes| :: 0x80 <= bytes[i] < 0xC0)
            && Completed(bytes[1..], lead.value.code) == c as int
  {
    var code := c as int;
    var bytes, high, higher := Utf8(c), code / 64, code / 64 / 64;
    var lead := LeadOf(bytes[0]).value;
    CompletedThree(0x80 + higher % 64, 0x80 + high % 64, 0x80 + code % 64, lead.code);
    if |bytes| == 2 {
      assert bytes[1..] == [0x80 + code % 64];
    } else if |bytes| == 3 {
      assert bytes[1..] == [0x80 + high % 64, 0x80 + code % 64];
    } else if |bytes| == 4 {
      assert bytes[1..] == [0x80 + higher % 64, 0x80 + high % 64, 0x80 + code % 64];
    }
  }

  /** The escapes of a character are read as that character. */
  lemma EscapeBack(c: char, tail: string)
    ensures EscapeAt(EscapeBytes(Utf8(c)) + tail) == Some(Escape(c, 3 * |Utf8(c)|))
  {
    var bytes := Utf8(c);
    var s := EscapeBytes(bytes) + tail;
    forall k: nat | k < |bytes| ensures ByteAt(s, 3 * k) == Some(bytes[k]) {
      ByteBack(bytes, tail, k);
    }
    assert ByteAt(s, 3 * 0) == Some(bytes[0]);
    CodeBack(c);
    ContinuedBytes(s, bytes, 1, LeadOf(bytes[0]).value.code);
  }

  /** Decoding escaped text gives the text, whatever its characters. */
  lemma {:induction false} PercentRoundTrip(s: string)
    ensures Percent(EscapeAll(s)) == Some(s)
  {
    if s != "" {
      var first, rest := EscapeBytes(Utf8(s[0])), EscapeAll(s[1..]);
      PercentRoundTrip(s[1..]);
      EscapeBack(s[0], rest);
      assert EscapeAll(s) == first + rest && first[0] == '%';
      assert (first + rest)[|first|..] == rest;
      assert [s[0]] + s[1..] == s;
    }
  }

  lemma {:induction false} BytesFree(bytes: seq<nat>)
    requires Bytes(bytes)
    ensures '/' !in EscapeBytes(bytes)
  {
    if bytes != [] {
      BytesFree(bytes[1..]);
    }
  }

  /** Escaped text has no slash. */
  lemma {:induction false} EscapesFree(s: string)
    ensures '/' !in EscapeAll(s)
  {
    if s != "" {
      BytesFree(Utf8(s[0]));
      EscapesFree(s[1..]);
    }
  }
}
