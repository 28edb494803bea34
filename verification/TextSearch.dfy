/** Where a text occurs in another, and what cutting and joining do to it. */
module TextSearch {
  import opened Common
  import opened Strings

  predicate OccursAt(s: string, p: string, i: nat) {
    i + |p| <= |s| && s[i..i + |p|] == p
  }

  predicate Occurs(s: string, p: string) {
    exists i: nat | i <= |s| :: OccursAt(s, p, i)
  }

  // ----- parts of a text -----

  /** What occurs in a part of a text occurs in the text. */
  lemma OccursWithin(a: string, b: string, c: string, p: string)
    requires Occurs(b, p)
    ensures Occurs(a + b + c, p)
  {
    var i: nat :| i <= |b| && OccursAt(b, p, i);
    assert (a + b + c)[|a| + i..|a| + i + |p|] == b[i..i + |p|];
    assert OccursAt(a + b + c, p, |a| + i);
  }

  lemma OccursInSlice(s: string, from: nat, to: nat, p: string)
    requires from <= to <= |s| && Occurs(s[from..to], p)
    ensures Occurs(s, p)
  {
    OccursWithin(s[..from], s[from..to], s[to..], p);
    assert s == s[..from] + s[from..to] + s[to..];
  }

  lemma SliceFree(s: string, from: nat, to: nat, p: string)
    requires from <= to <= |s| && !Occurs(s, p)
    ensures !Occurs(s[from..to], p)
  {
    if Occurs(s[from..to], p) {
      OccursInSlice(s, from, to, p);
    }
  }

  lemma TrimFree(s: string, p: string)
    requires !Occurs(s, p)
    ensures !Occurs(Trim(s), p)
  {
    var lead, trail := TrimSplits(s);
    if Occurs(Trim(s), p) {
      OccursWithin(lead, Trim(s), trail, p);
    }
  }

  // ----- joined texts -----

  lemma CharAt(s: string, p: string, i: nat, k: nat)
    requires OccursAt(s, p, i) && k < |p|
    ensures p[k] == s[i + k]
  {
    assert s[i..i + |p|][k] == s[i + k];
  }

  /** What lies in the first or the second of two joined texts. */
  lemma OccursIn(a: string, b: string, p: string, i: nat)
    requires OccursAt(a + b, p, i) && (i + |p| <= |a| || i >= |a|)
    ensures Occurs(a, p) || Occurs(b, p)
  {
    if i >= |a| {
      var k: nat := i - |a|;
      assert b[k..k + |p|] == (a + b)[i..i + |p|];
      assert OccursAt(b, p, k);
    } else {
      assert a[i..i + |p|] == (a + b)[i..i + |p|];
      assert OccursAt(a, p, i);
    }
  }

  /** What has a character at most at its end does not reach beyond one. */
  lemma OccursAfter(a: string, c: char, b: string, p: string)
    requires p != "" && c !in p[..|p| - 1] && Occurs(a + [c] + b, p)
    ensures Occurs(a + [c], p) || Occurs(b, p)
  {
    var i: nat :| i <= |a + [c] + b| && OccursAt(a + [c] + b, p, i);
    var k := |a| - i;
    assert forall j | 0 <= j < |p| - 1 :: p[..|p| - 1][j] == p[j] && p[j] in p[..|p| - 1];
    if 0 <= k < |p| {
      CharAt(a + [c] + b, p, i, k);
    }
    OccursIn(a + [c], b, p, i);
  }

  /** What does not end with a character of the tail does not reach into it. */
  lemma OccursLeft(a: string, tail: string, p: string)
    requires p != "" && p[|p| - 1] !in tail && Occurs(a + tail, p)
    ensures Occurs(a, p)
  {
    var i: nat :| i <= |a + tail| && OccursAt(a + tail, p, i);
    var last: nat := i + |p| - 1;
    CharAt(a + tail, p, i, |p| - 1);
    assert forall k | |a| <= k < |a + tail| :: (a + tail)[k] == tail[k - |a|] && tail[k - |a|] in tail;
    assert a[i..i + |p|] == (a + tail)[i..i + |p|];
    assert OccursAt(a, p, i);
  }

  /** What does not start with a character of the front does not start in it. */
  lemma OccursRight(lead: string, b: string, p: string)
    requires p != "" && p[0] !in lead && Occurs(lead + b, p)
    ensures Occurs(b, p)
  {
    var i: nat :| i <= |lead + b| && OccursAt(lead + b, p, i);
    CharAt(lead + b, p, i, 0);
    assert forall k | 0 <= k < |lead| :: (lead + b)[k] == lead[k] && lead[k] in lead;
    var k: nat := i - |lead|;
    assert b[k..k + |p|] == (lead + b)[i..i + |p|];
    assert OccursAt(b, p, k);
  }

  /** What does not have a character lies on one side of it. */
  lemma OccursAround(a: string, c: char, b: string, p: string)
    requires p != "" && c !in p && Occurs(a + [c] + b, p)
    ensures Occurs(a, p) || Occurs(b, p)
  {
    OccursAfter(a, c, b, p);
    if Occurs(a + [c], p) {
      OccursLeft(a, [c], p);
    }
  }

  // ----- pieces -----

  lemma {:induction false} FirstPiece(text: string, sep: char)
    ensures Split(text, sep)[0] <= text
  {
    if text != "" {
      FirstPiece(text[1..], sep);
      assert text == [text[0]] + text[1..];
    }
  }

  lemma PrefixFree(s: string, text: string, p: string)
    requires s <= text && !Occurs(text, p)
    ensures !Occurs(s, p)
  {
    SliceFree(text, 0, |s|, p);
    assert text[0..|s|] == s;
  }

  /** What does not occur in a text occurs in none of its pieces. */
  lemma {:induction false} PiecesFree(text: string, sep: char, p: string)
    requires !Occurs(text, p)
    ensures forall piece | piece in Split(text, sep) :: !Occurs(piece, p)
  {
    var pieces := Split(text, sep);
    FirstPiece(text, sep);
    PrefixFree(pieces[0], text, p);
    if text != "" {
      SliceFree(text, 1, |text|, p);
      assert text[1..|text|] == text[1..];
      PiecesFree(text[1..], sep, p);
      var rest := Split(text[1..], sep);
      assert forall i | 1 <= i < |pieces| :: pieces[i] in rest;
    }
  }

  // ----- searching -----

  /** The first occurrence of a text. */
  function Find(s: string, pattern: string): (i: Option<nat>)
    ensures i.Some? ==> i.value + |pattern| <= |s|
  {
    if pattern <= s then Some(0)
    else if s == "" then None
    else
      var rest := Find(s[1..], pattern);
      if rest.None? then None else Some(rest.value + 1)
  }

  lemma StartsAlike(s: string, t: string, pattern: string, n: nat)
    requires |pattern| <= n <= |s| && n <= |t| && s[..n] == t[..n]
    ensures pattern <= s <==> pattern <= t
  {
    assert s[..|pattern|] == s[..n][..|pattern|] == t[..n][..|pattern|] == t[..|pattern|];
    assert pattern <= s <==> pattern == s[..|pattern|];
    assert pattern <= t <==> pattern == t[..|pattern|];
  }

  /** Where a text is found does not depend on what comes after it. */
  lemma {:induction false} FindAgain(s: string, t: string, pattern: string, n: nat)
    requires Find(s, pattern).Some? && Find(s, pattern).value + |pattern| <= n <= |s| && n <= |t| && s[..n] == t[..n]
    ensures Find(t, pattern) == Find(s, pattern)
  {
    StartsAlike(s, t, pattern, n);
    if !(pattern <= s) {
      assert s[1..][..n - 1] == s[..n][1..] == t[..n][1..] == t[1..][..n - 1];
      FindAgain(s[1..], t[1..], pattern, n - 1);
    }
  }

  lemma AtStart(s: string, p: string)
    ensures OccursAt(s, p, 0) <==> p <= s
  {
    assert |p| <= |s| ==> s[0..|p|] == s[..|p|];
  }

  lemma FindStep(s: string, p: string)
    requires s != "" && !(p <= s)
    ensures Find(s, p) == if Find(s[1..], p).None? then None else Some(Find(s[1..], p).value + 1)
  {
  }

  /** The search fails exactly for what does not occur. */
  lemma {:induction false} FindNone(s: string, p: string)
    ensures Find(s, p).None? <==> !Occurs(s, p)
  {
    if p <= s {
      assert s[0..|p|] == p;
      assert OccursAt(s, p, 0);
    } else if s == "" {
      assert forall i: nat | i <= |s| :: !OccursAt(s, p, i);
    } else {
      FindNone(s[1..], p);
      if Occurs(s[1..], p) {
        OccursWithin([s[0]], s[1..], "", p);
        assert [s[0]] + s[1..] + "" == s;
      }
      if Occurs(s, p) {
        var i: nat :| i <= |s| && OccursAt(s, p, i);
        AtStart(s, p);
        assert s[1..][i - 1..i - 1 + |p|] == s[i..i + |p|];
        assert OccursAt(s[1..], p, i - 1);
      }
    }
  }

  /** The search finds the first place. */
  lemma {:induction false} FindLeast(s: string, p: string)
    requires Find(s, p).Some?
    ensures OccursAt(s, p, Find(s, p).value)
    ensures forall k: nat | k < Find(s, p).value :: !OccursAt(s, p, k)
  {
    AtStart(s, p);
    if !(p <= s) {
      FindStep(s, p);
      FindLeast(s[1..], p);
      LeastLater(s, p, Find(s[1..], p).value);
    }
  }

  lemma LeastLater(s: string, p: string, i: nat)
    requires s != "" && !OccursAt(s, p, 0) && OccursAt(s[1..], p, i)
    requires forall k: nat | k < i :: !OccursAt(s[1..], p, k)
    ensures OccursAt(s, p, i + 1) && forall k: nat | k <= i :: !OccursAt(s, p, k)
  {
    assert [s[0]] + s[1..] == s;
    ShiftAt([s[0]], s[1..], p, i);
    forall k: nat | 0 < k <= i ensures !OccursAt(s, p, k) {
      ShiftAt([s[0]], s[1..], p, k - 1);
    }
  }

  lemma FindPlace(s: string, p: string) returns (i: nat)
    requires Find(s, p).Some?
    ensures Find(s, p) == Some(i) && OccursAt(s, p, i) && forall k: nat | k < i :: !OccursAt(s, p, k)
  {
    FindLeast(s, p);
    i := Find(s, p).value;
  }

  lemma FindIs(s: string, p: string, i: nat)
    requires OccursAt(s, p, i) && forall k: nat | k < i :: !OccursAt(s, p, k)
    ensures Find(s, p) == Some(i)
  {
    FindNone(s, p);
    FindLeast(s, p);
  }

  /** Text in front shifts the places. */
  lemma ShiftAt(head: string, rest: string, p: string, k: nat)
    ensures OccursAt(head + rest, p, |head| + k) <==> OccursAt(rest, p, k)
  {
    if k + |p| <= |rest| {
      assert (head + rest)[|head| + k..|head| + k + |p|] == rest[k..k + |p|];
    }
  }

  /** No occurrence starts in the head. */
  predicate StartsBehind(head: string, rest: string, p: string) {
    forall k: nat | k < |head| :: !OccursAt(head + rest, p, k)
  }

  lemma NoneBehind(head: string, rest: string, p: string)
    requires StartsBehind(head, rest, p) && Occurs(head + rest, p)
    ensures Occurs(rest, p)
  {
    var i: nat :| i <= |head + rest| && OccursAt(head + rest, p, i);
    ShiftAt(head, rest, p, i - |head|);
  }

  lemma LeastBehind(head: string, rest: string, p: string, i: nat)
    requires StartsBehind(head, rest, p) && OccursAt(rest, p, i) && forall k: nat | k < i :: !OccursAt(rest, p, k)
    ensures OccursAt(head + rest, p, |head| + i)
    ensures forall k: nat | k < |head| + i :: !OccursAt(head + rest, p, k)
  {
    ShiftAt(head, rest, p, i);
    forall k: nat | |head| <= k < |head| + i ensures !OccursAt(head + rest, p, k) {
      ShiftAt(head, rest, p, k - |head|);
    }
  }

  /** Text in front in which nothing starts shifts what the search finds. */
  lemma FindBehind(head: string, rest: string, p: string)
    requires StartsBehind(head, rest, p)
    ensures Find(head + rest, p) == if Find(rest, p).None? then None else Some(|head| + Find(rest, p).value)
  {
    if Find(rest, p).None? {
      NothingBehind(head, rest, p);
    } else {
      SomethingBehind(head, rest, p);
    }
  }

  lemma NothingBehind(head: string, rest: string, p: string)
    requires StartsBehind(head, rest, p) && Find(rest, p).None?
    ensures Find(head + rest, p).None?
  {
    FindNone(rest, p);
    FindNone(head + rest, p);
    if Occurs(head + rest, p) {
      NoneBehind(head, rest, p);
    }
  }

  lemma SomethingBehind(head: string, rest: string, p: string)
    requires StartsBehind(head, rest, p) && Find(rest, p).Some?
    ensures Find(head + rest, p) == Some(|head| + Find(rest, p).value)
  {
    var i := FindPlace(rest, p);
    FoundBehind(head, rest, p, i);
  }

  lemma FoundBehind(head: string, rest: string, p: string, i: nat)
    requires StartsBehind(head, rest, p) && OccursAt(rest, p, i) && forall k: nat | k < i :: !OccursAt(rest, p, k)
    ensures Find(head + rest, p) == Some(|head| + i)
  {
    LeastBehind(head, rest, p, i);
    FindIs(head + rest, p, |head| + i);
  }

  lemma StartsInLine(line: string, rest: string, p: string, k: nat)
    requires k <= |line| && OccursAt(line + ['\n'] + rest, p, k)
    ensures Occurs(line, p) || '\n' in p
  {
    var all := line + ['\n'] + rest;
    if k + |p| <= |line| {
      assert line[k..k + |p|] == all[k..k + |p|];
      assert OccursAt(line, p, k);
    } else {
      CharAt(all, p, k, |line| - k);
    }
  }

  /** Nothing without line ends starts in a line in which it does not occur. */
  lemma LineBehind(line: string, rest: string, p: string)
    requires '\n' !in p && !Occurs(line, p)
    ensures StartsBehind(line + ['\n'], rest, p)
  {
    forall k: nat | k <= |line| ensures !OccursAt(line + ['\n'] + rest, p, k) {
      if OccursAt(line + ['\n'] + rest, p, k) {
        StartsInLine(line, rest, p, k);
      }
    }
  }

  lemma StartsBehindBoth(a: string, b: string, rest: string, p: string)
    requires StartsBehind(a, b + rest, p) && StartsBehind(b, rest, p)
    ensures StartsBehind(a + b, rest, p)
  {
    assert a + (b + rest) == a + b + rest;
    forall k: nat | |a| <= k < |a + b| ensures !OccursAt(a + b + rest, p, k) {
      ShiftAt(a, b + rest, p, k - |a|);
    }
  }
}
