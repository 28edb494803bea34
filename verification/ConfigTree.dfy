/** In-memory edits of the user configuration: reading a dotted path, setting
    or merging a value at a path, and clearing a path. */
module ConfigTree {
  import opened Common
  import opened Strings

  datatype Toml =
    | String(text: string)
    | Integer(int)
    | Float(real)
    | Boolean(bool)
    | Datetime(stamp: string)
    | Array(items: seq<Toml>)
    | Table(entries: map<string, Toml>)

  datatype Strategy = Replace | Upsert

  datatype MergeError = EmptyKeyPath | NonTableParent

  /** The tree after an edit together with what the edit reports. The tree is
      part of the outcome on failure too: the edit works in place. */
  datatype Outcome = Outcome(root: Toml, result: Result<bool, MergeError>)

  /** Combines an existing table with an overlay table. */
  type Merger = (Toml, Toml) -> Toml

  const I64_MAX: nat := 0x7FFF_FFFF_FFFF_FFFF

  // ----- reading a path -----

  predicate AllDigits(s: string) {
    forall i | 0 <= i < |s| :: IsDigit(s[i])
  }

  /** A segment read as an array index: a signed 64-bit decimal, with an optional
      sign and leading zeros, that is not negative. */
  function ParseIndex(segment: string): Option<nat> {
    var signed := segment != "" && (segment[0] == '+' || segment[0] == '-');
    var digits := if signed then segment[1..] else segment;
    if digits == "" || !AllDigits(digits) then None
    else
      var n := DecimalValue(digits);
      if segment[0] == '-' && n != 0 then None
      else if n > I64_MAX then None
      else Some(n)
  }

  /** The value found by following the segments through tables and array indices. */
  function ValueAt(root: Toml, segments: seq<string>): Option<Toml>
    decreases |segments|
  {
    if segments == [] then Some(root)
    else
      match root
      case Table(entries) =>
        if segments[0] in entries then ValueAt(entries[segments[0]], segments[1..]) else None
      case Array(items) =>
        var index := ParseIndex(segments[0]);
        if index.Some? && index.value < |items| then ValueAt(items[index.value], segments[1..]) else None
      case _ => None
  }

  function Zeros(k: nat): string {
    if k == 0 then "" else "0" + Zeros(k - 1)
  }

  /** The spellings of a position: the number in decimal behind any zeros, with a plus
      sign or without, and zero also with a minus sign. */
  predicate Spells(segment: string, sign: string, k: nat, n: nat) {
    segment == sign + (Zeros(k) + Decimal(n)) && (sign == "" || sign == "+" || (sign == "-" && n == 0))
  }

  lemma {:induction false} LeadingZero(digits: string)
    requires AllDigits(digits)
    ensures AllDigits("0" + digits) && DecimalValue("0" + digits) == DecimalValue(digits)
  {
    var all := "0" + digits;
    if digits != "" {
      LeadingZero(digits[..|digits| - 1]);
      assert all[..|all| - 1] == "0" + digits[..|digits| - 1];
    } else {
      assert all[..0] == "";
    }
  }

  lemma {:induction false} LeadingZeros(k: nat, digits: string)
    requires AllDigits(digits)
    ensures AllDigits(Zeros(k) + digits) && DecimalValue(Zeros(k) + digits) == DecimalValue(digits)
  {
    if k == 0 {
      assert Zeros(k) + digits == digits;
    } else {
      var rest := Zeros(k - 1) + digits;
      assert Zeros(k) + digits == "0" + rest;
      LeadingZeros(k - 1, digits);
      LeadingZero(rest);
    }
  }

  lemma {:induction false} StripZeros(digits: string) returns (k: nat)
    requires digits != "" && AllDigits(digits)
    ensures digits == Zeros(k) + Decimal(DecimalValue(digits))
  {
    if IsDecimal(digits) {
      DecimalUnique(digits);
      k := 0;
    } else {
      var rest := StripZeros(digits[1..]);
      LeadingZero(digits[1..]);
      assert digits == "0" + digits[1..];
      k := rest + 1;
    }
  }

  lemma IndexOf(sign: string, digits: string)
    requires digits != "" && AllDigits(digits)
    requires sign == "" || sign == "+" || sign == "-"
    ensures ParseIndex(sign + digits) ==
            if DecimalValue(digits) > I64_MAX || (sign == "-" && DecimalValue(digits) != 0) then None
            else Some(DecimalValue(digits))
  {
    if sign == "" {
      assert sign + digits == digits && IsDigit(digits[0]);
    } else {
      assert (sign + digits)[1..] == digits && (sign + digits)[0] == sign[0];
    }
  }

  lemma Unsigned(segment: string) returns (sign: string, digits: string)
    requires ParseIndex(segment).Some?
    ensures sign == "" || sign == "+" || sign == "-"
    ensures segment == sign + digits && digits != "" && AllDigits(digits)
  {
    if segment[0] == '+' || segment[0] == '-' {
      sign, digits := [segment[0]], segment[1..];
    } else {
      sign, digits := "", segment;
    }
  }

  /** A segment is read as a position exactly when it is one of its spellings and the
      position fits in 64 bits with a sign. */
  lemma IndexIff(segment: string, n: nat)
    ensures ParseIndex(segment) == Some(n) <==> n <= I64_MAX && exists sign, k :: Spells(segment, sign, k, n)
  {
    if ParseIndex(segment) == Some(n) {
      var sign, digits := Unsigned(segment);
      IndexOf(sign, digits);
      var k := StripZeros(digits);
      assert Spells(segment, sign, k, n);
    }
    if n <= I64_MAX {
      if sign, k :| Spells(segment, sign, k, n) {
        DecimalReads(n);
        LeadingZeros(k, Decimal(n));
        IndexOf(sign, Zeros(k) + Decimal(n));
      }
    }
  }

  /** Every element of an array is read under its position written in decimal. */
  lemma IndexReads(items: seq<Toml>, n: nat, rest: seq<string>)
    requires n < |items| && n <= I64_MAX
    ensures ParseIndex(Decimal(n)) == Some(n)
    ensures ValueAt(Array(items), [Decimal(n)] + rest) == ValueAt(items[n], rest)
  {
    DecimalReads(n);
    assert IsDigit(Decimal(n)[0]);
    assert ([Decimal(n)] + rest)[1..] == rest;
  }

  /** The value found by following the segments through tables only. */
  function TableWalk(root: Toml, segments: seq<string>): Option<Toml>
    decreases |segments|
  {
    if segments == [] then Some(root)
    else if root.Table? && segments[0] in root.entries then TableWalk(root.entries[segments[0]], segments[1..])
    else None
  }

  // ----- editing a path -----

  /** Walks to the parent, replacing every non-table on the way by an empty
      table, and stores or merges the value there. The parent itself must
      already be a table. */
  function SetAt(root: Toml, segments: seq<string>, value: Toml, strategy: Strategy, merge: Merger): Outcome
    decreases |segments|
  {
    if segments == [] then Outcome(root, Err(EmptyKeyPath))
    else if |segments| == 1 then
      if !root.Table? then Outcome(root, Err(NonTableParent))
      else
        var t, last := root.entries, segments[0];
        if strategy.Upsert? && last in t && t[last].Table? && value.Table? then
          Outcome(Table(t[last := merge(t[last], value)]), Ok(true))
        else
          Outcome(Table(t[last := value]), Ok(!(last in t && t[last] == value)))
    else
      var t := if root.Table? then root.entries else map[];
      var child := if segments[0] in t then t[segments[0]] else Table(map[]);
      var below := SetAt(child, segments[1..], value, strategy, merge);
      Outcome(Table(t[segments[0] := below.root]), below.result)
  }

  /** Removes the last segment from the table the other segments lead to, if
      they lead to a table. */
  function ClearAt(root: Toml, segments: seq<string>): Outcome
    decreases |segments|
  {
    if segments == [] then Outcome(root, Err(EmptyKeyPath))
    else if !root.Table? then Outcome(root, Ok(false))
    else if |segments| == 1 then
      Outcome(Table(root.entries - {segments[0]}), Ok(segments[0] in root.entries))
    else if segments[0] !in root.entries then Outcome(root, Ok(false))
    else
      var below := ClearAt(root.entries[segments[0]], segments[1..]);
      Outcome(Table(root.entries[segments[0] := below.root]), below.result)
  }

  /** An absent value clears the path, a present one is set or merged. */
  function ApplyMerge(root: Toml, segments: seq<string>, value: Option<Toml>, strategy: Strategy,
                      merge: Merger): Outcome {
    match value
    case None => ClearAt(root, segments)
    case Some(v) => SetAt(root, segments, v, strategy, merge)
  }

  // ----- laws -----

  /** The paths part ways before either ends. */
  predicate Diverge(p: seq<string>, q: seq<string>) {
    p != [] && q != [] && (p[0] != q[0] || Diverge(p[1..], q[1..]))
  }

  ghost predicate FramePreserved(before: Toml, after: Toml, path: seq<string>) {
    forall q | Diverge(path, q) :: ValueAt(after, q) == ValueAt(before, q)
  }

  /** Setting `segments` walks into an array above the parent, and so replaces it. */
  predicate PassesArray(root: Toml, segments: seq<string>)
    decreases |segments|
  {
    |segments| >= 2 &&
    (root.Array? ||
     (root.Table? && segments[0] in root.entries && PassesArray(root.entries[segments[0]], segments[1..])))
  }

  /** As `PassesArray`, for an array that has at least one element. */
  predicate PassesNonemptyArray(root: Toml, segments: seq<string>)
    decreases |segments|
  {
    |segments| >= 2 &&
    ((root.Array? && root.items != []) ||
     (root.Table? && segments[0] in root.entries && PassesNonemptyArray(root.entries[segments[0]], segments[1..])))
  }

  /** What the path holds after a successful set. */
  function Stored(existing: Option<Toml>, value: Toml, strategy: Strategy, merge: Merger): Toml {
    if strategy.Upsert? && existing.Some? && existing.value.Table? && value.Table? then merge(existing.value, value)
    else value
  }

  /** A set fails exactly when the path is empty or its parent is an existing
      non-table reached through tables, and a failing set changes nothing even
      though it creates missing tables as it walks. */
  lemma {:induction false} SetFailure(root: Toml, segments: seq<string>, value: Toml, strategy: Strategy, merge: Merger)
    ensures var out := SetAt(root, segments, value, strategy, merge);
            && (out.result.Err? <==>
                  segments == [] ||
                  var parent := TableWalk(root, segments[..|segments| - 1]);
                  parent.Some? && !parent.value.Table?)
            && (out.result.Err? ==> out.root == root)
    decreases |segments|
  {
    if |segments| >= 2 {
      var t := if root.Table? then root.entries else map[];
      var child := if segments[0] in t then t[segments[0]] else Table(map[]);
      var rest := segments[1..];
      SetFailure(child, rest, value, strategy, merge);
      assert segments[..|segments| - 1][1..] == rest[..|rest| - 1];
      if segments[0] !in t {
        assert rest[..|rest| - 1] == [] || TableWalk(child, rest[..|rest| - 1]) == None;
      } else {
        assert t[segments[0] := t[segments[0]]] == t;
      }
    }
  }

  /** A successful set can be read back, and it reports a change exactly when
      the path did not already hold the value in nested tables or two tables are merged. */
  lemma {:induction false} SetReadsBack(root: Toml, segments: seq<string>, value: Toml, strategy: Strategy,
                                        merge: Merger)
    requires SetAt(root, segments, value, strategy, merge).result.Ok?
    ensures var out := SetAt(root, segments, value, strategy, merge);
            && ValueAt(out.root, segments) == Some(Stored(TableWalk(root, segments), value, strategy, merge))
            && TableWalk(out.root, segments) == ValueAt(out.root, segments)
            && (out.result.value <==>
                  var found := TableWalk(root, segments);
                  found != Some(value) || (strategy.Upsert? && found.value.Table?))
    decreases |segments|
  {
    if |segments| >= 2 {
      var t := if root.Table? then root.entries else map[];
      var child := if segments[0] in t then t[segments[0]] else Table(map[]);
      SetReadsBack(child, segments[1..], value, strategy, merge);
      if segments[0] !in t {
        assert TableWalk(child, segments[1..]) == None;
      }
    } else {
      assert segments[1..] == [];
      var out := SetAt(root, segments, value, strategy, merge).root;
      assert ValueAt(out, segments) == ValueAt(out.entries[segments[0]], segments[1..]);
      assert TableWalk(out, segments) == TableWalk(out.entries[segments[0]], segments[1..]);
      if segments[0] in root.entries {
        assert TableWalk(root, segments) == TableWalk(root.entries[segments[0]], segments[1..]);
      }
    }
  }

  /** Reading any diverging path is unaffected when no nonempty array is replaced. */
  lemma {:induction false} SetKeepsDiverging(root: Toml, p: seq<string>, value: Toml, strategy: Strategy,
                                             merge: Merger, q: seq<string>)
    requires Diverge(p, q) && !PassesNonemptyArray(root, p)
    ensures ValueAt(SetAt(root, p, value, strategy, merge).root, q) == ValueAt(root, q)
    decreases |p|
  {
    if |p| >= 2 {
      var t := if root.Table? then root.entries else map[];
      var child := if p[0] in t then t[p[0]] else Table(map[]);
      if p[0] == q[0] {
        SetKeepsDiverging(child, p[1..], value, strategy, merge, q[1..]);
      }
    }
  }

  /** A path that diverges from `p` and reads an element of the array that a set on `p` replaces. */
  lemma {:induction false} ReplacedArrayWitness(root: Toml, p: seq<string>, value: Toml, strategy: Strategy,
                                                merge: Merger)
    returns (q: seq<string>)
    requires PassesNonemptyArray(root, p)
    ensures Diverge(p, q)
    ensures ValueAt(root, q).Some?
    ensures SetAt(root, p, value, strategy, merge).result.Ok? ==>
              ValueAt(SetAt(root, p, value, strategy, merge).root, q) == None
    decreases |p|
  {
    if root.Array? {
      q := if p[0] == "0" then ["00"] else ["0"];
      assert DecimalValue("0") == 0;
      assert DecimalValue("00") == 0 by { assert "00"[..1] == "0"; }
      assert q[1..] == [];
    } else {
      var rest := ReplacedArrayWitness(root.entries[p[0]], p[1..], value, strategy, merge);
      q := [p[0]] + rest;
    }
  }

  /** Setting a path leaves every diverging path readable as before if and only
      if the walk replaces no nonempty array: scalars have nothing below them,
      but an array's elements are readable by index. */
  lemma SetFrame(root: Toml, p: seq<string>, value: Toml, strategy: Strategy, merge: Merger)
    requires SetAt(root, p, value, strategy, merge).result.Ok?
    ensures FramePreserved(root, SetAt(root, p, value, strategy, merge).root, p) <==> !PassesNonemptyArray(root, p)
  {
    if PassesNonemptyArray(root, p) {
      var q := ReplacedArrayWitness(root, p, value, strategy, merge);
    } else {
      forall q | Diverge(p, q) {
        SetKeepsDiverging(root, p, value, strategy, merge, q);
      }
    }
  }

  /** Clearing reports whether the path was there in nested tables, makes it
      unreadable when it was, and keeps every diverging path. */
  lemma {:induction false} ClearLaws(root: Toml, p: seq<string>)
    requires p != []
    ensures var out := ClearAt(root, p);
            && out.result == Ok(TableWalk(root, p).Some?)
            && (out.result == Ok(true) ==> ValueAt(out.root, p) == None)
            && (out.result == Ok(false) ==> out.root == root)
            && FramePreserved(root, out.root, p)
    decreases |p|
  {
    var out := ClearAt(root, p);
    if |p| >= 2 && root.Table? && p[0] in root.entries {
      ClearLaws(root.entries[p[0]], p[1..]);
      var below := ClearAt(root.entries[p[0]], p[1..]);
      forall q | Diverge(p, q)
        ensures ValueAt(out.root, q) == ValueAt(root, q)
      {
        if p[0] == q[0] {
          assert ValueAt(below.root, q[1..]) == ValueAt(root.entries[p[0]], q[1..]);
        }
      }
      if below.result == Ok(false) {
        assert root.entries[p[0] := root.entries[p[0]]] == root.entries;
      }
    } else if |p| == 1 && root.Table? {
      assert p[0] !in root.entries ==> root.entries - {p[0]} == root.entries;
      if p[0] in root.entries {
        assert TableWalk(root, p) == TableWalk(root.entries[p[0]], p[1..]);
      }
    }
  }

  /** Clearing the same path again finds nothing to clear. */
  lemma ClearTwice(root: Toml, p: seq<string>)
    requires p != []
    ensures var once := ClearAt(root, p).root;
            ClearAt(once, p) == Outcome(once, Ok(false))
  {
    ClearLaws(root, p);
    var once := ClearAt(root, p).root;
    ClearLaws(once, p);
    WalkIsRead(once, p);
  }

  /** Whatever a walk through tables finds, reading the path finds too. */
  lemma {:induction false} WalkIsRead(root: Toml, p: seq<string>)
    ensures TableWalk(root, p).Some? ==> ValueAt(root, p) == TableWalk(root, p)
    decreases |p|
  {
    if p != [] && root.Table? && p[0] in root.entries {
      WalkIsRead(root.entries[p[0]], p[1..]);
    }
  }
}
