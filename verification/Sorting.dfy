/** Stable sorting by a comparison, permutations, and the order on strings. */
module Sorting {

  ghost predicate TotalPreorder<T(!new)>(le: (T, T) -> bool) {
    && (forall x, y :: le(x, y) || le(y, x))
    && (forall x, y, z :: le(x, y) && le(y, z) ==> le(x, z))
  }

  ghost predicate Sorted<T>(le: (T, T) -> bool, s: seq<T>) {
    forall i, j | 0 <= i < j < |s| :: le(s[i], s[j])
  }

  /** No two different elements compare as equal. */
  ghost predicate Antisymmetric<T>(le: (T, T) -> bool, s: seq<T>) {
    forall x, y | x in s && y in s && le(x, y) && le(y, x) :: x == y
  }

  function Insert<T>(le: (T, T) -> bool, x: T, s: seq<T>): seq<T> {
    if s == [] then [x]
    else if le(x, s[0]) then [x] + s
    else [s[0]] + Insert(le, x, s[1..])
  }

  function Sort<T>(le: (T, T) -> bool, s: seq<T>): seq<T> {
    if s == [] then [] else Insert(le, s[0], Sort(le, s[1..]))
  }

  lemma {:induction false} InsertKeeps<T>(le: (T, T) -> bool, x: T, s: seq<T>)
    ensures multiset(Insert(le, x, s)) == multiset{x} + multiset(s)
  {
    if s != [] && !le(x, s[0]) {
      InsertKeeps(le, x, s[1..]);
      assert s == [s[0]] + s[1..];
    }
  }

  lemma {:induction false} InsertSorts<T(!new)>(le: (T, T) -> bool, x: T, s: seq<T>)
    requires TotalPreorder(le) && Sorted(le, s)
    ensures Sorted(le, Insert(le, x, s))
  {
    if s == [] {
    } else if le(x, s[0]) {
      var r := [x] + s;
      forall i, j | 0 <= i < j < |r| ensures le(r[i], r[j]) {
        if i == 0 && j > 1 {
          assert le(s[0], s[j - 1]);
        }
      }
    } else {
      var rest := Insert(le, x, s[1..]);
      InsertSorts(le, x, s[1..]);
      InsertKeeps(le, x, s[1..]);
      forall y | y in rest ensures le(s[0], y) {
        assert y in multiset(rest);
        assert y == x || y in s[1..];
      }
    }
  }

  lemma {:induction false} SortKeeps<T>(le: (T, T) -> bool, s: seq<T>)
    ensures multiset(Sort(le, s)) == multiset(s)
    ensures |Sort(le, s)| == |s|
  {
    if s != [] {
      SortKeeps(le, s[1..]);
      InsertKeeps(le, s[0], Sort(le, s[1..]));
      assert s == [s[0]] + s[1..];
    }
    assert |multiset(Sort(le, s))| == |multiset(s)|;
  }

  lemma {:induction false} SortSorts<T(!new)>(le: (T, T) -> bool, s: seq<T>)
    requires TotalPreorder(le)
    ensures Sorted(le, Sort(le, s))
  {
    if s != [] {
      SortSorts(le, s[1..]);
      InsertSorts(le, s[0], Sort(le, s[1..]));
    }
  }

  lemma SameElements<T>(a: seq<T>, b: seq<T>)
    requires multiset(a) == multiset(b)
    ensures |a| == |b|
    ensures forall x :: x in a <==> x in b
  {
    assert |multiset(a)| == |multiset(b)|;
    forall x ensures x in a <==> x in b {
      assert x in a <==> x in multiset(a);
      assert x in b <==> x in multiset(b);
    }
  }

  lemma TailMultiset<T>(s: seq<T>)
    requires s != []
    ensures multiset(s[1..]) == multiset(s) - multiset{s[0]} && s == [s[0]] + s[1..]
  {
    assert s == [s[0]] + s[1..];
  }

  lemma SameLeast<T(!new)>(le: (T, T) -> bool, a: seq<T>, b: seq<T>)
    requires TotalPreorder(le) && Antisymmetric(le, a)
    requires Sorted(le, a) && Sorted(le, b) && multiset(a) == multiset(b) && a != []
    ensures b != [] && a[0] == b[0]
  {
    SameElements(a, b);
    assert a[0] in b && b[0] in a;
    assert le(a[0], b[0]) && le(b[0], a[0]);
  }

  /** A collection has only one sorted arrangement when comparing separates its elements. */
  lemma {:induction false} SortedUnique<T(!new)>(le: (T, T) -> bool, a: seq<T>, b: seq<T>)
    requires TotalPreorder(le) && Antisymmetric(le, a)
    requires Sorted(le, a) && Sorted(le, b) && multiset(a) == multiset(b)
    ensures a == b
  {
    SameElements(a, b);
    if a != [] {
      SameLeast(le, a, b);
      TailMultiset(a);
      TailMultiset(b);
      SortedUnique(le, a[1..], b[1..]);
    }
  }

  function Map<A, B>(f: A -> B, s: seq<A>): (r: seq<B>)
    ensures |r| == |s|
    ensures forall i | 0 <= i < |s| :: r[i] == f(s[i])
  {
    seq(|s|, i requires 0 <= i < |s| => f(s[i]))
  }

  lemma {:induction false} InsertMap<A, B>(leA: (A, A) -> bool, leB: (B, B) -> bool, f: A -> B, x: A, s: seq<A>)
    requires forall y | y in s :: leA(x, y) == leB(f(x), f(y))
    ensures Insert(leB, f(x), Map(f, s)) == Map(f, Insert(leA, x, s))
  {
    if s != [] {
      assert Map(f, s)[1..] == Map(f, s[1..]);
      assert s[0] in s;
      if !leA(x, s[0]) {
        InsertMap(leA, leB, f, x, s[1..]);
      }
    }
  }

  /** Sorting commutes with a map that respects the comparisons. */
  lemma {:induction false} SortMap<A, B>(leA: (A, A) -> bool, leB: (B, B) -> bool, f: A -> B, s: seq<A>)
    requires forall x, y | x in s && y in s :: leA(x, y) == leB(f(x), f(y))
    ensures Sort(leB, Map(f, s)) == Map(f, Sort(leA, s))
  {
    if s != [] {
      assert Map(f, s)[1..] == Map(f, s[1..]);
      SortMap(leA, leB, f, s[1..]);
      var rest, sorted := s[1..], Sort(leA, s[1..]);
      SortKeeps(leA, rest);
      forall y | y in sorted ensures leA(s[0], y) == leB(f(s[0]), f(y)) {
        assert y in multiset(sorted) && y in multiset(rest);
        assert y in s && s[0] in s;
      }
      InsertMap(leA, leB, f, s[0], sorted);
    }
  }

  // ----- permutations -----

  ghost predicate IsPermutation(p: seq<nat>, n: nat) {
    && |p| == n
    && (forall i | 0 <= i < n :: p[i] < n)
    && (forall i, j | 0 <= i < j < n :: p[i] != p[j])
  }

  function Without<T>(s: seq<T>, k: nat): seq<T>
    requires k < |s|
  {
    s[..k] + s[k + 1..]
  }

  lemma WithoutMultiset<T>(s: seq<T>, k: nat)
    requires k < |s|
    ensures multiset(s) == multiset(Without(s, k)) + multiset{s[k]}
    ensures multiset(Without(s, k)) == multiset(s) - multiset{s[k]}
  {
    assert s == s[..k] + [s[k]] + s[k + 1..];
    assert multiset(s) == multiset(s[..k]) + multiset{s[k]} + multiset(s[k + 1..]);
    assert multiset(Without(s, k)) == multiset(s[..k]) + multiset(s[k + 1..]);
  }

  lemma LastMultiset<T>(s: seq<T>)
    requires s != []
    ensures multiset(s[..|s| - 1]) == multiset(s) - multiset{s[|s| - 1]}
    ensures multiset(s) == multiset(s[..|s| - 1]) + multiset{s[|s| - 1]}
  {
    assert s == s[..|s| - 1] + [s[|s| - 1]];
  }

  /** A permutation without its last position, as positions of what is left. */
  function Shrink(p: seq<nat>): (q: seq<nat>)
    requires p != []
    ensures |q| == |p| - 1
    ensures forall i | 0 <= i < |q| :: q[i] == if p[i] > p[|q|] then p[i] - 1 else p[i]
  {
    seq(|p| - 1, i requires 0 <= i < |p| - 1 => if p[i] > p[|p| - 1] then p[i] - 1 else p[i])
  }

  lemma ShrinkArranges<T>(a: seq<T>, b: seq<T>, p: seq<nat>)
    requires |a| == |b| > 0 && IsPermutation(p, |a|)
    requires forall i | 0 <= i < |a| :: a[i] == b[p[i]]
    ensures var n := |a| - 1;
            IsPermutation(Shrink(p), n) && forall i | 0 <= i < n :: a[..n][i] == Without(b, p[n])[Shrink(p)[i]]
  {
    var n := |a| - 1;
    assert forall i | 0 <= i < n :: p[i] != p[n];
  }

  /** Rearranging by a permutation keeps the multiset. */
  lemma {:induction false} PermutationKeeps<T>(a: seq<T>, b: seq<T>, p: seq<nat>)
    requires |a| == |b| && IsPermutation(p, |a|)
    requires forall i | 0 <= i < |a| :: a[i] == b[p[i]]
    ensures multiset(a) == multiset(b)
  {
    if a != [] {
      var n := |a| - 1;
      ShrinkArranges(a, b, p);
      PermutationKeeps(a[..n], Without(b, p[n]), Shrink(p));
      WithoutMultiset(b, p[n]);
      LastMultiset(a);
    }
  }

  /** The positions `q` refers to in a sequence without position `k`, as positions of the whole. */
  function Reinsert(q: seq<nat>, k: nat): (p: seq<nat>)
    ensures |p| == |q|
    ensures forall i | 0 <= i < |q| :: p[i] == if q[i] >= k then q[i] + 1 else q[i]
  {
    seq(|q|, i requires 0 <= i < |q| => if q[i] >= k then q[i] + 1 else q[i])
  }

  lemma ReinsertIsPermutation(q: seq<nat>, k: nat, n: nat)
    requires IsPermutation(q, n) && k <= n
    ensures IsPermutation(Reinsert(q, k) + [k], n + 1)
  {
  }

  lemma ReinsertArranges<T>(a: seq<T>, b: seq<T>, q: seq<nat>, k: nat)
    requires |a| == |b| > 0 && k < |b| && b[k] == a[|a| - 1] && IsPermutation(q, |a| - 1)
    requires forall i | 0 <= i < |a| - 1 :: a[i] == Without(b, k)[q[i]]
    ensures var p := Reinsert(q, k) + [k]; IsPermutation(p, |a|) && forall i | 0 <= i < |a| :: a[i] == b[p[i]]
  {
    ReinsertIsPermutation(q, k, |a| - 1);
  }

  /** Sequences with the same multiset are rearrangements of one another. */
  lemma {:induction false} FindPermutation<T>(a: seq<T>, b: seq<T>) returns (p: seq<nat>)
    requires multiset(a) == multiset(b)
    ensures |a| == |b| && IsPermutation(p, |a|)
    ensures forall i | 0 <= i < |a| :: a[i] == b[p[i]]
  {
    SameElements(a, b);
    if a == [] {
      p := [];
    } else {
      var n := |a| - 1;
      LastMultiset(a);
      assert a[n] in b;
      var k: nat :| k < |b| && b[k] == a[n];
      WithoutMultiset(b, k);
      var q := FindPermutation(a[..n], Without(b, k));
      assert forall i | 0 <= i < n :: a[..n][i] == a[i];
      ReinsertArranges(a, b, q, k);
      p := Reinsert(q, k) + [k];
    }
  }

  ghost predicate Rearranged<T>(a: seq<T>, b: seq<T>) {
    |a| == |b| && exists p :: IsPermutation(p, |a|) && forall i | 0 <= i < |a| :: a[i] == b[p[i]]
  }

  lemma RearrangedByMultiset<T>(a: seq<T>, b: seq<T>)
    ensures Rearranged(a, b) <==> multiset(a) == multiset(b)
  {
    if Rearranged(a, b) {
      var p :| IsPermutation(p, |a|) && forall i | 0 <= i < |a| :: a[i] == b[p[i]];
      PermutationKeeps(a, b, p);
    }
    if multiset(a) == multiset(b) {
      var p := FindPermutation(a, b);
    }
  }

  lemma SortElements<T>(le: (T, T) -> bool, s: seq<T>)
    ensures |Sort(le, s)| == |s|
    ensures forall x :: x in Sort(le, s) <==> x in s
  {
    SortKeeps(le, s);
    SameElements(Sort(le, s), s);
  }

  /** Sorting tells exactly whether two collections are the same. */
  lemma SortDecides<T(!new)>(le: (T, T) -> bool, a: seq<T>, b: seq<T>)
    requires TotalPreorder(le) && Antisymmetric(le, a)
    ensures Sort(le, a) == Sort(le, b) <==> Rearranged(a, b)
  {
    RearrangedByMultiset(a, b);
    SortKeeps(le, a);
    SortKeeps(le, b);
    if multiset(a) == multiset(b) {
      SortSorts(le, a);
      SortSorts(le, b);
      SortElements(le, a);
      SortedUnique(le, Sort(le, a), Sort(le, b));
    }
  }

  lemma SortIdempotent<T(!new)>(le: (T, T) -> bool, s: seq<T>)
    requires TotalPreorder(le) && Antisymmetric(le, s)
    ensures Sort(le, Sort(le, s)) == Sort(le, s)
  {
    SortKeeps(le, s);
    RearrangedByMultiset(s, Sort(le, s));
    SortDecides(le, s, Sort(le, s));
  }

  // ----- strings -----

  /** Order by code points, a prefix first. */
  predicate StringLe(a: string, b: string) {
    a == "" || (b != "" && (a[0] < b[0] || (a[0] == b[0] && StringLe(a[1..], b[1..]))))
  }

  lemma {:induction false} StringLeTotal(a: string, b: string)
    ensures StringLe(a, b) || StringLe(b, a)
    ensures StringLe(a, b) && StringLe(b, a) ==> a == b
  {
    if a != "" && b != "" {
      StringLeTotal(a[1..], b[1..]);
      if a[0] == b[0] && a[1..] == b[1..] {
        assert a == [a[0]] + a[1..] && b == [b[0]] + b[1..];
      }
    }
  }

  lemma {:induction false} StringLeTransitive(a: string, b: string, c: string)
    requires StringLe(a, b) && StringLe(b, c)
    ensures StringLe(a, c)
  {
    if a != "" && a[0] == b[0] && b[0] == c[0] {
      StringLeTransitive(a[1..], b[1..], c[1..]);
    }
  }
}
