/** What the canonical form looks like: which arrays lose their order, and how members
    and elements are arranged. */
module CanonicalOrder {
  import opened Common
  import opened Sorting
  import opened JsonText
  import opened Canonical

  // ----- the order of texts -----

  /** Code point by code point: one text starts the other, or the first difference decides. */
  predicate Ascends(a: string, b: string) {
    a <= b || exists n: nat | n < |a| && n < |b| :: a[..n] == b[..n] && a[n] < b[n]
  }

  lemma {:induction false} StringLeAscends(a: string, b: string)
    ensures StringLe(a, b) <==> Ascends(a, b)
  {
    if a != "" && b != "" && a[0] == b[0] {
      StringLeAscends(a[1..], b[1..]);
      AscendsTail(a, b);
    } else if a != "" && b != "" {
      assert a[..0] == b[..0];
      assert forall n: nat | 0 < n < |a| && n < |b| :: a[..n][0] == a[0] && b[..n][0] == b[0];
    }
  }

  lemma AscendsTail(a: string, b: string)
    requires a != "" && b != "" && a[0] == b[0]
    ensures Ascends(a, b) <==> Ascends(a[1..], b[1..])
  {
    assert a <= b <==> a[1..] <= b[1..] by {
      assert a == [a[0]] + a[1..] && b == [b[0]] + b[1..];
    }
    if n: nat :| n < |a| && n < |b| && a[..n] == b[..n] && a[n] < b[n] {
      assert n > 0;
      assert a[1..][..n - 1] == a[..n][1..] && b[1..][..n - 1] == b[..n][1..];
      assert a[1..][n - 1] < b[1..][n - 1];
    }
    if n: nat :| n < |a[1..]| && n < |b[1..]| && a[1..][..n] == b[1..][..n] && a[1..][n] < b[1..][n] {
      assert a[..n + 1] == [a[0]] + a[1..][..n] && b[..n + 1] == [b[0]] + b[1..][..n];
      assert a[n + 1] < b[n + 1];
    }
  }

  // ----- labels -----

  predicate HasText(members: seq<Member>, key: string, text: string) {
    Member(key, String(text)) in members
  }

  /** The text that an array element is sorted by: its kind and its value, or its
      reference, or else its title. */
  ghost predicate Labelled(v: Json, rank: string) {
    match v
    case Null => rank == "null"
    case Bool(b) => rank == if b then "b:true" else "b:false"
    case Number(repr) => rank == "n:" + repr
    case String(text) => rank == "s:" + text
    case Array(_) => false
    case Object(members) =>
      || (exists text :: HasText(members, "$ref", text) && rank == "ref:" + text)
      || ((forall text :: !HasText(members, "$ref", text)) &&
          exists text :: HasText(members, "title", text) && rank == "title:" + text)
  }

  /** A null, a boolean, a number, a string, or an object with a reference or a title. */
  ghost predicate Sortable(v: Json) {
    || v.Null? || v.Bool? || v.Number? || v.String?
    || (v.Object? && exists text :: HasText(v.members, "$ref", text) || HasText(v.members, "title", text))
  }

  lemma MemberText(members: seq<Member>, key: string, text: string)
    requires DistinctKeys(members)
    ensures HasText(members, key, text) <==> StringMember(members, key) == Some(text)
  {
    if HasText(members, key, text) {
      var i: nat :| i < |members| && members[i] == Member(key, String(text));
      LookupAt(members, i);
    }
    if StringMember(members, key) == Some(text) {
      LookupFound(members, key);
    }
  }

  lemma {:induction false} LookupFound(members: seq<Member>, key: string)
    requires Lookup(members, key).Some?
    ensures Member(key, Lookup(members, key).value) in members
  {
    if members[0].key != key {
      LookupFound(members[1..], key);
    } else {
      assert members[0] == Member(key, Lookup(members, key).value);
    }
  }

  lemma LabelIff(v: Json, rank: string)
    requires WellFormed(v)
    ensures SortKey(v) == Some(rank) <==> Labelled(v, rank)
  {
    if v.Object? {
      forall key, text ensures HasText(v.members, key, text) <==> StringMember(v.members, key) == Some(text) {
        MemberText(v.members, key, text);
      }
    }
  }

  lemma SortableIff(v: Json)
    requires WellFormed(v)
    ensures Sortable(v) <==> SortKey(v).Some?
  {
    if v.Object? {
      forall key, text ensures HasText(v.members, key, text) <==> StringMember(v.members, key) == Some(text) {
        MemberText(v.members, key, text);
      }
    }
  }

  // ----- arrays -----

  ghost predicate AllWellFormed(items: seq<Json>) {
    forall i | 0 <= i < |items| :: WellFormed(items[i])
  }

  ghost predicate AllSortable(items: seq<Json>) {
    forall i | 0 <= i < |items| :: Sortable(items[i])
  }

  lemma KeyedIff(items: seq<Json>)
    requires AllWellFormed(items)
    ensures AllSortable(items) <==> AllKeyed(items)
    ensures AllKeyed(CanonItems(items)) <==> AllKeyed(items)
  {
    forall i | 0 <= i < |items| ensures Sortable(items[i]) <==> SortKey(items[i]).Some? {
      SortableIff(items[i]);
    }
    CanonKeepsAllKeyed(items);
  }

  /** The order of nulls, booleans, numbers, strings and objects with a reference or a
      title does not matter. */
  lemma OrderIgnored(items: seq<Json>, others: seq<Json>)
    requires AllWellFormed(items) && AllSortable(items) && multiset(items) == multiset(others)
    ensures Canon(Array(items)) == Canon(Array(others))
  {
    SameElements(items, others);
    forall i | 0 <= i < |others| ensures WellFormed(others[i]) {
      assert others[i] in items;
    }
    KeyedIff(items);
    var p := FindPermutation(items, others);
    forall i | 0 <= i < |items| ensures Equivalent(items[i], others[p[i]]) {
      CanonicalForm(items[i], items[i]);
    }
    assert EquivalentItems(items, others);
    CanonicalForm(Array(items), Array(others));
  }

  /** An array with any other element keeps its order. */
  lemma OrderKept(items: seq<Json>, i: nat)
    requires AllWellFormed(items) && i < |items| && !Sortable(items[i])
    ensures var r := Canon(Array(items));
            r.Array? && |r.items| == |items| && forall k | 0 <= k < |items| :: r.items[k] == Canon(items[k])
  {
    KeyedIff(items);
  }

  /** By kind and value, reference or title, and where that is the same by text. */
  ghost predicate Precedes(v: Json, w: Json) {
    forall a, b | Labelled(v, a) && Labelled(w, b) :: if a == b then Ascends(Text(v), Text(w)) else Ascends(a, b)
  }

  lemma ItemPrecedes(v: Json, w: Json)
    requires WellFormed(v) && WellFormed(w) && ItemLe(v, w)
    ensures Precedes(v, w)
  {
    forall a, b | Labelled(v, a) && Labelled(w, b)
      ensures if a == b then Ascends(Text(v), Text(w)) else Ascends(a, b)
    {
      LabelIff(v, a);
      LabelIff(w, b);
      StringLeAscends(a, b);
      StringLeAscends(Text(v), Text(w));
    }
  }

  lemma SortedPrecede(images: seq<Json>)
    requires AllWellFormed(images)
    ensures var r := Sort(ItemLe, images);
            multiset(r) == multiset(images) && forall i, j | 0 <= i < j < |r| :: Precedes(r[i], r[j])
  {
    var r := Sort(ItemLe, images);
    SortKeeps(ItemLe, images);
    SortElements(ItemLe, images);
    ItemLeTotal();
    SortSorts(ItemLe, images);
    forall i, j | 0 <= i < j < |r| ensures Precedes(r[i], r[j]) {
      assert r[i] in images && r[j] in images;
      ItemPrecedes(r[i], r[j]);
    }
  }

  /** The elements of the other arrays come in that order; none is lost. */
  lemma ElementsAscend(items: seq<Json>)
    requires AllWellFormed(items) && AllSortable(items)
    ensures Canon(Array(items)).Array?
    ensures var r := Canon(Array(items)).items;
            multiset(r) == multiset(CanonItems(items)) && forall i, j | 0 <= i < j < |r| :: Precedes(r[i], r[j])
  {
    KeyedIff(items);
    CanonItemsWellFormed(items);
    SortedPrecede(CanonItems(items));
  }

  // ----- objects -----

  /** The members of an object come in ascending order of their keys; none is lost. */
  lemma MembersAscend(members: seq<Member>)
    ensures Canon(Object(members)).Object?
    ensures var r := Canon(Object(members)).members;
            && multiset(r) == multiset(CanonMembers(members))
            && (forall i, j | 0 <= i < j < |r| :: Ascends(r[i].key, r[j].key))
  {
    var images := CanonMembers(members);
    var r := Sort(MemberLe, images);
    SortKeeps(MemberLe, images);
    MemberLeTotal();
    SortSorts(MemberLe, images);
    forall i, j | 0 <= i < j < |r| ensures Ascends(r[i].key, r[j].key) {
      assert MemberLe(r[i], r[j]);
      StringLeAscends(r[i].key, r[j].key);
    }
  }
}
