/** The normal form used to compare schema fixtures: members sorted by key, and
    arrays sorted when every element has a sort key. */
module Canonical {
  import opened Common
  import opened Sorting
  import opened JsonText

  function Lookup(members: seq<Member>, key: string): Option<Json> {
    if members == [] then None
    else if members[0].key == key then Some(members[0].value)
    else Lookup(members[1..], key)
  }

  function StringMember(members: seq<Member>, key: string): Option<string> {
    match Lookup(members, key)
    case Some(String(text)) => Some(text)
    case _ => None
  }

  /** The key by which an array element may be sorted, if it has one. */
  function SortKey(v: Json): Option<string> {
    match v
    case Null => Some("null")
    case Bool(b) => Some(if b then "b:true" else "b:false")
    case Number(repr) => Some("n:" + repr)
    case String(text) => Some("s:" + text)
    case Object(members) =>
      var reference, title := StringMember(members, "$ref"), StringMember(members, "title");
      if reference.Some? then Some("ref:" + reference.value)
      else if title.Some? then Some("title:" + title.value)
      else None
    case Array(_) => None
  }

  predicate AllKeyed(items: seq<Json>) {
    forall i | 0 <= i < |items| :: SortKey(items[i]).Some?
  }

  function KeyText(v: Json): string {
    var key := SortKey(v);
    if key.Some? then key.value else ""
  }

  /** By sort key, then by text. */
  predicate ItemLe(v: Json, w: Json) {
    if KeyText(v) == KeyText(w) then StringLe(Text(v), Text(w)) else StringLe(KeyText(v), KeyText(w))
  }

  predicate MemberLe(a: Member, b: Member) {
    StringLe(a.key, b.key)
  }

  function Canon(v: Json): Json
    decreases v, 1
  {
    match v
    case Array(items) =>
      var images := CanonItems(items);
      Array(if AllKeyed(images) then Sort(ItemLe, images) else images)
    case Object(members) => Object(Sort(MemberLe, CanonMembers(members)))
    case _ => v
  }

  function CanonItems(items: seq<Json>): (r: seq<Json>)
    ensures |r| == |items|
    ensures forall i | 0 <= i < |items| :: r[i] == Canon(items[i])
    decreases items, 0
  {
    seq(|items|, i requires 0 <= i < |items| => Canon(items[i]))
  }

  function CanonMembers(members: seq<Member>): (r: seq<Member>)
    ensures |r| == |members|
    ensures forall i | 0 <= i < |members| :: r[i] == Member(members[i].key, Canon(members[i].value))
    decreases members, 0
  {
    seq(|members|, i requires 0 <= i < |members| => Member(members[i].key, Canon(members[i].value)))
  }

  /** The documents differ only by the order of object members and of elements
      of arrays whose every element has a sort key, at any depth. */
  ghost predicate Equivalent(v: Json, w: Json)
    decreases v, 1
  {
    match (v, w)
    case (Array(a), Array(b)) => EquivalentInOrder(a, b) || (AllKeyed(a) && EquivalentItems(a, b))
    case (Object(a), Object(b)) => EquivalentMembers(a, b)
    case _ => v == w
  }

  ghost predicate EquivalentInOrder(a: seq<Json>, b: seq<Json>)
    decreases a, 0
  {
    |a| == |b| && forall i | 0 <= i < |a| :: Equivalent(a[i], b[i])
  }

  ghost predicate EquivalentItems(a: seq<Json>, b: seq<Json>)
    decreases a, 0
  {
    |a| == |b| && exists p :: IsPermutation(p, |a|) && forall i | 0 <= i < |a| :: Equivalent(a[i], b[p[i]])
  }

  ghost predicate EquivalentMembers(a: seq<Member>, b: seq<Member>)
    decreases a, 0
  {
    |a| == |b| && exists p :: IsPermutation(p, |a|) &&
                     forall i | 0 <= i < |a| :: a[i].key == b[p[i]].key && Equivalent(a[i].value, b[p[i]].value)
  }

  // ----- the orders -----

  lemma MemberLeTotal()
    ensures TotalPreorder(MemberLe)
  {
    forall a: Member, b: Member ensures MemberLe(a, b) || MemberLe(b, a) {
      StringLeTotal(a.key, b.key);
    }
    forall a: Member, b: Member, c: Member | MemberLe(a, b) && MemberLe(b, c) ensures MemberLe(a, c) {
      StringLeTransitive(a.key, b.key, c.key);
    }
  }

  lemma ItemLeTotal()
    ensures TotalPreorder(ItemLe)
  {
    forall v, w ensures ItemLe(v, w) || ItemLe(w, v) {
      StringLeTotal(KeyText(v), KeyText(w));
      StringLeTotal(Text(v), Text(w));
    }
    forall u, v, w | ItemLe(u, v) && ItemLe(v, w) ensures ItemLe(u, w) {
      StringLeTotal(KeyText(u), KeyText(v));
      StringLeTotal(KeyText(v), KeyText(w));
      if KeyText(u) == KeyText(v) == KeyText(w) {
        StringLeTransitive(Text(u), Text(v), Text(w));
      } else {
        StringLeTransitive(KeyText(u), KeyText(v), KeyText(w));
      }
    }
  }

  lemma ItemsSeparated(items: seq<Json>)
    requires forall i | 0 <= i < |items| :: WellFormed(items[i])
    ensures Antisymmetric(ItemLe, items)
  {
    forall v, w | v in items && w in items && ItemLe(v, w) && ItemLe(w, v) ensures v == w {
      StringLeTotal(KeyText(v), KeyText(w));
      StringLeTotal(Text(v), Text(w));
      TextInjective(v, w);
    }
  }

  lemma MembersSeparated(members: seq<Member>)
    requires DistinctKeys(members)
    ensures Antisymmetric(MemberLe, members)
  {
    forall a, b | a in members && b in members && MemberLe(a, b) && MemberLe(b, a) ensures a == b {
      StringLeTotal(a.key, b.key);
    }
  }

  // ----- well-formed documents stay well formed -----

  lemma SortDistinctKeys(a: seq<Member>)
    requires DistinctKeys(a)
    ensures DistinctKeys(Sort(MemberLe, a))
  {
    var b := Sort(MemberLe, a);
    SortKeeps(MemberLe, a);
    var p := FindPermutation(b, a);
    forall i, j | 0 <= i < j < |b| ensures b[i].key != b[j].key {
      assert b[i] == a[p[i]] && b[j] == a[p[j]];
    }
  }

  lemma {:induction false} CanonWellFormed(v: Json)
    requires WellFormed(v)
    ensures WellFormed(Canon(v))
    decreases v, 1
  {
    match v
    case Array(items) =>
      CanonItemsWellFormed(items);
      SortedItemsWellFormed(CanonItems(items));
    case Object(members) =>
      CanonMembersWellFormed(members);
      SortedMembersWellFormed(CanonMembers(members));
    case _ =>
  }

  lemma SortedItemsWellFormed(items: seq<Json>)
    requires forall i | 0 <= i < |items| :: WellFormed(items[i])
    ensures WellFormed(Array(Sort(ItemLe, items)))
  {
    var sorted := Sort(ItemLe, items);
    SortElements(ItemLe, items);
    forall i | 0 <= i < |sorted| ensures WellFormed(sorted[i]) {
      assert sorted[i] in items;
    }
  }

  lemma SortedMembersWellFormed(members: seq<Member>)
    requires DistinctKeys(members)
    requires forall i | 0 <= i < |members| :: WellFormed(members[i].value)
    ensures WellFormed(Object(Sort(MemberLe, members)))
  {
    var sorted := Sort(MemberLe, members);
    SortElements(MemberLe, members);
    SortDistinctKeys(members);
    forall i | 0 <= i < |sorted| ensures WellFormed(sorted[i].value) {
      assert sorted[i] in members;
    }
  }

  lemma {:induction false} CanonItemsWellFormed(items: seq<Json>)
    requires forall i | 0 <= i < |items| :: WellFormed(items[i])
    ensures forall i | 0 <= i < |items| :: WellFormed(CanonItems(items)[i])
    decreases items, 0
  {
    forall i | 0 <= i < |items| ensures WellFormed(CanonItems(items)[i]) {
      CanonWellFormed(items[i]);
    }
  }

  lemma {:induction false} CanonMembersWellFormed(members: seq<Member>)
    requires forall i | 0 <= i < |members| :: WellFormed(members[i].value)
    ensures forall i | 0 <= i < |members| :: WellFormed(CanonMembers(members)[i].value)
    decreases members, 0
  {
    forall i | 0 <= i < |members| ensures WellFormed(CanonMembers(members)[i].value) {
      CanonWellFormed(members[i].value);
    }
  }

  // ----- sort keys do not depend on the order -----

  lemma {:induction false} LookupAt(members: seq<Member>, i: nat)
    requires i < |members| && DistinctKeys(members)
    ensures Lookup(members, members[i].key) == Some(members[i].value)
  {
    if i > 0 {
      assert members[i].key == members[1..][i - 1].key;
      LookupAt(members[1..], i - 1);
    }
  }

  lemma {:induction false} LookupNone(members: seq<Member>, key: string)
    requires forall i | 0 <= i < |members| :: members[i].key != key
    ensures Lookup(members, key) == None
  {
    if members != [] {
      LookupNone(members[1..], key);
    }
  }

  /** Canonicalising the members keeps every string member as it is. */
  lemma CanonKeepsStrings(members: seq<Member>, key: string)
    requires DistinctKeys(members)
    ensures StringMember(Sort(MemberLe, CanonMembers(members)), key) == StringMember(members, key)
  {
    var images := CanonMembers(members);
    var sorted := Sort(MemberLe, images);
    SortElements(MemberLe, images);
    SortDistinctKeys(images);
    if i: nat :| i < |members| && members[i].key == key {
      LookupAt(members, i);
      assert images[i] in sorted;
      var j: nat :| j < |sorted| && sorted[j] == images[i];
      LookupAt(sorted, j);
    } else {
      LookupNone(members, key);
      forall j | 0 <= j < |sorted| ensures sorted[j].key != key {
        assert sorted[j] in images;
      }
      LookupNone(sorted, key);
    }
  }

  lemma CanonKeepsSortKey(v: Json)
    requires WellFormed(v)
    ensures SortKey(Canon(v)) == SortKey(v)
  {
    if v.Object? {
      CanonKeepsStrings(v.members, "$ref");
      CanonKeepsStrings(v.members, "title");
    }
  }

  lemma CanonKeepsAllKeyed(items: seq<Json>)
    requires forall i | 0 <= i < |items| :: WellFormed(items[i])
    ensures AllKeyed(CanonItems(items)) <==> AllKeyed(items)
  {
    forall i | 0 <= i < |items| ensures SortKey(CanonItems(items)[i]) == SortKey(items[i]) {
      CanonKeepsSortKey(items[i]);
    }
  }

  // ----- the normal form -----

  /** What matching the elements by canonical form means for the whole sequences. */
  lemma InOrderByImage(a: seq<Json>, b: seq<Json>)
    requires forall i, j | 0 <= i < |a| && 0 <= j < |b| :: Equivalent(a[i], b[j]) <==> Canon(a[i]) == Canon(b[j])
    ensures EquivalentInOrder(a, b) <==> CanonItems(a) == CanonItems(b)
  {
    var x, y := CanonItems(a), CanonItems(b);
    if EquivalentInOrder(a, b) {
      assert x == y;
    }
    if x == y {
      forall i | 0 <= i < |a| ensures Equivalent(a[i], b[i]) {
        assert x[i] == y[i];
      }
    }
  }

  lemma ItemsByImage(a: seq<Json>, b: seq<Json>)
    requires forall i, j | 0 <= i < |a| && 0 <= j < |b| :: Equivalent(a[i], b[j]) <==> Canon(a[i]) == Canon(b[j])
    ensures EquivalentItems(a, b) <==> Rearranged(CanonItems(a), CanonItems(b))
  {
    var x, y := CanonItems(a), CanonItems(b);
    if EquivalentItems(a, b) {
      var p :| IsPermutation(p, |a|) && forall i | 0 <= i < |a| :: Equivalent(a[i], b[p[i]]);
      assert IsPermutation(p, |x|) && forall i | 0 <= i < |x| :: x[i] == y[p[i]];
    }
    if Rearranged(x, y) {
      var p :| IsPermutation(p, |x|) && forall i | 0 <= i < |x| :: x[i] == y[p[i]];
      assert IsPermutation(p, |a|) && forall i | 0 <= i < |a| :: Equivalent(a[i], b[p[i]]);
    }
  }

  lemma MemberByImage(m: Member, n: Member)
    requires Equivalent(m.value, n.value) <==> Canon(m.value) == Canon(n.value)
    ensures m.key == n.key && Equivalent(m.value, n.value) <==>
            Member(m.key, Canon(m.value)) == Member(n.key, Canon(n.value))
  {
  }

  ghost predicate ByImage(a: seq<Member>, b: seq<Member>) {
    forall i, j | 0 <= i < |a| && 0 <= j < |b| ::
      Equivalent(a[i].value, b[j].value) <==> Canon(a[i].value) == Canon(b[j].value)
  }

  lemma MembersToImages(a: seq<Member>, b: seq<Member>)
    requires ByImage(a, b) && EquivalentMembers(a, b)
    ensures Rearranged(CanonMembers(a), CanonMembers(b))
  {
    var p :| IsPermutation(p, |a|) &&
             forall i | 0 <= i < |a| :: a[i].key == b[p[i]].key && Equivalent(a[i].value, b[p[i]].value);
    forall i | 0 <= i < |a| ensures CanonMembers(a)[i] == CanonMembers(b)[p[i]] {
      MemberByImage(a[i], b[p[i]]);
    }
  }

  lemma ImagesToMembers(a: seq<Member>, b: seq<Member>)
    requires ByImage(a, b) && Rearranged(CanonMembers(a), CanonMembers(b))
    ensures EquivalentMembers(a, b)
  {
    var x, y := CanonMembers(a), CanonMembers(b);
    var p :| IsPermutation(p, |x|) && forall i | 0 <= i < |x| :: x[i] == y[p[i]];
    forall i | 0 <= i < |a| ensures a[i].key == b[p[i]].key && Equivalent(a[i].value, b[p[i]].value) {
      MemberByImage(a[i], b[p[i]]);
    }
  }

  lemma MembersByImage(a: seq<Member>, b: seq<Member>)
    requires ByImage(a, b)
    ensures EquivalentMembers(a, b) <==> Rearranged(CanonMembers(a), CanonMembers(b))
  {
    if EquivalentMembers(a, b) {
      MembersToImages(a, b);
    }
    if Rearranged(CanonMembers(a), CanonMembers(b)) {
      ImagesToMembers(a, b);
    }
  }

  /** Whether an array is sorted shows in the result, so equal results come from
      equal or rearranged elements. */
  lemma ArrayResults(x: seq<Json>, y: seq<Json>)
    requires Antisymmetric(ItemLe, x)
    ensures (if AllKeyed(x) then Sort(ItemLe, x) else x) == (if AllKeyed(y) then Sort(ItemLe, y) else y)
       <==> x == y || (AllKeyed(x) && Rearranged(x, y))
  {
    ItemLeTotal();
    SortDecides(ItemLe, x, y);
    SortElements(ItemLe, x);
    SortElements(ItemLe, y);
    RearrangedByMultiset(x, y);
    if multiset(x) == multiset(y) {
      SameElements(x, y);
    }
    assert AllKeyed(x) <==> forall v | v in x :: SortKey(v).Some?;
    assert AllKeyed(y) <==> forall v | v in y :: SortKey(v).Some?;
  }

  /** Two documents have the same canonical form if and only if they differ only
      by allowed reorderings. */
  lemma {:induction false} CanonicalForm(v: Json, w: Json)
    requires WellFormed(v) && WellFormed(w)
    ensures Equivalent(v, w) <==> Canon(v) == Canon(w)
    decreases v
  {
    match (v, w)
    case (Array(a), Array(b)) =>
      forall i, j | 0 <= i < |a| && 0 <= j < |b| ensures Equivalent(a[i], b[j]) <==> Canon(a[i]) == Canon(b[j]) {
        CanonicalForm(a[i], b[j]);
      }
      InOrderByImage(a, b);
      ItemsByImage(a, b);
      CanonItemsWellFormed(a);
      ItemsSeparated(CanonItems(a));
      CanonKeepsAllKeyed(a);
      ArrayResults(CanonItems(a), CanonItems(b));
    case (Object(a), Object(b)) =>
      forall i, j | 0 <= i < |a| && 0 <= j < |b|
        ensures Equivalent(a[i].value, b[j].value) <==> Canon(a[i].value) == Canon(b[j].value)
      {
        CanonicalForm(a[i].value, b[j].value);
      }
      MembersByImage(a, b);
      MemberLeTotal();
      MembersSeparated(CanonMembers(a));
      SortDecides(MemberLe, CanonMembers(a), CanonMembers(b));
    case _ =>
  }

  /** Canonicalising twice is canonicalising once. */
  lemma {:induction false} CanonIdempotent(v: Json)
    requires WellFormed(v)
    ensures Canon(Canon(v)) == Canon(v)
    decreases v, 1
  {
    match v
    case Array(items) => ArrayIdempotent(items);
    case Object(members) => ObjectIdempotent(members);
    case _ =>
  }

  lemma {:induction false} ArrayIdempotent(items: seq<Json>)
    requires forall i | 0 <= i < |items| :: WellFormed(items[i])
    ensures Canon(Canon(Array(items))) == Canon(Array(items))
    decreases items, 0
  {
    var images, result := CanonItems(items), Canon(Array(items)).items;
    SortElements(ItemLe, images);
    forall i | 0 <= i < |result| ensures Canon(result[i]) == result[i] {
      assert result[i] in images;
      var j :| 0 <= j < |images| && images[j] == result[i];
      CanonIdempotent(items[j]);
    }
    assert CanonItems(result) == result;
    if AllKeyed(images) {
      forall i | 0 <= i < |result| ensures SortKey(result[i]).Some? {
        assert result[i] in images;
      }
      CanonItemsWellFormed(items);
      ItemLeTotal();
      ItemsSeparated(images);
      SortIdempotent(ItemLe, images);
    }
  }

  lemma {:induction false} ObjectIdempotent(members: seq<Member>)
    requires DistinctKeys(members) && forall i | 0 <= i < |members| :: WellFormed(members[i].value)
    ensures Canon(Canon(Object(members))) == Canon(Object(members))
    decreases members, 0
  {
    var images := CanonMembers(members);
    var result := Sort(MemberLe, images);
    SortElements(MemberLe, images);
    forall i | 0 <= i < |result| ensures Canon(result[i].value) == result[i].value {
      assert result[i] in images;
      var j :| 0 <= j < |images| && images[j] == result[i];
      CanonIdempotent(members[j].value);
    }
    assert CanonMembers(result) == result;
    MemberLeTotal();
    MembersSeparated(images);
    SortIdempotent(MemberLe, images);
  }

  /** The canonical form is itself only a reordering of the document. */
  lemma CanonOnlyReorders(v: Json)
    requires WellFormed(v)
    ensures Equivalent(v, Canon(v))
  {
    CanonWellFormed(v);
    CanonIdempotent(v);
    CanonicalForm(v, Canon(v));
  }

  // ----- the procedure -----

  /** An element with the key and the text it is sorted by. */
  datatype Sortable = Sortable(item: Json, key: string, stable: string)

  predicate SortableLe(a: Sortable, b: Sortable) {
    if a.key == b.key then StringLe(a.stable, b.stable) else StringLe(a.key, b.key)
  }

  /** Sorts the elements if all have a key; gives up on the first without one. */
  method Arrange(images: seq<Json>) returns (r: seq<Json>)
    ensures r == if AllKeyed(images) then Sort(ItemLe, images) else images
  {
    var sortable: seq<Sortable> := [];
    for i := 0 to |images|
      invariant |sortable| == i
      invariant forall j | 0 <= j < i :: SortKey(images[j]).Some?
      invariant forall j | 0 <= j < i :: sortable[j] == Sortable(images[j], KeyText(images[j]), Text(images[j]))
    {
      var key := SortKey(images[i]);
      if key.None? {
        return images;
      }
      sortable := sortable + [Sortable(images[i], key.value, Text(images[i]))];
    }
    var item := (s: Sortable) => s.item;
    SortMap(SortableLe, ItemLe, item, sortable);
    assert Map(item, sortable) == images;
    r := Map(item, Sort(SortableLe, sortable));
  }

  lemma SortCanonMembers(members: seq<Member>)
    ensures CanonMembers(Sort(MemberLe, members)) == Sort(MemberLe, CanonMembers(members))
  {
    var image := (m: Member) => Member(m.key, Canon(m.value));
    SortMap(MemberLe, MemberLe, image, members);
    assert Map(image, members) == CanonMembers(members);
    assert Map(image, Sort(MemberLe, members)) == CanonMembers(Sort(MemberLe, members));
  }

  /** Computes the canonical form: the elements of an array before they are
      arranged, the entries of an object after they are sorted. */
  method Canonicalize(v: Json) returns (r: Json)
    ensures r == Canon(v)
    decreases v, 1
  {
    match v {
      case Array(items) =>
        var images := CanonicalizeItems(items);
        images := Arrange(images);
        r := Array(images);
      case Object(members) =>
        var entries := Sort(MemberLe, members);
        SortElements(MemberLe, members);
        SortCanonMembers(members);
        var sorted := CanonicalizeEntries(entries, members);
        r := Object(sorted);
      case _ => r := v;
    }
  }

  method CanonicalizeItems(items: seq<Json>) returns (images: seq<Json>)
    ensures images == CanonItems(items)
    decreases items, 0
  {
    images := [];
    for i := 0 to |items|
      invariant images == CanonItems(items)[..i]
    {
      var image := Canonicalize(items[i]);
      images := images + [image];
    }
  }

  method CanonicalizeEntries(entries: seq<Member>, ghost members: seq<Member>) returns (sorted: seq<Member>)
    requires forall i | 0 <= i < |entries| :: entries[i] in members
    ensures sorted == CanonMembers(entries)
    decreases members, 0
  {
    sorted := [];
    for i := 0 to |entries|
      invariant sorted == CanonMembers(entries)[..i]
    {
      assert entries[i] in members;
      var child := Canonicalize(entries[i].value);
      sorted := sorted + [Member(entries[i].key, child)];
    }
  }
}
