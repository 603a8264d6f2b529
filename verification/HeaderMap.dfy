/**
 TinyWebServer/src/util/headermap.h and strcasecmp of util.h: names compared without regard
 to case, a hash on the first letter, and the table that is indexed by it.
 */
module HeaderMap {
  import opened Url
  import opened Wrappers

  const INT_RANGE: nat := 0x1_0000_0000     // a size difference is cut to an int

  function ToLower(c: Byte): Byte {
    if 'A' <= c <= 'Z' then (c as int + 32) as char else c
  }

  /** strncasecmp on two strings of the same size: it stops at the first NUL. */
  predicate SameUpToNul(l: Bytes, r: Bytes)
    requires |l| == |r|
  {
    l == [] ||
    (ToLower(l[0]) == ToLower(r[0]) && (l[0] == '\0' || SameUpToNul(l[1..], r[1..])))
  }

  /** NocaseCompare: whether strcasecmp returns 0. Sizes are below 2^64. */
  predicate NocaseEqual(l: Bytes, r: Bytes) {
    if |l| != |r| then (|l| - |r|) % INT_RANGE == 0 else SameUpToNul(l, r)
  }

  /** NocaseHash. */
  function NocaseHash(s: Bytes): (h: nat)
    ensures h < 26
  {
    if s == [] then 0
    else
      var first := ToLower(s[0]);
      if 'a' <= first <= 'z' then first as int - 'a' as int else 0
  }

  // ---------- what the comparison decides ----------

  /** One letter in either case, or one character: in ASCII the small letters stand 32 places
      behind the capital ones. */
  predicate SameLetter(a: Byte, b: Byte) {
    a == b || Capital(a, b) || Capital(b, a)
  }

  predicate Capital(capital: Byte, small: Byte) {
    'A' <= capital <= 'Z' && small as int == capital as int + 32
  }

  lemma ToLowerIff(a: Byte, b: Byte)
    ensures ToLower(a) == ToLower(b) <==> SameLetter(a, b)
  {
  }

  /** The intended meaning: the same text but for case. */
  predicate SameText(l: Bytes, r: Bytes) {
    |l| == |r| && forall i :: 0 <= i < |l| ==> SameLetter(l[i], r[i])
  }

  /** Sizes that differ by a multiple of the int range look equal. */
  predicate Confused(l: Bytes, r: Bytes) {
    |l| != |r| && |l| % INT_RANGE == |r| % INT_RANGE
  }

  /** The texts agree up to a NUL that both have, and differ only behind it. */
  predicate HiddenByNul(l: Bytes, r: Bytes) {
    && |l| == |r|
    && exists k, j :: 0 <= k < j < |l| && SharedNul(l, r, k) && !SameLetter(l[j], r[j])
  }

  predicate SharedNul(l: Bytes, r: Bytes, k: nat)
    requires k < |l| == |r|
  {
    l[k] == r[k] == '\0' && forall i :: 0 <= i < k ==> SameLetter(l[i], r[i])
  }

  lemma {:induction false} SameUpToNulIff(l: Bytes, r: Bytes)
    requires |l| == |r|
    ensures SameUpToNul(l, r) <==> SameText(l, r) || exists k :: 0 <= k < |l| && SharedNul(l, r, k)
  {
    if l != [] {
      SameUpToNulIff(l[1..], r[1..]);
      ToLowerIff(l[0], r[0]);
      if l[0] == r[0] == '\0' {
        assert SharedNul(l, r, 0);
      } else {
        SharedNulCons(l, r);
      }
    }
  }

  lemma SharedNulCons(l: Bytes, r: Bytes)
    requires |l| == |r| > 0 && !(l[0] == r[0] == '\0')
    ensures (exists k :: 0 <= k < |l| && SharedNul(l, r, k)) <==>
            SameLetter(l[0], r[0]) && exists k :: 0 <= k < |l| - 1 && SharedNul(l[1..], r[1..], k)
  {
    var lt, rt := l[1..], r[1..];
    if k :| 0 <= k < |l| && SharedNul(l, r, k) {
      assert k > 0 && forall i :: 0 <= i < k - 1 ==> lt[i] == l[i + 1] && rt[i] == r[i + 1];
      assert SharedNul(lt, rt, k - 1);
    }
    if SameLetter(l[0], r[0]) {
      if k :| 0 <= k < |lt| && SharedNul(lt, rt, k) {
        assert forall i :: 0 < i < k + 1 ==> l[i] == lt[i - 1] && r[i] == rt[i - 1];
        assert SharedNul(l, r, k + 1);
      }
    }
  }

  /** The comparison means what it should exactly for names whose sizes are not confused and
      whose difference is not hidden behind a NUL. */
  lemma NocaseEqualIff(l: Bytes, r: Bytes)
    ensures (NocaseEqual(l, r) <==> SameText(l, r)) <==> !Confused(l, r) && !HiddenByNul(l, r)
  {
    if |l| == |r| {
      SameUpToNulIff(l, r);
    }
  }

  /** In particular for all names shorter than 2^32 one of which has no NUL. */
  lemma NocaseEqualByLetter(l: Bytes, r: Bytes)
    requires |l| < 0x1_0000_0000 && |r| < 0x1_0000_0000 && '\0' !in r
    ensures NocaseEqual(l, r) <==> |l| == |r| && forall i :: 0 <= i < |l| ==> SameLetter(l[i], r[i])
  {
    NocaseEqualIff(l, r);
  }

  /** Two names that differ behind a NUL: the second header is dropped. */
  lemma NulHidesHeader(a: Bytes, b: Bytes, value: Bytes, other: Bytes)
    requires a == ['a', '\0', 'b'] && b == ['a', '\0', 'c']
    ensures !SameText(a, b) && HiddenByNul(a, b)
    ensures Emplaced([(a, value)], (b, other)) == [(a, value)]
  {
    assert !SameLetter(a[2], b[2]);
    assert SharedNul(a, b, 1);
    NocaseEqualIff(a, b);
    assert NocaseEqual(a, b);
    assert Scan([(a, value)], b) == 0;
  }

  // ---------- what the comparison is based on ----------

  /** The lower-case text in front of the first NUL. */
  function Fold(s: Bytes): Bytes {
    if s == [] || s[0] == '\0' then [] else [ToLower(s[0])] + Fold(s[1..])
  }

  predicate SameName(l: Bytes, r: Bytes) {
    |l| == |r| && Fold(l) == Fold(r)
  }

  lemma {:induction false} SameUpToNulIsFold(l: Bytes, r: Bytes)
    requires |l| == |r|
    ensures SameUpToNul(l, r) <==> Fold(l) == Fold(r)
  {
    if l != [] {
      SameUpToNulIsFold(l[1..], r[1..]);
      if l[0] != '\0' && r[0] != '\0' {
        assert Fold(l)[0] == ToLower(l[0]) && Fold(r)[0] == ToLower(r[0]);
        assert Fold(l)[1..] == Fold(l[1..]) && Fold(r)[1..] == Fold(r[1..]);
      }
    }
  }

  /** But for confused sizes the comparison is one of keys, hence an equivalence. */
  lemma NocaseEqualNames(l: Bytes, r: Bytes)
    ensures (NocaseEqual(l, r) <==> SameName(l, r)) <==> !Confused(l, r)
  {
    if |l| == |r| {
      SameUpToNulIsFold(l, r);
    }
  }

  lemma SameNameSameHash(l: Bytes, r: Bytes)
    requires SameName(l, r)
    ensures NocaseHash(l) == NocaseHash(r)
  {
    if l != [] {
      assert l[0] != '\0' ==> Fold(l)[0] == ToLower(l[0]);
      assert r[0] != '\0' ==> Fold(r)[0] == ToLower(r[0]);
    }
  }

  /** Names that compare equal hash alike, unless their sizes are confused ... */
  lemma EqualNamesHashAlike(l: Bytes, r: Bytes)
    requires NocaseEqual(l, r) && !Confused(l, r)
    ensures NocaseHash(l) == NocaseHash(r)
  {
    NocaseEqualNames(l, r);
    SameNameSameHash(l, r);
  }

  /** ... in which case they need not: the contract of the hash table is broken. */
  lemma ConfusedNamesHashApart(n: nat)
    requires n == INT_RANGE + 1
    ensures var l: Bytes, r: Bytes := ['a'], seq(n, _ => 'b'); NocaseEqual(l, r) && NocaseHash(l) != NocaseHash(r)
  {
  }

  // ---------- the table ----------

  type Header = (Bytes, Bytes)

  predicate Ordinary(name: Bytes) {
    |name| < INT_RANGE
  }

  predicate AllOrdinary(items: seq<Header>) {
    forall i :: 0 <= i < |items| ==> Ordinary(items[i].0)
  }

  lemma OrdinaryNames(l: Bytes, r: Bytes)
    requires Ordinary(l) && Ordinary(r)
    ensures NocaseEqual(l, r) <==> SameName(l, r)
  {
    NocaseEqualNames(l, r);
  }

  /** The first entry with the name, by scanning. */
  function Scan(items: seq<Header>, name: Bytes): (i: nat)
    ensures i <= |items|
    ensures i < |items| ==> NocaseEqual(items[i].0, name)
    ensures forall j :: 0 <= j < i ==> !NocaseEqual(items[j].0, name)
  {
    if items == [] || NocaseEqual(items[0].0, name) then 0 else 1 + Scan(items[1..], name)
  }

  function Lookup(items: seq<Header>, name: Bytes): Option<Bytes> {
    var i := Scan(items, name);
    if i < |items| then Some(items[i].1) else None
  }

  /** `emplace`: the first entry of a name stays. */
  function Emplaced(items: seq<Header>, h: Header): seq<Header> {
    if Scan(items, h.0) < |items| then items else items + [h]
  }

  /** `operator[]` and assignment: the last value of a name stays, with the first spelling. */
  function Assigned(items: seq<Header>, h: Header): seq<Header> {
    var i := Scan(items, h.0);
    if i < |items| then items[i := (items[i].0, h.1)] else items + [h]
  }

  // ---------- the map ----------

  lemma SameNameTransitive(a: Bytes, b: Bytes, c: Bytes)
    requires Ordinary(a) && Ordinary(b) && Ordinary(c) && NocaseEqual(a, b)
    ensures NocaseEqual(a, c) <==> NocaseEqual(b, c)
  {
    OrdinaryNames(a, b);
    OrdinaryNames(a, c);
    OrdinaryNames(b, c);
  }

  lemma {:induction false} LookupAppend(items: seq<Header>, h: Header, name: Bytes)
    ensures Lookup(items + [h], name) ==
            if Lookup(items, name).Some? then Lookup(items, name)
            else if NocaseEqual(h.0, name) then Some(h.1) else None
  {
    if items != [] {
      assert (items + [h])[0] == items[0] && (items + [h])[1..] == items[1..] + [h];
      LookupAppend(items[1..], h, name);
    }
  }

  lemma {:induction false} SameNameAsItself(s: Bytes)
    ensures NocaseEqual(s, s)
  {
    SameUpToNulIsFold(s, s);
  }

  lemma EmplacedLookup(items: seq<Header>, h: Header, name: Bytes)
    requires AllOrdinary(items) && Ordinary(h.0) && Ordinary(name)
    ensures Lookup(Emplaced(items, h), name) ==
            if Lookup(items, name).Some? then Lookup(items, name)
            else if NocaseEqual(h.0, name) then Some(h.1) else None
  {
    var k := Scan(items, h.0);
    if k < |items| {
      SameNameTransitive(items[k].0, h.0, name);
    } else {
      LookupAppend(items, h, name);
    }
  }

  lemma {:induction false} AssignedLookup(items: seq<Header>, h: Header, name: Bytes)
    requires AllOrdinary(items) && Ordinary(h.0) && Ordinary(name)
    ensures Lookup(Assigned(items, h), name) ==
            if NocaseEqual(h.0, name) then Some(h.1) else Lookup(items, name)
  {
    if items != [] {
      var updated := Assigned(items, h);
      if NocaseEqual(items[0].0, h.0) {
        SameNameTransitive(items[0].0, h.0, name);
        assert updated[0] == (items[0].0, h.1) && updated[1..] == items[1..];
      } else {
        AssignedLookup(items[1..], h, name);
        assert updated[0] == items[0] && updated[1..] == Assigned(items[1..], h);
        if NocaseEqual(h.0, name) && NocaseEqual(items[0].0, name) {
          OrdinaryNames(h.0, name);
          OrdinaryNames(items[0].0, name);
          OrdinaryNames(items[0].0, h.0);
        }
      }
    }
  }

  /** The first header with a name, by its text. */
  function FirstByText(items: seq<Header>, name: Bytes): Option<Bytes> {
    if items == [] then None
    else if SameText(items[0].0, name) then Some(items[0].1)
    else FirstByText(items[1..], name)
  }

  /** A name without a NUL is looked up by its text, but for case. */
  lemma {:induction false} LookupIsByText(items: seq<Header>, name: Bytes)
    requires AllOrdinary(items) && Ordinary(name) && '\0' !in name
    ensures Lookup(items, name) == FirstByText(items, name)
  {
    if items != [] {
      LookupIsByText(items[1..], name);
      NocaseEqualIff(items[0].0, name);
      assert !Confused(items[0].0, name) && !HiddenByNul(items[0].0, name);
    }
  }

  /** A name finds the same in any other case. */
  lemma {:induction false} LookupInAnyCase(items: seq<Header>, name: Bytes, other: Bytes)
    requires AllOrdinary(items) && Ordinary(name) && '\0' !in name && SameText(name, other)
    ensures Lookup(items, name) == Lookup(items, other)
  {
    if items != [] {
      LookupInAnyCase(items[1..], name, other);
      SameUpToNulIff(name, other);
      OrdinaryNames(name, other);
      OrdinaryNames(items[0].0, name);
      OrdinaryNames(items[0].0, other);
    }
  }

  /** No two entries have names that compare equal. */
  predicate DistinctNames(items: seq<Header>) {
    forall i, j :: 0 <= i < j < |items| ==> !NocaseEqual(items[i].0, items[j].0)
  }

  lemma UpdatesKeepDistinct(items: seq<Header>, h: Header)
    requires AllOrdinary(items) && Ordinary(h.0) && DistinctNames(items)
    ensures DistinctNames(Emplaced(items, h)) && AllOrdinary(Emplaced(items, h))
    ensures DistinctNames(Assigned(items, h)) && AllOrdinary(Assigned(items, h))
  {
  }

  lemma OnlyOne(items: seq<Header>, name: Bytes, k: nat)
    requires DistinctNames(items) && AllOrdinary(items) && Ordinary(name)
    requires k < |items| && NocaseEqual(items[k].0, name)
    ensures Scan(items, name) == k
  {
    var i := Scan(items, name);
    SameNameTransitive(items[i].0, name, items[k].0);
    OrdinaryNames(items[k].0, name);
    OrdinaryNames(name, items[k].0);
  }

  /** When names are distinct, the order of the entries does not matter. */
  lemma LookupInAnyOrder(items: seq<Header>, order: seq<Header>, name: Bytes)
    requires DistinctNames(items) && multiset(items) == multiset(order)
    requires AllOrdinary(items) && Ordinary(name)
    ensures Lookup(items, name) == Lookup(order, name)
  {
    var i, j := Scan(items, name), Scan(order, name);
    if i < |items| {
      assert items[i] in multiset(order);
      var k :| 0 <= k < |order| && order[k] == items[i];
    }
    if j < |order| {
      assert order[j] in multiset(items);
      var k :| 0 <= k < |items| && items[k] == order[j];
      OnlyOne(items, name, k);
    }
  }

  // ---------- the hash table ----------

  /** The hash table: one list of entries per bucket. */
  type Table = t: seq<seq<Header>> | |t| > 0 witness [[]]

  function Bucket(t: Table, name: Bytes): (b: nat)
    ensures b < |t|
  {
    NocaseHash(name) % |t|
  }

  function Find(t: Table, name: Bytes): Option<Bytes> {
    Lookup(t[Bucket(t, name)], name)
  }

  function Emplace(t: Table, h: Header): Table {
    var b := Bucket(t, h.0);
    t[b := Emplaced(t[b], h)]
  }

  function Assign(t: Table, h: Header): Table {
    var b := Bucket(t, h.0);
    t[b := Assigned(t[b], h)]
  }

  function Empty(buckets: nat): Table
    requires buckets > 0
  {
    seq(buckets, _ => [])
  }

  datatype Update = First(header: Header) | Last(header: Header)

  /** What happens to the table: an update, or a rehash into another table. */
  datatype Step = Put(update: Update) | Rehash(table: Table)

  /** Every entry goes into the bucket that it belongs into now, and nothing else does; in which
      order is left open. */
  ghost predicate Rehashed(t: Table, t': Table) {
    forall b, h :: 0 <= b < |t'| ==>
      multiset(t'[b])[h] == if Bucket(t', h.0) == b then multiset(t[Bucket(t, h.0)])[h] else 0
  }

  /** A table is only exchanged for one that is rehashed from it. */
  ghost function RunTable(t: Table, steps: seq<Step>): Table
    decreases |steps|
  {
    if steps == [] then t
    else
      var before := RunTable(t, steps[..|steps| - 1]);
      match steps[|steps| - 1]
      case Put(First(h)) => Emplace(before, h)
      case Put(Last(h)) => Assign(before, h)
      case Rehash(t') => if Rehashed(before, t') then t' else before
  }

  function Updates(steps: seq<Step>): seq<Update> {
    if steps == [] then []
    else
      var before, last := Updates(steps[..|steps| - 1]), steps[|steps| - 1];
      if last.Put? then before + [last.update] else before
  }

  function RunList(updates: seq<Update>): seq<Header> {
    if updates == [] then []
    else
      var u := updates[|updates| - 1];
      var before := RunList(updates[..|updates| - 1]);
      if u.First? then Emplaced(before, u.header) else Assigned(before, u.header)
  }

  /** The entries of the list that belong into bucket b of n. */
  function InBucket(items: seq<Header>, b: nat, n: nat): seq<Header>
    requires n > 0
  {
    if items == [] then []
    else (if NocaseHash(items[0].0) % n == b then [items[0]] else []) + InBucket(items[1..], b, n)
  }

  lemma {:induction false} InBucketAppend(items: seq<Header>, h: Header, b: nat, n: nat)
    requires n > 0
    ensures InBucket(items + [h], b, n) ==
            InBucket(items, b, n) + if NocaseHash(h.0) % n == b then [h] else []
  {
    if items == [] {
      assert items + [h] == [h];
      assert [h][1..] == [];
    } else {
      assert (items + [h])[0] == items[0] && (items + [h])[1..] == items[1..] + [h];
      InBucketAppend(items[1..], h, b, n);
      Regrouped(if NocaseHash(items[0].0) % n == b then [items[0]] else [], InBucket(items[1..], b, n),
                if NocaseHash(h.0) % n == b then [h] else []);
    }
  }

  /** Scanning the right bucket and scanning everything find the same entry. */
  lemma {:induction false} ScanInBucket(items: seq<Header>, name: Bytes, n: nat)
    requires n > 0 && AllOrdinary(items) && Ordinary(name)
    ensures var bucket := InBucket(items, NocaseHash(name) % n, n);
            && (Scan(items, name) < |items| <==> Scan(bucket, name) < |bucket|)
            && Lookup(items, name) == Lookup(bucket, name)
  {
    if items != [] {
      var b := NocaseHash(name) % n;
      ScanInBucket(items[1..], name, n);
      if NocaseEqual(items[0].0, name) {
        OrdinaryNames(items[0].0, name);
        SameNameSameHash(items[0].0, name);
        assert InBucket(items, b, n)[0] == items[0];
      } else if NocaseHash(items[0].0) % n == b {
        assert InBucket(items, b, n)[1..] == InBucket(items[1..], b, n);
      } else {
        assert InBucket(items, b, n) == InBucket(items[1..], b, n);
      }
    }
  }

  /** Overwriting the first entry of a name in the list does so in its bucket, and nowhere else. */
  lemma {:induction false} InBucketUpdate(items: seq<Header>, h: Header, b: nat, n: nat)
    requires n > 0 && AllOrdinary(items) && Ordinary(h.0) && Scan(items, h.0) < |items|
    ensures InBucket(Assigned(items, h), b, n) ==
            if NocaseHash(h.0) % n == b then Assigned(InBucket(items, b, n), h) else InBucket(items, b, n)
  {
    var mine := NocaseHash(h.0) % n == b;
    var rest := items[1..];
    if NocaseEqual(items[0].0, h.0) {
      OrdinaryNames(items[0].0, h.0);
      SameNameSameHash(items[0].0, h.0);
      assert Assigned(items, h)[1..] == rest;
    } else {
      assert items == [items[0]] + rest;
      AssignedCons(items[0], rest, h);
      InBucketUpdate(rest, h, b, n);
      if NocaseHash(items[0].0) % n == b {
        if mine {
          ScanInBucket(rest, h.0, n);
          AssignedCons(items[0], InBucket(rest, b, n), h);
        }
      } else {
        assert InBucket(items, b, n) == InBucket(rest, b, n);
      }
    }
  }

  lemma AssignedCons(first: Header, rest: seq<Header>, h: Header)
    requires !NocaseEqual(first.0, h.0)
    ensures Assigned([first] + rest, h) == [first] + Assigned(rest, h)
  {
    assert ([first] + rest)[1..] == rest;
  }

  /** The table holds in each bucket what the list holds for it, in any order. */
  ghost predicate Indexes(t: Table, items: seq<Header>) {
    && AllOrdinary(items) && DistinctNames(items)
    && forall b :: 0 <= b < |t| ==> multiset(t[b]) == multiset(InBucket(items, b, |t|))
  }

  lemma {:induction false} InBucketCount(items: seq<Header>, b: nat, n: nat, h: Header)
    requires n > 0
    ensures multiset(InBucket(items, b, n))[h] == if NocaseHash(h.0) % n == b then multiset(items)[h] else 0
  {
    if items != [] {
      InBucketCount(items[1..], b, n, h);
      assert items == [items[0]] + items[1..];
    }
  }

  lemma {:induction false} InBucketMembers(items: seq<Header>, b: nat, n: nat)
    requires n > 0
    ensures forall h :: h in InBucket(items, b, n) ==> h in items
  {
    if items != [] {
      InBucketMembers(items[1..], b, n);
    }
  }

  lemma DistinctCons(first: Header, rest: seq<Header>)
    requires DistinctNames(rest) && forall h :: h in rest ==> !NocaseEqual(first.0, h.0)
    ensures DistinctNames([first] + rest)
  {
  }

  lemma {:induction false} InBucketDistinct(items: seq<Header>, b: nat, n: nat)
    requires n > 0 && AllOrdinary(items) && DistinctNames(items)
    ensures DistinctNames(InBucket(items, b, n)) && AllOrdinary(InBucket(items, b, n))
  {
    if items != [] {
      var first, rest := items[0], items[1..];
      assert forall i :: 0 <= i < |rest| ==> rest[i] == items[i + 1];
      InBucketDistinct(rest, b, n);
      InBucketMembers(rest, b, n);
      DistinctCons(first, InBucket(rest, b, n));
    }
  }

  /** A bucket in another order finds and assigns the same. */
  lemma AnyOrderFinds(items: seq<Header>, order: seq<Header>, h: Header)
    requires AllOrdinary(items) && DistinctNames(items) && multiset(items) == multiset(order) && Ordinary(h.0)
    ensures multiset(Emplaced(items, h)) == multiset(Emplaced(order, h))
    ensures multiset(Assigned(items, h)) == multiset(Assigned(order, h))
  {
    LookupInAnyOrder(items, order, h.0);
    var i, j := Scan(items, h.0), Scan(order, h.0);
    if i < |items| {
      assert order[j] in multiset(items);
      var k :| 0 <= k < |items| && items[k] == order[j];
      OnlyOne(items, h.0, k);
    }
  }

  /** The bucket of the name, and all others. */
  lemma EmplaceIndexes(t: Table, items: seq<Header>, h: Header)
    requires Indexes(t, items) && Ordinary(h.0)
    ensures Indexes(Emplace(t, h), Emplaced(items, h))
  {
    UpdatesKeepDistinct(items, h);
    ScanInBucket(items, h.0, |t|);
    var own := Bucket(t, h.0);
    InBucketDistinct(items, own, |t|);
    AnyOrderFinds(InBucket(items, own, |t|), t[own], h);
    forall b | 0 <= b < |t|
      ensures multiset(Emplace(t, h)[b]) == multiset(InBucket(Emplaced(items, h), b, |t|))
    {
      InBucketAppend(items, h, b, |t|);
    }
  }

  lemma AssignIndexes(t: Table, items: seq<Header>, h: Header)
    requires Indexes(t, items) && Ordinary(h.0)
    ensures Indexes(Assign(t, h), Assigned(items, h))
  {
    UpdatesKeepDistinct(items, h);
    ScanInBucket(items, h.0, |t|);
    var own := Bucket(t, h.0);
    InBucketDistinct(items, own, |t|);
    AnyOrderFinds(InBucket(items, own, |t|), t[own], h);
    forall b | 0 <= b < |t|
      ensures multiset(Assign(t, h)[b]) == multiset(InBucket(Assigned(items, h), b, |t|))
    {
      if Scan(items, h.0) < |items| {
        InBucketUpdate(items, h, b, |t|);
      } else {
        InBucketAppend(items, h, b, |t|);
      }
    }
  }

  lemma RehashIndexes(t: Table, t': Table, items: seq<Header>)
    requires Indexes(t, items) && Rehashed(t, t')
    ensures Indexes(t', items)
  {
    forall b | 0 <= b < |t'|
      ensures multiset(t'[b]) == multiset(InBucket(items, b, |t'|))
    {
      forall h: Header
        ensures multiset(t'[b])[h] == multiset(InBucket(items, b, |t'|))[h]
      {
        InBucketCount(items, b, |t'|, h);
        InBucketCount(items, Bucket(t, h.0), |t|, h);
      }
    }
  }

  lemma {:induction false} RunIndexes(buckets: nat, steps: seq<Step>)
    requires buckets > 0 && OrdinaryUpdates(Updates(steps))
    ensures Indexes(RunTable(Empty(buckets), steps), RunList(Updates(steps)))
    decreases |steps|
  {
    if steps != [] {
      var before, last := steps[..|steps| - 1], steps[|steps| - 1];
      var t, updates := RunTable(Empty(buckets), before), Updates(before);
      OrdinaryFront(updates, Updates(steps));
      RunIndexes(buckets, before);
      match last
      case Put(u) =>
        OneMoreUpdate(updates, u);
        if u.First? {
          EmplaceIndexes(t, RunList(updates), u.header);
        } else {
          AssignIndexes(t, RunList(updates), u.header);
        }
      case Rehash(t') =>
        if Rehashed(t, t') {
          RehashIndexes(t, t', RunList(updates));
        }
    }
  }

  lemma OrdinaryFront(front: seq<Update>, updates: seq<Update>)
    requires OrdinaryUpdates(updates) && front <= updates
    ensures OrdinaryUpdates(front)
  {
  }

  lemma OneMoreUpdate(updates: seq<Update>, u: Update)
    ensures RunList(updates + [u]) ==
            if u.First? then Emplaced(RunList(updates), u.header) else Assigned(RunList(updates), u.header)
  {
    assert (updates + [u])[..|updates|] == updates;
  }

  /** For any number of buckets, any sequence of updates and any rehashing in between, the table
      finds what a scan of one association list finds. */
  lemma FindIsLookup(buckets: nat, steps: seq<Step>, name: Bytes)
    requires buckets > 0 && Ordinary(name) && OrdinaryUpdates(Updates(steps))
    ensures Find(RunTable(Empty(buckets), steps), name) == Lookup(RunList(Updates(steps)), name)
  {
    RunIndexes(buckets, steps);
    var t, items := RunTable(Empty(buckets), steps), RunList(Updates(steps));
    var own := Bucket(t, name);
    ScanInBucket(items, name, |t|);
    InBucketDistinct(items, own, |t|);
    LookupInAnyOrder(InBucket(items, own, |t|), t[own], name);
  }

  // ---------- any sequence of updates ----------

  predicate OrdinaryUpdates(updates: seq<Update>) {
    forall i :: 0 <= i < |updates| ==> Ordinary(updates[i].header.0)
  }

  /** No sequence of updates puts two entries of one name into the map. */
  lemma {:induction false} RunDistinct(updates: seq<Update>)
    requires OrdinaryUpdates(updates)
    ensures DistinctNames(RunList(updates)) && AllOrdinary(RunList(updates))
  {
    if updates != [] {
      var last := |updates| - 1;
      RunDistinct(updates[..last]);
      UpdatesKeepDistinct(RunList(updates[..last]), updates[last].header);
    }
  }

  /** What the updates say about a name, read backwards: the last assignment or the first
      insertion, whichever is in force. */
  function InForce(updates: seq<Update>, name: Bytes): Option<Bytes> {
    if updates == [] then None
    else
      var u := updates[|updates| - 1];
      var before := InForce(updates[..|updates| - 1], name);
      if !NocaseEqual(u.header.0, name) || (u.First? && before.Some?) then before else Some(u.header.1)
  }

  lemma {:induction false} RunLookup(updates: seq<Update>, name: Bytes)
    requires OrdinaryUpdates(updates) && Ordinary(name)
    ensures Lookup(RunList(updates), name) == InForce(updates, name)
  {
    if updates != [] {
      var last := |updates| - 1;
      RunLookup(updates[..last], name);
      RunDistinct(updates[..last]);
      EmplacedLookup(RunList(updates[..last]), updates[last].header, name);
      AssignedLookup(RunList(updates[..last]), updates[last].header, name);
    }
  }

  /** Updates of a map that is not empty. */
  function Updated(items: seq<Header>, updates: seq<Update>): seq<Header>
    decreases |updates|
  {
    if updates == [] then items
    else
      var before, u := Updated(items, updates[..|updates| - 1]), updates[|updates| - 1];
      if u.First? then Emplaced(before, u.header) else Assigned(before, u.header)
  }

  lemma OneUpdate(items: seq<Header>, updates: seq<Update>, u: Update)
    ensures Updated(items, updates + [u]) ==
            var before := Updated(items, updates);
            if u.First? then Emplaced(before, u.header) else Assigned(before, u.header)
  {
    assert (updates + [u])[..|updates|] == updates;
  }

  lemma {:induction false} UpdatedRun(before: seq<Update>, updates: seq<Update>)
    ensures Updated(RunList(before), updates) == RunList(before + updates)
    decreases |updates|
  {
    if updates == [] {
      assert before + updates == before;
    } else {
      var front, u := updates[..|updates| - 1], updates[|updates| - 1];
      UpdatedRun(before, front);
      assert before + updates == (before + front) + [u];
      OneMoreUpdate(before + front, u);
    }
  }
}
