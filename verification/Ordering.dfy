/** Python's comparison of strings and tuples, and the stable sort `sorted(xs, key=...)`. */
module Ordering {
  import opened Sequences

  /** A sort key: a tuple of strings. */
  type Key = seq<string>

  ghost predicate TotalOrder<T(!new)>(le: (T, T) -> bool) {
    && (forall x :: le(x, x))
    && (forall x, y :: le(x, y) || le(y, x))
    && (forall x, y :: le(x, y) && le(y, x) ==> x == y)
    && (forall x, y, z :: le(x, y) && le(y, z) ==> le(x, z))
  }

  /** Lexicographic comparison: the first difference decides, a prefix comes first. */
  predicate Lex<T(==)>(le: (T, T) -> bool, a: seq<T>, b: seq<T>) {
    if a == [] then true
    else if b == [] then false
    else if a[0] == b[0] then Lex(le, a[1..], b[1..])
    else le(a[0], b[0])
  }

  predicate CharLe(a: char, b: char) {
    a <= b
  }

  predicate StrLe(a: string, b: string) {
    Lex(CharLe, a, b)
  }

  predicate KeyLe(a: Key, b: Key) {
    Lex(StrLe, a, b)
  }

  lemma {:induction false} LexReflexive<T>(le: (T, T) -> bool, a: seq<T>)
    ensures Lex(le, a, a)
  {
    if a != [] { LexReflexive(le, a[1..]); }
  }

  lemma {:induction false} LexTotal<T(!new)>(le: (T, T) -> bool, a: seq<T>, b: seq<T>)
    requires TotalOrder(le)
    ensures Lex(le, a, b) || Lex(le, b, a)
    ensures Lex(le, a, b) && Lex(le, b, a) ==> a == b
  {
    if a != [] && b != [] {
      LexTotal(le, a[1..], b[1..]);
    }
  }

  lemma {:induction false} LexTransitive<T(!new)>(le: (T, T) -> bool, a: seq<T>, b: seq<T>, c: seq<T>)
    requires TotalOrder(le)
    requires Lex(le, a, b) && Lex(le, b, c)
    ensures Lex(le, a, c)
  {
    if a != [] && b != [] && c != [] && a[0] == c[0] {
      if a[0] == b[0] { LexTransitive(le, a[1..], b[1..], c[1..]); }
    }
  }

  lemma {:induction false} LexOfPrefixes<T>(le: (T, T) -> bool, a: seq<T>, b: seq<T>, n: nat)
    requires n <= |a| && n <= |b| && Lex(le, a, b)
    ensures Lex(le, a[..n], b[..n])
  {
    if n > 0 && a[0] == b[0] {
      LexOfPrefixes(le, a[1..], b[1..], n - 1);
      assert a[..n][1..] == a[1..][..n - 1] && b[..n][1..] == b[1..][..n - 1];
    }
  }

  lemma LexIsTotalOrder<T(!new)>(le: (T, T) -> bool, lex: (seq<T>, seq<T>) -> bool)
    requires TotalOrder(le)
    requires forall a, b :: lex(a, b) == Lex(le, a, b)
    ensures TotalOrder(lex)
  {
    forall a: seq<T> ensures lex(a, a) { LexReflexive(le, a); }
    forall a, b ensures lex(a, b) || lex(b, a) { LexTotal(le, a, b); }
    forall a, b | lex(a, b) && lex(b, a) ensures a == b { LexTotal(le, a, b); }
    forall a, b, c | lex(a, b) && lex(b, c) ensures lex(a, c) { LexTransitive(le, a, b, c); }
  }

  lemma KeyOrder()
    ensures TotalOrder(KeyLe)
  {
    LexIsTotalOrder(CharLe, StrLe);
    LexIsTotalOrder(StrLe, KeyLe);
  }

  lemma {:induction false} LeByDifference(a: string, b: string, k: nat)
    requires k < |a| && k < |b| && a[..k] == b[..k] && a[k] < b[k]
    ensures StrLe(a, b)
  {
    if k > 0 {
      assert a[0] == a[..k][0] && b[0] == b[..k][0];
      assert a[1..][..k - 1] == a[..k][1..] && b[1..][..k - 1] == b[..k][1..];
      LeByDifference(a[1..], b[1..], k - 1);
    }
  }

  lemma {:induction false} LeByPrefix(a: string, b: string)
    requires a <= b
    ensures StrLe(a, b)
  {
    if a != [] {
      assert b == a + b[|a|..];
      assert b[1..] == a[1..] + b[|a|..];
      LeByPrefix(a[1..], b[1..]);
    }
  }

  lemma {:induction false} LeShows(a: string, b: string)
    requires StrLe(a, b)
    ensures a <= b || exists k :: 0 <= k < |a| && k < |b| && a[..k] == b[..k] && a[k] < b[k]
  {
    if a != [] && a[0] == b[0] {
      var s, t := a[1..], b[1..];
      LeShows(s, t);
      HeadAndTail(a);
      HeadAndTail(b);
      if k :| 0 <= k < |s| && k < |t| && s[..k] == t[..k] && s[k] < t[k] {
        assert a[..k + 1] == [a[0]] + s[..k] && b[..k + 1] == [b[0]] + t[..k];
        assert a[k + 1] < b[k + 1];
      }
      if s <= t { assert b == a + t[|s|..]; }
    } else if a != [] {
      assert a[..0] == b[..0] && a[0] < b[0];
    }
  }

  /** Strings compare by the first code point in which they differ; a beginning comes before what continues it. */
  lemma StringOrderExact(a: string, b: string)
    ensures StrLe(a, b) <==>
            a <= b || exists k :: 0 <= k < |a| && k < |b| && a[..k] == b[..k] && a[k] < b[k]
  {
    if StrLe(a, b) { LeShows(a, b); }
    if a <= b { LeByPrefix(a, b); }
    if k :| 0 <= k < |a| && k < |b| && a[..k] == b[..k] && a[k] < b[k] { LeByDifference(a, b, k); }
  }

  // ---------------------------------------------------------------- the stable sort

  predicate SortedBy<T>(key: T -> Key, xs: seq<T>) {
    forall i, j :: 0 <= i < j < |xs| ==> KeyLe(key(xs[i]), key(xs[j]))
  }

  /** The elements that carry one key, in order. */
  function WithKey<T>(key: T -> Key, k: Key, xs: seq<T>): seq<T> {
    if xs == [] then []
    else if key(xs[0]) == k then [xs[0]] + WithKey(key, k, xs[1..])
    else WithKey(key, k, xs[1..])
  }

  function Insert<T>(key: T -> Key, x: T, xs: seq<T>): seq<T> {
    if xs == [] || KeyLe(key(x), key(xs[0])) then [x] + xs
    else [xs[0]] + Insert(key, x, xs[1..])
  }

  function Sort<T>(key: T -> Key, xs: seq<T>): seq<T> {
    if xs == [] then [] else Insert(key, xs[0], Sort(key, xs[1..]))
  }

  /** What `sorted` guarantees: ascending keys, and equal keys keep their relative order. */
  ghost predicate IsStableSort<T>(key: T -> Key, xs: seq<T>, ys: seq<T>) {
    SortedBy(key, ys) && forall k :: WithKey(key, k, ys) == WithKey(key, k, xs)
  }

  lemma {:induction false} InsertContents<T>(key: T -> Key, x: T, xs: seq<T>)
    ensures multiset(Insert(key, x, xs)) == multiset{x} + multiset(xs)
    ensures |Insert(key, x, xs)| == 1 + |xs|
  {
    if xs != [] && !KeyLe(key(x), key(xs[0])) {
      InsertContents(key, x, xs[1..]);
      assert xs == [xs[0]] + xs[1..];
    }
  }

  lemma {:induction false} SortContents<T>(key: T -> Key, xs: seq<T>)
    ensures multiset(Sort(key, xs)) == multiset(xs)
    ensures |Sort(key, xs)| == |xs|
  {
    if xs != [] {
      SortContents(key, xs[1..]);
      InsertContents(key, xs[0], Sort(key, xs[1..]));
      assert xs == [xs[0]] + xs[1..];
    }
  }

  lemma SortMembers<T>(key: T -> Key, xs: seq<T>)
    ensures forall x :: x in Sort(key, xs) ==> x in xs
    ensures forall x :: x in xs ==> x in Sort(key, xs)
  {
    SortContents(key, xs);
    forall x | x in Sort(key, xs) ensures x in xs {
      assert x in multiset(Sort(key, xs));
    }
    forall x | x in xs ensures x in Sort(key, xs) {
      assert x in multiset(xs);
    }
  }

  lemma {:induction false} InsertSorted<T>(key: T -> Key, x: T, xs: seq<T>)
    requires SortedBy(key, xs)
    ensures SortedBy(key, Insert(key, x, xs))
  {
    KeyOrder();
    if xs != [] && !KeyLe(key(x), key(xs[0])) {
      InsertSorted(key, x, xs[1..]);
      var rest := Insert(key, x, xs[1..]);
      InsertContents(key, x, xs[1..]);
      forall j | 0 <= j < |rest| ensures KeyLe(key(xs[0]), key(rest[j])) {
        assert rest[j] in multiset(rest);
        if rest[j] != x {
          assert rest[j] in xs[1..];
        }
      }
    } else {
      assert forall j :: 0 <= j < |xs| ==> KeyLe(key(x), key(xs[j]));
    }
  }

  lemma {:induction false} InsertStable<T>(key: T -> Key, x: T, xs: seq<T>, k: Key)
    ensures WithKey(key, k, Insert(key, x, xs)) == WithKey(key, k, [x] + xs)
  {
    assert ([x] + xs)[1..] == xs;
    if xs != [] && !KeyLe(key(x), key(xs[0])) {
      KeyOrder();
      InsertStable(key, x, xs[1..], k);
      assert ([x] + xs[1..])[1..] == xs[1..];
      assert Insert(key, x, xs)[1..] == Insert(key, x, xs[1..]);
    }
  }

  lemma {:induction false} SortIsStable<T>(key: T -> Key, xs: seq<T>)
    ensures IsStableSort(key, xs, Sort(key, xs))
  {
    if xs != [] {
      var rest := Sort(key, xs[1..]);
      SortIsStable(key, xs[1..]);
      InsertSorted(key, xs[0], rest);
      forall k ensures WithKey(key, k, Sort(key, xs)) == WithKey(key, k, xs) {
        InsertStable(key, xs[0], rest, k);
        assert ([xs[0]] + rest)[1..] == rest;
      }
    }
  }

  lemma {:induction false} WithKeyMembers<T>(key: T -> Key, k: Key, xs: seq<T>)
    ensures forall x :: x in WithKey(key, k, xs) ==> x in xs && key(x) == k
    ensures forall x :: x in xs && key(x) == k ==> x in WithKey(key, k, xs)
  {
    if xs != [] {
      WithKeyMembers(key, k, xs[1..]);
      assert xs == [xs[0]] + xs[1..];
    }
  }

  lemma HeadIsLeast<T>(key: T -> Key, s: seq<T>, t: seq<T>)
    requires SortedBy(key, s) && s != [] && t != []
    requires forall k :: WithKey(key, k, s) == WithKey(key, k, t)
    ensures KeyLe(key(s[0]), key(t[0]))
  {
    KeyOrder();
    WithKeyMembers(key, key(t[0]), s);
    WithKeyMembers(key, key(t[0]), t);
    assert t[0] in WithKey(key, key(t[0]), s);
    var i :| 0 <= i < |s| && s[i] == t[0];
  }

  lemma EmptyTogether<T>(key: T -> Key, s: seq<T>, t: seq<T>)
    requires forall k :: WithKey(key, k, s) == WithKey(key, k, t)
    ensures s == [] <==> t == []
  {
    if s != [] { assert s[0] in WithKey(key, key(s[0]), s); }
    if t != [] { assert t[0] in WithKey(key, key(t[0]), t); }
  }

  lemma {:induction false} SortedEqual<T>(key: T -> Key, s: seq<T>, t: seq<T>)
    requires SortedBy(key, s) && SortedBy(key, t)
    requires forall k :: WithKey(key, k, s) == WithKey(key, k, t)
    ensures s == t
  {
    EmptyTogether(key, s, t);
    if s != [] {
      KeyOrder();
      HeadIsLeast(key, s, t);
      HeadIsLeast(key, t, s);
      var k0 := key(s[0]);
      assert WithKey(key, k0, s)[0] == WithKey(key, k0, t)[0];
      forall k ensures WithKey(key, k, s[1..]) == WithKey(key, k, t[1..]) {
        assert WithKey(key, k, s) == WithKey(key, k, t);
        if k == k0 {
          assert WithKey(key, k, s) == [s[0]] + WithKey(key, k, s[1..]);
          assert WithKey(key, k, t) == [t[0]] + WithKey(key, k, t[1..]);
          assert WithKey(key, k, s)[1..] == WithKey(key, k, t)[1..];
        }
      }
      SortedEqual(key, s[1..], t[1..]);
    }
  }

  /** Ascending keys and stability leave exactly one result. */
  lemma StableSortUnique<T>(key: T -> Key, xs: seq<T>, ys: seq<T>)
    ensures IsStableSort(key, xs, ys) <==> ys == Sort(key, xs)
  {
    SortIsStable(key, xs);
    if IsStableSort(key, xs, ys) {
      SortedEqual(key, ys, Sort(key, xs));
    }
  }

  ghost predicate SameWithinKeys<T>(key: T -> Key, xs: seq<T>, ys: seq<T>) {
    forall k :: WithKey(key, k, xs) == WithKey(key, k, ys)
  }

  /** Two lists sort alike exactly when they agree on the order within every key. */
  lemma SortAgrees<T>(key: T -> Key, xs: seq<T>, ys: seq<T>)
    ensures Sort(key, xs) == Sort(key, ys) <==> SameWithinKeys(key, xs, ys)
  {
    SortIsStable(key, xs);
    SortIsStable(key, ys);
    if SameWithinKeys(key, xs, ys) {
      SortedEqual(key, Sort(key, xs), Sort(key, ys));
    }
    if Sort(key, xs) == Sort(key, ys) {
      forall k ensures WithKey(key, k, xs) == WithKey(key, k, ys) {
        assert WithKey(key, k, Sort(key, xs)) == WithKey(key, k, xs);
      }
    }
  }

  // ---------------------------------------------------------------- order independence

  ghost predicate DistinctKeys<T>(key: T -> Key, xs: seq<T>) {
    forall i, j :: 0 <= i < j < |xs| ==> key(xs[i]) != key(xs[j])
  }

  lemma {:induction false} WithKeyNone<T>(key: T -> Key, k: Key, xs: seq<T>)
    requires forall i :: 0 <= i < |xs| ==> key(xs[i]) != k
    ensures WithKey(key, k, xs) == []
  {
    if xs != [] {
      WithKeyNone(key, k, xs[1..]);
    }
  }

  lemma {:induction false} WithKeyOfDistinct<T>(key: T -> Key, k: Key, xs: seq<T>)
    requires DistinctKeys(key, xs)
    ensures |WithKey(key, k, xs)| <= 1
  {
    if xs != [] {
      WithKeyOfDistinct(key, k, xs[1..]);
      if key(xs[0]) == k { WithKeyNone(key, k, xs[1..]); }
    }
  }

  lemma {:induction false} TwoWithKey<T>(key: T -> Key, xs: seq<T>, i: nat, j: nat)
    requires i < j < |xs| && key(xs[i]) == key(xs[j])
    ensures |WithKey(key, key(xs[i]), xs)| >= 2
  {
    var tail := xs[1..];
    if i > 0 {
      assert tail[i - 1] == xs[i] && tail[j - 1] == xs[j];
      TwoWithKey(key, tail, i - 1, j - 1);
    } else {
      assert tail[j - 1] == xs[j];
      WithKeyMembers(key, key(xs[i]), tail);
      assert xs[j] in WithKey(key, key(xs[i]), tail);
    }
  }

  lemma {:induction false} DistinctKeysByCount<T>(key: T -> Key, xs: seq<T>)
    ensures DistinctKeys(key, xs) <==> forall k :: |WithKey(key, k, xs)| <= 1
  {
    if DistinctKeys(key, xs) {
      forall k ensures |WithKey(key, k, xs)| <= 1 { WithKeyOfDistinct(key, k, xs); }
    } else {
      var i, j :| 0 <= i < j < |xs| && key(xs[i]) == key(xs[j]);
      TwoWithKey(key, xs, i, j);
    }
  }

  lemma {:induction false} WithKeyCount<T>(key: T -> Key, k: Key, xs: seq<T>)
    ensures multiset(WithKey(key, k, xs)) <= multiset(xs)
    ensures forall x :: multiset(WithKey(key, k, xs))[x] == if key(x) == k then multiset(xs)[x] else 0
  {
    if xs != [] {
      WithKeyCount(key, k, xs[1..]);
      assert xs == [xs[0]] + xs[1..];
    }
  }

  lemma DistinctKeysOfPermutation<T>(key: T -> Key, xs: seq<T>, ys: seq<T>)
    requires multiset(xs) == multiset(ys) && DistinctKeys(key, xs)
    ensures DistinctKeys(key, ys)
  {
    DistinctKeysByCount(key, xs);
    DistinctKeysByCount(key, ys);
    forall k ensures |WithKey(key, k, ys)| <= 1 {
      WithKeyCount(key, k, xs);
      WithKeyCount(key, k, ys);
      assert multiset(WithKey(key, k, xs)) == multiset(WithKey(key, k, ys));
      assert |WithKey(key, k, xs)| == |multiset(WithKey(key, k, xs))|;
    }
  }

  lemma KeyClassIncluded<T>(key: T -> Key, k: Key, xs: seq<T>, ys: seq<T>)
    requires multiset(xs) == multiset(ys) && |WithKey(key, k, ys)| <= 1 && WithKey(key, k, xs) != []
    ensures WithKey(key, k, ys) == [WithKey(key, k, xs)[0]]
  {
    WithKeyMembers(key, k, xs);
    WithKeyMembers(key, k, ys);
    var x := WithKey(key, k, xs)[0];
    assert x in WithKey(key, k, xs);
    assert x in multiset(xs) && x in multiset(ys);
    assert x in WithKey(key, k, ys);
  }

  /** With pairwise distinct keys the sorted list depends on the contents only. */
  lemma PermutationsSortAlike<T>(key: T -> Key, xs: seq<T>, ys: seq<T>)
    requires multiset(xs) == multiset(ys)
    requires DistinctKeys(key, xs) && DistinctKeys(key, ys)
    ensures Sort(key, xs) == Sort(key, ys)
  {
    forall k ensures WithKey(key, k, xs) == WithKey(key, k, ys) {
      WithKeyOfDistinct(key, k, xs);
      WithKeyOfDistinct(key, k, ys);
      if WithKey(key, k, xs) != [] {
        KeyClassIncluded(key, k, xs, ys);
      } else if WithKey(key, k, ys) != [] {
        KeyClassIncluded(key, k, ys, xs);
      }
    }
    SortAgrees(key, xs, ys);
  }

  // ---------------------------------------------------------------- sorting and filtering commute

  lemma {:induction false} FilterWithKey<T>(key: T -> Key, k: Key, p: T -> bool, xs: seq<T>)
    ensures WithKey(key, k, Filter(p, xs)) == Filter(p, WithKey(key, k, xs))
  {
    if xs != [] {
      FilterWithKey(key, k, p, xs[1..]);
      if p(xs[0]) {
        assert Filter(p, xs)[1..] == Filter(p, xs[1..]);
      }
      if key(xs[0]) == k {
        assert WithKey(key, k, xs)[1..] == WithKey(key, k, xs[1..]);
      }
    }
  }

  lemma {:induction false} FilterSorted<T>(key: T -> Key, p: T -> bool, xs: seq<T>)
    requires SortedBy(key, xs)
    ensures SortedBy(key, Filter(p, xs))
  {
    if xs != [] {
      FilterSorted(key, p, xs[1..]);
      FilterMembers(p, xs[1..]);
      var rest := Filter(p, xs[1..]);
      forall j | 0 <= j < |rest| ensures KeyLe(key(xs[0]), key(rest[j])) {
        assert rest[j] in rest;
        assert rest[j] in xs[1..];
      }
    }
  }

  lemma SortCommutesWithFilter<T>(key: T -> Key, p: T -> bool, xs: seq<T>)
    ensures Filter(p, Sort(key, xs)) == Sort(key, Filter(p, xs))
  {
    SortIsStable(key, xs);
    FilterSorted(key, p, Sort(key, xs));
    forall k ensures WithKey(key, k, Filter(p, Sort(key, xs))) == WithKey(key, k, Filter(p, xs)) {
      FilterWithKey(key, k, p, xs);
      FilterWithKey(key, k, p, Sort(key, xs));
    }
    StableSortUnique(key, Filter(p, xs), Filter(p, Sort(key, xs)));
  }

  // ---------------------------------------------------------------- sorting what carries the sorted things

  lemma {:induction false} InsertMap<A, B>(g: A -> B, key: B -> Key, carried: A -> Key, x: A, xs: seq<A>)
    requires forall a :: carried(a) == key(g(a))
    ensures Insert(key, g(x), Map(g, xs)) == Map(g, Insert(carried, x, xs))
  {
    if xs == [] || KeyLe(carried(x), carried(xs[0])) {
      MapPrepend(g, x, xs);
    } else {
      var rest := xs[1..];
      HeadAndTail(xs);
      MapPrepend(g, xs[0], rest);
      TailOfCons(g(xs[0]), Map(g, rest));
      InsertMap(g, key, carried, x, rest);
      MapPrepend(g, xs[0], Insert(carried, x, rest));
    }
  }

  lemma {:induction false} SortMap<A, B>(g: A -> B, key: B -> Key, carried: A -> Key, xs: seq<A>)
    requires forall a :: carried(a) == key(g(a))
    ensures Sort(key, Map(g, xs)) == Map(g, Sort(carried, xs))
  {
    if xs != [] {
      HeadAndTail(xs);
      MapPrepend(g, xs[0], xs[1..]);
      TailOfCons(g(xs[0]), Map(g, xs[1..]));
      SortMap(g, key, carried, xs[1..]);
      InsertMap(g, key, carried, xs[0], Sort(carried, xs[1..]));
    }
  }
}
