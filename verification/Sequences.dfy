/** List comprehensions over sequences. */
module Sequences {
  import opened Wrappers

  function Map<A, B>(f: A -> B, xs: seq<A>): seq<B> {
    seq(|xs|, i requires 0 <= i < |xs| => f(xs[i]))
  }

  function Filter<T>(p: T -> bool, xs: seq<T>): seq<T> {
    if xs == [] then []
    else if p(xs[0]) then [xs[0]] + Filter(p, xs[1..])
    else Filter(p, xs[1..])
  }

  /** What a partial function yields, element by element, skipping where it yields nothing. */
  function Collect<A, B>(f: A -> Option<B>, xs: seq<A>): seq<B> {
    if xs == [] then []
    else Collect(f, xs[..|xs| - 1]) + (match f(xs[|xs| - 1]) case Some(y) => [y] case None => [])
  }

  function Flatten<T>(xss: seq<seq<T>>): seq<T> {
    if xss == [] then [] else xss[0] + Flatten(xss[1..])
  }

  ghost predicate Distinct<T>(xs: seq<T>) {
    forall i, j :: 0 <= i < j < |xs| ==> xs[i] != xs[j]
  }

  lemma MapConcat<A, B>(f: A -> B, xs: seq<A>, ys: seq<A>)
    ensures Map(f, xs + ys) == Map(f, xs) + Map(f, ys)
  {
  }

  lemma MapAppend<A, B>(f: A -> B, xs: seq<A>, i: nat)
    requires i < |xs|
    ensures Map(f, xs[..i + 1]) == Map(f, xs[..i]) + [f(xs[i])]
  {
  }

  lemma TailOfConcat<T>(xs: seq<T>, ys: seq<T>)
    requires xs != []
    ensures (xs + ys)[0] == xs[0] && (xs + ys)[1..] == xs[1..] + ys
  {
  }

  lemma TailOfCons<T>(x: T, xs: seq<T>)
    ensures ([x] + xs)[0] == x && ([x] + xs)[1..] == xs
  {
  }

  lemma HeadAndTail<T>(xs: seq<T>)
    requires xs != []
    ensures xs == [xs[0]] + xs[1..]
  {
  }

  lemma EmptyEnds<T>(xs: seq<T>)
    ensures [] + xs == xs && xs + [] == xs
  {
  }

  lemma Associative<T>(xs: seq<T>, ys: seq<T>, zs: seq<T>)
    ensures xs + ys + zs == xs + (ys + zs)
  {
  }

  lemma MapPrepend<A, B>(f: A -> B, x: A, xs: seq<A>)
    ensures Map(f, [x] + xs) == [f(x)] + Map(f, xs)
  {
  }

  lemma CollectStep<A, B>(f: A -> Option<B>, xs: seq<A>, i: nat)
    requires i < |xs|
    ensures f(xs[i]).Some? ==> Collect(f, xs[..i + 1]) == Collect(f, xs[..i]) + [f(xs[i]).value]
    ensures f(xs[i]).None? ==> Collect(f, xs[..i + 1]) == Collect(f, xs[..i])
  {
    assert xs[..i + 1][..i] == xs[..i];
    EmptyEnds(Collect(f, xs[..i]));
  }

  lemma {:induction false} CollectConcat<A, B>(f: A -> Option<B>, xs: seq<A>, ys: seq<A>)
    ensures Collect(f, xs + ys) == Collect(f, xs) + Collect(f, ys)
  {
    if ys == [] {
      EmptyEnds(xs);
      EmptyEnds(Collect(f, xs));
    } else {
      var n := |ys| - 1;
      assert (xs + ys)[..|xs| + n] == xs + ys[..n];
      CollectConcat(f, xs, ys[..n]);
    }
  }

  lemma {:induction false} CollectMembers<A, B>(f: A -> Option<B>, xs: seq<A>, y: B)
    ensures y in Collect(f, xs) <==> exists x :: x in xs && f(x) == Some(y)
  {
    if xs != [] {
      var n := |xs| - 1;
      CollectMembers(f, xs[..n], y);
      assert xs == xs[..n] + [xs[n]];
      if x :| x in xs && f(x) == Some(y) { assert x in xs[..n] || x == xs[n]; }
    }
  }

  lemma {:induction false} FlattenMembers<T>(xss: seq<seq<T>>, x: T)
    ensures x in Flatten(xss) <==> exists xs :: xs in xss && x in xs
  {
    if xss != [] {
      FlattenMembers(xss[1..], x);
      HeadAndTail(xss);
      assert xss[0] in xss;
      if xs :| xs in xss && x in xs { assert xs == xss[0] || xs in xss[1..]; }
    }
  }

  lemma {:induction false} FilterConcat<T>(p: T -> bool, xs: seq<T>, ys: seq<T>)
    ensures Filter(p, xs + ys) == Filter(p, xs) + Filter(p, ys)
  {
    if xs == [] {
      assert xs + ys == ys;
    } else {
      assert (xs + ys)[1..] == xs[1..] + ys;
      FilterConcat(p, xs[1..], ys);
    }
  }

  lemma FilterAppend<T>(p: T -> bool, xs: seq<T>, x: T)
    ensures Filter(p, xs + [x]) == Filter(p, xs) + (if p(x) then [x] else [])
  {
    FilterConcat(p, xs, [x]);
    assert [x][1..] == [];
  }

  lemma HeadMember<T>(xs: seq<T>)
    ensures xs == [] || xs[0] in xs
  {
  }

  lemma {:induction false} FilterMembers<T>(p: T -> bool, xs: seq<T>)
    ensures forall x :: x in Filter(p, xs) ==> x in xs && p(x)
    ensures forall x :: x in xs && p(x) ==> x in Filter(p, xs)
  {
    if xs != [] {
      FilterMembers(p, xs[1..]);
      assert xs == [xs[0]] + xs[1..];
    }
  }

  /** The first list arises from the second by leaving elements out. */
  predicate IsSubsequence<T(==)>(xs: seq<T>, ys: seq<T>) {
    if xs == [] then true
    else if ys == [] then false
    else if xs[0] == ys[0] then IsSubsequence(xs[1..], ys[1..])
    else IsSubsequence(xs, ys[1..])
  }

  lemma {:induction false} SubsequenceOfMore<T>(xs: seq<T>, y: T, ys: seq<T>)
    requires IsSubsequence(xs, ys)
    ensures IsSubsequence(xs, [y] + ys)
    decreases |ys|, 1
  {
    TailOfCons(y, ys);
    if xs != [] && xs[0] == y {
      DropFirst(xs, ys);
    }
  }

  lemma {:induction false} DropFirst<T>(xs: seq<T>, ys: seq<T>)
    requires xs != [] && IsSubsequence(xs, ys)
    ensures IsSubsequence(xs[1..], ys)
    decreases |ys|, 0
  {
    if xs[0] == ys[0] {
      HeadAndTail(ys);
      SubsequenceOfMore(xs[1..], ys[0], ys[1..]);
    } else {
      DropFirst(xs, ys[1..]);
      HeadAndTail(ys);
      SubsequenceOfMore(xs[1..], ys[0], ys[1..]);
    }
  }

  lemma {:induction false} SubsequenceTransitive<T>(xs: seq<T>, ys: seq<T>, zs: seq<T>)
    requires IsSubsequence(xs, ys) && IsSubsequence(ys, zs)
    ensures IsSubsequence(xs, zs)
    decreases |zs|
  {
    if xs != [] {
      HeadAndTail(zs);
      if ys[0] != zs[0] {
        SubsequenceTransitive(xs, ys, zs[1..]);
        SubsequenceOfMore(xs, zs[0], zs[1..]);
      } else if xs[0] == ys[0] {
        SubsequenceTransitive(xs[1..], ys[1..], zs[1..]);
      } else {
        SubsequenceTransitive(xs, ys[1..], zs[1..]);
        SubsequenceOfMore(xs, zs[0], zs[1..]);
      }
    }
  }

  lemma {:induction false} FilterIsSubsequence<T>(p: T -> bool, xs: seq<T>)
    ensures IsSubsequence(Filter(p, xs), xs)
  {
    if xs != [] {
      FilterIsSubsequence(p, xs[1..]);
      if p(xs[0]) {
        TailOfCons(xs[0], Filter(p, xs[1..]));
      } else {
        HeadAndTail(xs);
        SubsequenceOfMore(Filter(p, xs[1..]), xs[0], xs[1..]);
      }
    }
  }

  /** The first element that a filter keeps. */
  lemma {:induction false} FirstKept<T>(p: T -> bool, xs: seq<T>) returns (i: nat)
    requires Filter(p, xs) != []
    ensures i < |xs| && p(xs[i]) && (forall k :: 0 <= k < i ==> !p(xs[k]))
    ensures Filter(p, xs) == [xs[i]] + Filter(p, xs[i + 1..])
  {
    if p(xs[0]) {
      i := 0;
    } else {
      i := FirstKept(p, xs[1..]);
      assert xs[1..][i + 1..] == xs[i + 2..];
      assert forall k :: 1 <= k < i + 1 ==> xs[k] == xs[1..][k - 1];
      i := i + 1;
    }
  }

  lemma {:induction false} KeptAfterOthers<T>(p: T -> bool, xs: seq<T>, i: nat)
    requires i < |xs| && p(xs[i]) && forall k :: 0 <= k < i ==> !p(xs[k])
    ensures Filter(p, xs) == [xs[i]] + Filter(p, xs[i + 1..])
  {
    if i > 0 {
      KeptAfterOthers(p, xs[1..], i - 1);
      assert xs[1..][i..] == xs[i + 1..];
    }
  }

  lemma {:induction false} FilterAll<T>(p: T -> bool, xs: seq<T>)
    requires forall x :: x in xs ==> p(x)
    ensures Filter(p, xs) == xs
  {
    if xs != [] {
      FilterAll(p, xs[1..]);
    }
  }

  /** A filter that drops nothing accepts everything. */
  lemma {:induction false} FilterDropsNothing<T>(p: T -> bool, xs: seq<T>)
    ensures |Filter(p, xs)| <= |xs|
    ensures |Filter(p, xs)| == |xs| <==> forall x :: x in xs ==> p(x)
    ensures |Filter(p, xs)| == |xs| ==> Filter(p, xs) == xs
  {
    if xs != [] {
      FilterDropsNothing(p, xs[1..]);
      HeadAndTail(xs);
      assert xs[0] in xs;
    }
  }

  lemma {:induction false} FilterNone<T>(p: T -> bool, xs: seq<T>)
    requires forall x :: x in xs ==> !p(x)
    ensures Filter(p, xs) == []
  {
    if xs != [] {
      FilterNone(p, xs[1..]);
    }
  }

  lemma {:induction false} FilterMap<A, B>(g: A -> B, p: B -> bool, q: A -> bool, xs: seq<A>)
    requires forall x :: q(x) == p(g(x))
    ensures Filter(p, Map(g, xs)) == Map(g, Filter(q, xs))
  {
    if xs != [] {
      var rest := xs[1..];
      HeadAndTail(xs);
      MapPrepend(g, xs[0], rest);
      TailOfCons(g(xs[0]), Map(g, rest));
      FilterMap(g, p, q, rest);
      if q(xs[0]) { MapPrepend(g, xs[0], Filter(q, rest)); }
    }
  }

  lemma {:induction false} FlattenConcat<T>(xss: seq<seq<T>>, yss: seq<seq<T>>)
    ensures Flatten(xss + yss) == Flatten(xss) + Flatten(yss)
  {
    if xss == [] {
      assert xss + yss == yss;
    } else {
      assert (xss + yss)[1..] == xss[1..] + yss;
      FlattenConcat(xss[1..], yss);
    }
  }

  lemma FlattenAppend<T>(xss: seq<seq<T>>, xs: seq<T>)
    ensures Flatten(xss + [xs]) == Flatten(xss) + xs
  {
    FlattenConcat(xss, [xs]);
    assert Flatten([xs]) == xs + Flatten([]);
  }
}
