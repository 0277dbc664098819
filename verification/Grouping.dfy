/** Grouping a list by a name, in the manner of `groups.setdefault(name, []).append(x)`. */
module Grouping {
  import opened Wrappers
  import opened Sequences
  import opened Ordering
  import opened Dicts

  function Named<T>(nameOf: T -> string, name: string): T -> bool {
    x => nameOf(x) == name
  }

  function AddToGroup<T>(nameOf: T -> string, groups: Dict<seq<T>>, x: T): Dict<seq<T>> {
    Put(groups, nameOf(x), Get(groups, nameOf(x)).GetOr([]) + [x])
  }

  function GroupBy<T>(nameOf: T -> string, xs: seq<T>): Dict<seq<T>> {
    if xs == [] then []
    else AddToGroup(nameOf, GroupBy(nameOf, xs[..|xs| - 1]), xs[|xs| - 1])
  }

  function NonEmpty<T>(xs: seq<T>): Option<seq<T>> {
    if xs == [] then None else Some(xs)
  }

  lemma {:induction false} GroupsDistinct<T>(nameOf: T -> string, xs: seq<T>)
    ensures IsDict(GroupBy(nameOf, xs))
  {
    if xs != [] {
      var n := |xs| - 1;
      GroupsDistinct(nameOf, xs[..n]);
      var groups := GroupBy(nameOf, xs[..n]);
      PutIsDict(groups, nameOf(xs[n]), Get(groups, nameOf(xs[n])).GetOr([]) + [xs[n]]);
    }
  }

  lemma GroupStep<T>(groups: Dict<seq<T>>, at: string, x: T, name: string, part: seq<T>)
    requires Get(groups, name) == NonEmpty(part)
    ensures Get(Put(groups, at, Get(groups, at).GetOr([]) + [x]), name)
            == NonEmpty(part + (if name == at then [x] else []))
  {
    PutGet(groups, at, Get(groups, at).GetOr([]) + [x], name);
    assert part + [] == part;
  }

  lemma GroupOfOneMore<T>(nameOf: T -> string, xs: seq<T>, name: string)
    requires xs != []
    ensures var front, x := xs[..|xs| - 1], xs[|xs| - 1];
            Filter(Named(nameOf, name), xs)
              == Filter(Named(nameOf, name), front) + (if name == nameOf(x) then [x] else [])
  {
    var n := |xs| - 1;
    assert xs == xs[..n] + [xs[n]];
    FilterAppend(Named(nameOf, name), xs[..n], xs[n]);
  }

  /** A group is the filtered list; a name without elements has no group. */
  lemma {:induction false} GroupsAreFilters<T>(nameOf: T -> string, xs: seq<T>, name: string)
    ensures Get(GroupBy(nameOf, xs), name) == NonEmpty(Filter(Named(nameOf, name), xs))
  {
    if xs != [] {
      var n := |xs| - 1;
      var front, x := xs[..n], xs[n];
      GroupsAreFilters(nameOf, front, name);
      GroupStep(GroupBy(nameOf, front), nameOf(x), x, name, Filter(Named(nameOf, name), front));
      GroupOfOneMore(nameOf, xs, name);
    }
  }

  /** A permutation of a dictionary's items is again a dictionary. */
  lemma PermutedDict<V>(d: Dict<V>, e: Dict<V>)
    requires IsDict(d) && multiset(d) == multiset(e)
    ensures IsDict(e)
  {
    var name := (item: (string, V)) => [item.0];
    assert DistinctKeys(name, d) by {
      assert forall i :: 0 <= i < |d| ==> name(d[i])[0] == d[i].0;
    }
    DistinctKeysOfPermutation(name, d, e);
    assert forall i :: 0 <= i < |e| ==> name(e[i]) == [e[i].0];
  }

  /** However the groups are ordered: distinct names, each with exactly its own elements in order. */
  lemma SortedGroups<T>(nameOf: T -> string, key: ((string, seq<T>)) -> Key, xs: seq<T>)
    ensures var ordered := Sort(key, GroupBy(nameOf, xs));
            && IsDict(ordered) && SortedBy(key, ordered)
            && (forall g :: g in ordered ==> g.1 == Filter(Named(nameOf, g.0), xs) && g.1 != [])
            && (forall x :: x in xs ==> HasKey(ordered, nameOf(x)))
  {
    var groups := GroupBy(nameOf, xs);
    var ordered := Sort(key, groups);
    GroupsDistinct(nameOf, xs);
    SortIsStable(key, groups);
    SortMembers(key, groups);
    SortContents(key, groups);
    PermutedDict(groups, ordered);
    forall g | g in ordered ensures g.1 == Filter(Named(nameOf, g.0), xs) && g.1 != [] {
      assert g in groups;
      var i :| 0 <= i < |groups| && groups[i] == g;
      GetAt(groups, i);
      GroupsAreFilters(nameOf, xs, g.0);
    }
    forall x | x in xs ensures HasKey(ordered, nameOf(x)) {
      GroupsAreFilters(nameOf, xs, nameOf(x));
      FilterMembers(Named(nameOf, nameOf(x)), xs);
      assert Named(nameOf, nameOf(x))(x);
      assert x in Filter(Named(nameOf, nameOf(x)), xs);
      var i :| 0 <= i < |groups| && groups[i].0 == nameOf(x);
      assert groups[i] in ordered;
      var j :| 0 <= j < |ordered| && ordered[j] == groups[i];
    }
  }

  // ---------------------------------------------------------------- conservation

  function Not<T>(p: T -> bool): T -> bool {
    x => !p(x)
  }

  lemma {:induction false} FilterSplits<T, U>(f: T -> U, p: T -> bool, xs: seq<T>)
    ensures multiset(Map(f, xs)) == multiset(Map(f, Filter(p, xs))) + multiset(Map(f, Filter(Not(p), xs)))
  {
    if xs != [] {
      FilterSplits(f, p, xs[1..]);
      MapPrepend(f, xs[0], xs[1..]);
      assert xs == [xs[0]] + xs[1..];
      if p(xs[0]) {
        MapPrepend(f, xs[0], Filter(p, xs[1..]));
      } else {
        MapPrepend(f, xs[0], Filter(Not(p), xs[1..]));
      }
    }
  }

  lemma {:induction false} FilterAfterNot<T>(nameOf: T -> string, a: string, b: string, xs: seq<T>)
    requires a != b
    ensures Filter(Named(nameOf, b), Filter(Not(Named(nameOf, a)), xs)) == Filter(Named(nameOf, b), xs)
  {
    if xs != [] {
      FilterAfterNot(nameOf, a, b, xs[1..]);
      if nameOf(xs[0]) != a {
        assert Filter(Not(Named(nameOf, a)), xs)[1..] == Filter(Not(Named(nameOf, a)), xs[1..]);
      }
    }
  }

  /** The parts of a list under the given names, mapped and put together. */
  function Parts<T, U>(f: T -> U, nameOf: T -> string, names: seq<string>, xs: seq<T>): seq<U> {
    if names == [] then []
    else Map(f, Filter(Named(nameOf, names[0]), xs)) + Parts(f, nameOf, names[1..], xs)
  }

  lemma {:induction false} PartsIgnoreOthers<T, U>(f: T -> U, nameOf: T -> string, a: string, names: seq<string>,
                                                   xs: seq<T>)
    requires a !in names
    ensures Parts(f, nameOf, names, Filter(Not(Named(nameOf, a)), xs)) == Parts(f, nameOf, names, xs)
  {
    if names != [] {
      FilterAfterNot(nameOf, a, names[0], xs);
      PartsIgnoreOthers(f, nameOf, a, names[1..], xs);
    }
  }

  /** Distinct names that cover a list split it without loss or repetition. */
  lemma {:induction false} PartsMakeTheWhole<T, U>(f: T -> U, nameOf: T -> string, names: seq<string>, xs: seq<T>)
    requires Distinct(names)
    requires forall x :: x in xs ==> nameOf(x) in names
    ensures multiset(Parts(f, nameOf, names, xs)) == multiset(Map(f, xs))
  {
    if names == [] {
      HeadMember(xs);
    } else {
      var others := Filter(Not(Named(nameOf, names[0])), xs);
      FilterMembers(Not(Named(nameOf, names[0])), xs);
      forall x | x in others ensures nameOf(x) in names[1..] {
        assert x in xs && Not(Named(nameOf, names[0]))(x);
      }
      PartsMakeTheWhole(f, nameOf, names[1..], others);
      PartsIgnoreOthers(f, nameOf, names[0], names[1..], xs);
      FilterSplits(f, Named(nameOf, names[0]), xs);
    }
  }
}
