/** Pre-order traversal of whatever tree a port reports, with a depth limit: what is visited, in which order,
    how often, and what an observer of the walk sees. */
module Traversal {
  import opened Wrappers
  import opened Sequences
  import opened Transcript

  function ChildPath(path: string, name: string): string {
    path + "/" + name
  }

  /** A listing attempt: the directory, what the port answered, and the depth below the root. */
  datatype Visit = Visit(path: string, answer: Option<seq<string>>, depth: nat)

  /** What a directory listing attempt yields (None when it raises), and the subdirectories that an answer names. */
  datatype Tree = Tree(list: string -> Option<seq<string>>, children: Option<seq<string>> -> seq<string>)

  function Kids(tree: Tree, path: string): seq<string> {
    tree.children(tree.list(path))
  }

  /** Directories in pre-order, at most `left` levels below `path`. */
  function PreOrder(tree: Tree, path: string, depth: nat, left: nat): seq<Visit>
    decreases left, 0
  {
    [Visit(path, tree.list(path), depth)]
    + if left == 0 then [] else Forest(tree, path, Kids(tree, path), depth + 1, left - 1)
  }

  function Forest(tree: Tree, path: string, names: seq<string>, depth: nat, left: nat): seq<Visit>
    decreases left, 1 + |names|
  {
    if names == [] then []
    else PreOrder(tree, ChildPath(path, names[0]), depth, left) + Forest(tree, path, names[1..], depth, left)
  }

  /** Every branch ends within `height` levels. */
  predicate EndsWithin(tree: Tree, path: string, height: nat)
    decreases height
  {
    var names := Kids(tree, path);
    names == []
    || (height > 0 && forall i :: 0 <= i < |names| ==> EndsWithin(tree, ChildPath(path, names[i]), height - 1))
  }

  /** The visits before the first failing one. */
  function Answered(visits: seq<Visit>): (n: nat)
    ensures n <= |visits|
    ensures forall i :: 0 <= i < n ==> visits[i].answer.Some?
    ensures n < |visits| ==> visits[n].answer.None?
  {
    if visits == [] || visits[0].answer.None? then 0
    else
      var n := Answered(visits[1..]);
      assert forall i :: 0 < i <= n && i < |visits| ==> visits[i] == visits[1..][i - 1];
      1 + n
  }

  function ListingOf(v: Visit): Listing {
    Listing(v.path, v.answer.GetOr([]))
  }

  function Listings(visits: seq<Visit>): seq<Listing> {
    seq(|visits|, i requires 0 <= i < |visits| => ListingOf(visits[i]))
  }

  function Paths(visits: seq<Visit>): seq<string> {
    seq(|visits|, i requires 0 <= i < |visits| => visits[i].path)
  }

  lemma ListedConcat(a: seq<Visit>, b: seq<Visit>)
    ensures Listings(a + b) == Listings(a) + Listings(b)
    ensures Paths(a + b) == Paths(a) + Paths(b)
  {
  }

  // ---------------------------------------------------------------- what a walk adds to an observer's trace

  /** Listings collected, progress callbacks made and list commands issued. */
  datatype Trace = Observed(directories: seq<Listing>, ticks: seq<(nat, string)>, calls: seq<string>)

  /** Callback numbers count the listings, and each comes with the path just listed. */
  function TicksFrom(n: nat, directories: seq<Listing>): seq<(nat, string)> {
    seq(|directories|, i requires 0 <= i < |directories| => (n + i + 1, directories[i].path))
  }

  // When the walk stops at the first failure, that directory has been called but is not listed.

  predicate Completes(visits: seq<Visit>) {
    Answered(visits) == |visits|
  }

  function Listed(visits: seq<Visit>): seq<Listing> {
    Listings(visits[..Answered(visits)])
  }

  function Called(visits: seq<Visit>): seq<string> {
    Paths(if Completes(visits) then visits else visits[..Answered(visits) + 1])
  }

  lemma {:induction false} AnsweredConcat(a: seq<Visit>, b: seq<Visit>)
    ensures Answered(a + b) == if Completes(a) then |a| + Answered(b) else Answered(a)
  {
    if a == [] {
      assert a + b == b;
    } else if a[0].answer.Some? {
      assert (a + b)[1..] == a[1..] + b;
      AnsweredConcat(a[1..], b);
    }
  }

  lemma StopsInFirst(a: seq<Visit>, b: seq<Visit>)
    requires !Completes(a)
    ensures !Completes(a + b) && Listed(a + b) == Listed(a) && Called(a + b) == Called(a)
  {
    AnsweredConcat(a, b);
    var n := Answered(a);
    assert (a + b)[..n] == a[..n] && (a + b)[..n + 1] == a[..n + 1];
  }

  lemma PrefixOfSecond(a: seq<Visit>, b: seq<Visit>, n: nat)
    requires n <= |b|
    ensures Listings((a + b)[..|a| + n]) == Listings(a) + Listings(b[..n])
    ensures Paths((a + b)[..|a| + n]) == Paths(a) + Paths(b[..n])
  {
    assert (a + b)[..|a| + n] == a + b[..n];
    ListedConcat(a, b[..n]);
  }

  lemma WholeIsListed(a: seq<Visit>)
    requires Completes(a)
    ensures Listed(a) == Listings(a) && Called(a) == Paths(a)
  {
    assert a[..|a|] == a;
  }

  lemma ContinuesInSecond(a: seq<Visit>, b: seq<Visit>)
    requires Completes(a)
    ensures Completes(a + b) <==> Completes(b)
    ensures Listed(a + b) == Listed(a) + Listed(b) && Called(a + b) == Called(a) + Called(b)
  {
    var n := Answered(b);
    AnsweredConcat(a, b);
    WholeIsListed(a);
    PrefixOfSecond(a, b, n);
    if Completes(b) {
      ListedConcat(a, b);
    } else {
      PrefixOfSecond(a, b, n + 1);
    }
  }

  function Add(t: Trace, directories: seq<Listing>, calls: seq<string>): Trace {
    Observed(t.directories + directories, t.ticks + TicksFrom(|t.directories|, directories), t.calls + calls)
  }

  lemma TicksConcat(n: nat, x: seq<Listing>, y: seq<Listing>)
    ensures TicksFrom(n, x + y) == TicksFrom(n, x) + TicksFrom(n + |x|, y)
  {
  }

  lemma AddTwice(t: Trace, x: seq<Listing>, c: seq<string>, y: seq<Listing>, d: seq<string>)
    ensures Add(Add(t, x, c), y, d) == Add(t, x + y, c + d)
  {
    var n := |t.directories|;
    Associative(t.directories, x, y);
    Associative(t.calls, c, d);
    TicksConcat(n, x, y);
    Associative(t.ticks, TicksFrom(n, x), TicksFrom(n + |x|, y));
  }

  /** What a walk that makes these visits adds to a trace. */
  function Extend(t: Trace, visits: seq<Visit>): Trace {
    Add(t, Listed(visits), Called(visits))
  }

  function Enter(t: Trace, d: Listing): Trace {
    Observed(t.directories + [d], t.ticks + [(|t.directories| + 1, d.path)], t.calls + [d.path])
  }

  lemma ExtendTwice(t: Trace, a: seq<Visit>, b: seq<Visit>)
    requires Completes(a)
    ensures Extend(Extend(t, a), b) == Extend(t, a + b)
    ensures Completes(a + b) <==> Completes(b)
  {
    ContinuesInSecond(a, b);
    AddTwice(t, Listed(a), Called(a), Listed(b), Called(b));
  }

  lemma ExtendStops(t: Trace, a: seq<Visit>, b: seq<Visit>)
    requires !Completes(a)
    ensures Extend(t, a + b) == Extend(t, a) && !Completes(a + b)
  {
    StopsInFirst(a, b);
  }

  lemma ExtendOne(t: Trace, v: Visit)
    ensures Completes([v]) <==> v.answer.Some?
    ensures Extend(t, [v]) == if v.answer.Some? then Enter(t, ListingOf(v)) else t.(calls := t.calls + [v.path])
  {
    assert [v][1..] == [];
    assert [v][..1] == [v];
  }

  lemma ExtendNothing(t: Trace)
    ensures Completes([]) && Extend(t, []) == t
  {
  }

  lemma {:induction false} ForestConcat(tree: Tree, path: string, a: seq<string>, b: seq<string>, depth: nat, left: nat)
    ensures Forest(tree, path, a + b, depth, left)
            == Forest(tree, path, a, depth, left) + Forest(tree, path, b, depth, left)
    decreases |a|
  {
    if a == [] {
      assert a + b == b;
    } else {
      assert (a + b)[1..] == a[1..] + b;
      ForestConcat(tree, path, a[1..], b, depth, left);
      Associative(PreOrder(tree, ChildPath(path, a[0]), depth, left),
                  Forest(tree, path, a[1..], depth, left), Forest(tree, path, b, depth, left));
    }
  }

  lemma ForestOfOne(tree: Tree, path: string, name: string, depth: nat, left: nat)
    ensures Forest(tree, path, [name], depth, left) == PreOrder(tree, ChildPath(path, name), depth, left)
  {
    assert [name][1..] == [];
    assert Forest(tree, path, [], depth, left) == [];
  }

  lemma ForestSplit(tree: Tree, path: string, names: seq<string>, i: nat, depth: nat, left: nat)
    requires i < |names|
    ensures Forest(tree, path, names[..i + 1], depth, left)
            == Forest(tree, path, names[..i], depth, left) + PreOrder(tree, ChildPath(path, names[i]), depth, left)
  {
    assert names[..i + 1] == names[..i] + [names[i]];
    ForestConcat(tree, path, names[..i], [names[i]], depth, left);
    ForestOfOne(tree, path, names[i], depth, left);
  }

  /** One more child walked. */
  lemma ChildWalked(t: Trace, tree: Tree, path: string, names: seq<string>, i: nat, depth: nat, left: nat)
    requires i < |names|
    requires Completes(Forest(tree, path, names[..i], depth, left))
    ensures Completes(Forest(tree, path, names[..i + 1], depth, left))
            <==> Completes(PreOrder(tree, ChildPath(path, names[i]), depth, left))
    ensures Extend(Extend(t, Forest(tree, path, names[..i], depth, left)),
                   PreOrder(tree, ChildPath(path, names[i]), depth, left))
            == Extend(t, Forest(tree, path, names[..i + 1], depth, left))
  {
    ForestSplit(tree, path, names, i, depth, left);
    ExtendTwice(t, Forest(tree, path, names[..i], depth, left), PreOrder(tree, ChildPath(path, names[i]), depth, left));
  }

  lemma StoppedIn(t: Trace, tree: Tree, path: string, head: seq<string>, tail: seq<string>, depth: nat, left: nat)
    requires !Completes(Forest(tree, path, head, depth, left))
    ensures !Completes(Forest(tree, path, head + tail, depth, left))
    ensures Extend(t, Forest(tree, path, head + tail, depth, left)) == Extend(t, Forest(tree, path, head, depth, left))
  {
    var first, second := Forest(tree, path, head, depth, left), Forest(tree, path, tail, depth, left);
    ForestConcat(tree, path, head, tail, depth, left);
    ExtendStops(t, first, second);
  }

  lemma StoppedAt(t: Trace, tree: Tree, path: string, names: seq<string>, n: nat, depth: nat, left: nat)
    requires n <= |names| && !Completes(Forest(tree, path, names[..n], depth, left))
    ensures !Completes(Forest(tree, path, names, depth, left))
    ensures Extend(t, Forest(tree, path, names, depth, left)) == Extend(t, Forest(tree, path, names[..n], depth, left))
  {
    StoppedIn(t, tree, path, names[..n], names[n..], depth, left);
    assert names[..n] + names[n..] == names;
  }

  /** One more child walked: the walk goes on behind it, or stops for good. */
  lemma AfterChild(start: Trace, tree: Tree, path: string, names: seq<string>, i: nat, depth: nat, left: nat,
                   before: Trace, after: Trace, ok: bool)
    requires i < |names| && Completes(Forest(tree, path, names[..i], depth, left))
    requires before == Extend(start, Forest(tree, path, names[..i], depth, left))
    requires after == Extend(before, PreOrder(tree, ChildPath(path, names[i]), depth, left))
    requires ok == Completes(PreOrder(tree, ChildPath(path, names[i]), depth, left))
    ensures ok ==> Completes(Forest(tree, path, names[..i + 1], depth, left))
    ensures ok ==> after == Extend(start, Forest(tree, path, names[..i + 1], depth, left))
    ensures !ok ==> !Completes(Forest(tree, path, names, depth, left))
    ensures !ok ==> after == Extend(start, Forest(tree, path, names, depth, left))
  {
    ChildWalked(start, tree, path, names, i, depth, left);
    if !ok { StoppedAt(start, tree, path, names, i + 1, depth, left); }
  }

  lemma Unanswered(t: Trace, tree: Tree, path: string, depth: nat, left: nat)
    requires tree.list(path).None?
    ensures !Completes(PreOrder(tree, path, depth, left))
    ensures Extend(t, PreOrder(tree, path, depth, left)) == t.(calls := t.calls + [path])
  {
    var all := PreOrder(tree, path, depth, left);
    ExtendOne(t, all[0]);
    ExtendStops(t, [all[0]], all[1..]);
    assert all == [all[0]] + all[1..];
  }

  lemma EnteredLeaf(t: Trace, tree: Tree, path: string, depth: nat, left: nat)
    requires tree.list(path).Some? && (left == 0 || Kids(tree, path) == [])
    ensures Completes(PreOrder(tree, path, depth, left))
    ensures Extend(t, PreOrder(tree, path, depth, left)) == Enter(t, Listing(path, tree.list(path).value))
  {
    var v := Visit(path, tree.list(path), depth);
    ExtendOne(t, v);
    assert PreOrder(tree, path, depth, left) == [v];
  }

  lemma EnteredInner(t: Trace, tree: Tree, path: string, depth: nat, left: nat)
    requires tree.list(path).Some? && left > 0
    ensures var all := PreOrder(tree, path, depth, left);
            var below := Forest(tree, path, Kids(tree, path), depth + 1, left - 1);
            && (Completes(all) <==> Completes(below))
            && Extend(t, all) == Extend(Enter(t, Listing(path, tree.list(path).value)), below)
  {
    var v := Visit(path, tree.list(path), depth);
    var below := Forest(tree, path, Kids(tree, path), depth + 1, left - 1);
    ExtendOne(t, v);
    ExtendTwice(t, [v], below);
    assert PreOrder(tree, path, depth, left) == [v] + below;
  }

  lemma FromNothing(visits: seq<Visit>)
    ensures Extend(Observed([], [], []), visits)
            == Observed(Listed(visits), TicksFrom(0, Listed(visits)), Called(visits))
    ensures Completes(visits) ==> Listed(visits) == Listings(visits)
    ensures !Completes(visits) ==> |Called(visits)| == Answered(visits) + 1
                                   && Called(visits)[Answered(visits)] == visits[Answered(visits)].path
  {
    assert visits[..|visits|] == visits;
  }

  // ---------------------------------------------------------------- walks without a limit

  /** The part of the tree that a walk reaches, up to the first failing listing, ends within `left` levels. */
  predicate Settles(tree: Tree, path: string, depth: nat, left: nat)
    decreases left, 0
  {
    tree.list(path).None? || Kids(tree, path) == []
    || (left > 0 && SettlesAll(tree, path, Kids(tree, path), depth + 1, left - 1))
  }

  predicate SettlesAll(tree: Tree, path: string, names: seq<string>, depth: nat, left: nat)
    decreases left, 1 + |names|
  {
    names == [] ||
    (Settles(tree, ChildPath(path, names[0]), depth, left)
     && (Completes(PreOrder(tree, ChildPath(path, names[0]), depth, left)) ==>
           SettlesAll(tree, path, names[1..], depth, left)))
  }

  lemma SettlesInner(tree: Tree, path: string, depth: nat, left: nat)
    requires Settles(tree, path, depth, left) && tree.list(path).Some? && Kids(tree, path) != []
    ensures left > 0 && SettlesAll(tree, path, Kids(tree, path), depth + 1, left - 1)
  {
  }

  lemma SettlesStep(tree: Tree, path: string, names: seq<string>, i: nat, depth: nat, left: nat)
    requires i < |names| && SettlesAll(tree, path, names[i..], depth, left)
    ensures Settles(tree, ChildPath(path, names[i]), depth, left)
    ensures Completes(PreOrder(tree, ChildPath(path, names[i]), depth, left))
            ==> SettlesAll(tree, path, names[i + 1..], depth, left)
  {
    assert names[i..][1..] == names[i + 1..];
  }

  /** A tree that ends everywhere settles. */
  lemma {:induction false} EndingTreeSettles(tree: Tree, path: string, depth: nat, height: nat)
    requires EndsWithin(tree, path, height)
    ensures Settles(tree, path, depth, height)
    decreases height, 0
  {
    if Kids(tree, path) != [] { EndingForestSettles(tree, path, Kids(tree, path), depth + 1, height - 1); }
  }

  lemma {:induction false} EndingForestSettles(tree: Tree, path: string, names: seq<string>, depth: nat, height: nat)
    requires forall i :: 0 <= i < |names| ==> EndsWithin(tree, ChildPath(path, names[i]), height)
    ensures SettlesAll(tree, path, names, depth, height)
    decreases height, 1 + |names|
  {
    if names != [] {
      EndingTreeSettles(tree, ChildPath(path, names[0]), depth, height);
      EndingForestSettles(tree, path, names[1..], depth, height);
    }
  }

  /** Whatever was observed before, both walks add the same to it. */
  ghost predicate LookAlike(a: seq<Visit>, b: seq<Visit>) {
    (Completes(a) <==> Completes(b)) && forall t :: Extend(t, a) == Extend(t, b)
  }

  lemma ExtendConcat(a: seq<Visit>, b: seq<Visit>)
    ensures Completes(a + b) <==> Completes(a) && Completes(b)
    ensures forall t :: Extend(t, a + b) == if Completes(a) then Extend(Extend(t, a), b) else Extend(t, a)
  {
    var t0 := Observed([], [], []);
    if Completes(a) { ExtendTwice(t0, a, b); } else { ExtendStops(t0, a, b); }
    forall t ensures Extend(t, a + b) == if Completes(a) then Extend(Extend(t, a), b) else Extend(t, a) {
      if Completes(a) { ExtendTwice(t, a, b); } else { ExtendStops(t, a, b); }
    }
  }

  lemma LookAlikeConcat(a: seq<Visit>, b: seq<Visit>, c: seq<Visit>, d: seq<Visit>)
    requires LookAlike(a, b) && (Completes(a) ==> LookAlike(c, d))
    ensures LookAlike(a + c, b + d)
  {
    ExtendConcat(a, c);
    ExtendConcat(b, d);
  }

  lemma PreOrderParts(tree: Tree, path: string, depth: nat, left: nat)
    requires left > 0
    ensures PreOrder(tree, path, depth, left) ==
            [Visit(path, tree.list(path), depth)] + Forest(tree, path, Kids(tree, path), depth + 1, left - 1)
  {
  }

  lemma ChildlessWalk(tree: Tree, path: string, depth: nat, left: nat)
    requires Kids(tree, path) == []
    ensures PreOrder(tree, path, depth, left) == [Visit(path, tree.list(path), depth)]
  {
  }

  lemma FailingWalk(tree: Tree, path: string, depth: nat, left: nat)
    requires tree.list(path).None?
    ensures LookAlike([Visit(path, tree.list(path), depth)], PreOrder(tree, path, depth, left))
  {
    var v := Visit(path, tree.list(path), depth);
    var all := PreOrder(tree, path, depth, left);
    assert all == [v] + all[1..];
    ExtendConcat([v], all[1..]);
  }

  /** A root that fails or has no children looks the same under every limit. */
  lemma RootLooksAlike(tree: Tree, path: string, depth: nat, m: nat, n: nat)
    requires tree.list(path).None? || Kids(tree, path) == []
    ensures LookAlike(PreOrder(tree, path, depth, m), PreOrder(tree, path, depth, n))
  {
    if tree.list(path).None? {
      FailingWalk(tree, path, depth, m);
      FailingWalk(tree, path, depth, n);
    } else {
      ChildlessWalk(tree, path, depth, m);
      ChildlessWalk(tree, path, depth, n);
    }
  }

  lemma InnerLooksAlike(tree: Tree, path: string, depth: nat, m: nat, n: nat)
    requires m > 0 && n > 0
    requires LookAlike(Forest(tree, path, Kids(tree, path), depth + 1, m - 1),
                       Forest(tree, path, Kids(tree, path), depth + 1, n - 1))
    ensures LookAlike(PreOrder(tree, path, depth, m), PreOrder(tree, path, depth, n))
  {
    var v := Visit(path, tree.list(path), depth);
    PreOrderParts(tree, path, depth, m);
    PreOrderParts(tree, path, depth, n);
    LookAlikeConcat([v], [v], Forest(tree, path, Kids(tree, path), depth + 1, m - 1),
                    Forest(tree, path, Kids(tree, path), depth + 1, n - 1));
  }

  /** Where the reached part settles, every larger limit makes the same walk: the walk without a limit. */
  lemma {:induction false} SettledIgnoresLimit(tree: Tree, path: string, depth: nat, height: nat, left: nat)
    requires Settles(tree, path, depth, height) && height <= left
    ensures LookAlike(PreOrder(tree, path, depth, height), PreOrder(tree, path, depth, left))
    decreases height, 0
  {
    if tree.list(path).None? || Kids(tree, path) == [] {
      RootLooksAlike(tree, path, depth, height, left);
    } else {
      SettledForestIgnoresLimit(tree, path, Kids(tree, path), depth + 1, height - 1, left - 1);
      InnerLooksAlike(tree, path, depth, height, left);
    }
  }

  lemma {:induction false} SettledForestIgnoresLimit(tree: Tree, path: string, names: seq<string>, depth: nat,
                                                     height: nat, left: nat)
    requires SettlesAll(tree, path, names, depth, height) && height <= left
    ensures LookAlike(Forest(tree, path, names, depth, height), Forest(tree, path, names, depth, left))
    decreases height, 1 + |names|
  {
    if names != [] {
      var child := ChildPath(path, names[0]);
      SettledIgnoresLimit(tree, child, depth, height, left);
      if Completes(PreOrder(tree, child, depth, height)) {
        SettledForestIgnoresLimit(tree, path, names[1..], depth, height, left);
      }
      LookAlikeConcat(PreOrder(tree, child, depth, height), PreOrder(tree, child, depth, left),
                      Forest(tree, path, names[1..], depth, height), Forest(tree, path, names[1..], depth, left));
    }
  }

  // ---------------------------------------------------------------- completeness

  /** A directory's address: the child positions on the way down from the root. */
  type Address = seq<nat>

  function PathAt(tree: Tree, path: string, a: Address): Option<string>
    decreases |a|
  {
    if a == [] then Some(path)
    else
      var names := Kids(tree, path);
      if a[0] < |names| then PathAt(tree, ChildPath(path, names[a[0]]), a[1..]) else None
  }

  /** Pre-order of addresses: a directory before what is below it, children in row order. */
  predicate Before(a: Address, b: Address) {
    b != [] && (a == [] || a[0] < b[0] || (a[0] == b[0] && Before(a[1..], b[1..])))
  }

  function Below(i: nat, addresses: seq<Address>): seq<Address> {
    Map((a: Address) => [i] + a, addresses)
  }

  /** The addresses of the walk, in the walk's order. */
  function Addresses(tree: Tree, path: string, left: nat): seq<Address>
    decreases left, 0
  {
    [[]] + if left == 0 then [] else ForestAddresses(tree, path, Kids(tree, path), 0, left - 1)
  }

  function ForestAddresses(tree: Tree, path: string, names: seq<string>, first: nat, left: nat): seq<Address>
    decreases left, 1 + |names|
  {
    if names == [] then []
    else Below(first, Addresses(tree, ChildPath(path, names[0]), left))
         + ForestAddresses(tree, path, names[1..], first + 1, left)
  }

  /** Visit by visit: the path is the one at the address, the depth is the address's length. */
  ghost predicate Locates(tree: Tree, root: string, depth: nat, visits: seq<Visit>, addresses: seq<Address>) {
    && |visits| == |addresses|
    && forall i :: 0 <= i < |visits| ==>
         PathAt(tree, root, addresses[i]) == Some(visits[i].path) && visits[i].depth == depth + |addresses[i]|
         && visits[i].answer == tree.list(visits[i].path)
  }

  lemma {:induction false} WalkLocates(tree: Tree, path: string, depth: nat, left: nat)
    ensures Locates(tree, path, depth, PreOrder(tree, path, depth, left), Addresses(tree, path, left))
    decreases left, 0
  {
    if left > 0 {
      var names := Kids(tree, path);
      assert names[0..] == names;
      ForestLocates(tree, path, 0, depth, left - 1);
    }
  }

  lemma LocatesConcat(tree: Tree, root: string, depth: nat, v: seq<Visit>, w: seq<Visit>, a: seq<Address>,
                      b: seq<Address>)
    requires Locates(tree, root, depth, v, a) && Locates(tree, root, depth, w, b)
    ensures Locates(tree, root, depth, v + w, a + b)
  {
  }

  /** What a child's walk locates is located from the parent by prefixing the child's position. */
  lemma LocatesBelow(tree: Tree, path: string, first: nat, depth: nat, visits: seq<Visit>, inner: seq<Address>)
    requires first < |Kids(tree, path)|
    requires Locates(tree, ChildPath(path, Kids(tree, path)[first]), depth + 1, visits, inner)
    ensures Locates(tree, path, depth, visits, Below(first, inner))
  {
    forall i | 0 <= i < |inner|
      ensures PathAt(tree, path, Below(first, inner)[i])
              == PathAt(tree, ChildPath(path, Kids(tree, path)[first]), inner[i])
      ensures |Below(first, inner)[i]| == 1 + |inner[i]|
    {
      TailOfCons(first, inner[i]);
    }
  }

  lemma {:induction false} ForestLocates(tree: Tree, path: string, first: nat, depth: nat, left: nat)
    requires first <= |Kids(tree, path)|
    ensures var names := Kids(tree, path)[first..];
            Locates(tree, path, depth, Forest(tree, path, names, depth + 1, left),
                    ForestAddresses(tree, path, names, first, left))
    decreases left, 1 + |Kids(tree, path)| - first
  {
    var all := Kids(tree, path);
    var names := all[first..];
    if names != [] {
      var child := ChildPath(path, names[0]);
      assert names[1..] == all[first + 1..];
      WalkLocates(tree, child, depth + 1, left);
      ForestLocates(tree, path, first + 1, depth, left);
      LocatesBelow(tree, path, first, depth, PreOrder(tree, child, depth + 1, left), Addresses(tree, child, left));
      LocatesConcat(tree, path, depth,
                    PreOrder(tree, child, depth + 1, left), Forest(tree, path, names[1..], depth + 1, left),
                    Below(first, Addresses(tree, child, left)),
                    ForestAddresses(tree, path, names[1..], first + 1, left));
    }
  }

  lemma {:induction false} WalkReaches(tree: Tree, path: string, left: nat, a: Address)
    ensures a in Addresses(tree, path, left) <==> |a| <= left && PathAt(tree, path, a).Some?
    decreases left, 0
  {
    if left > 0 {
      var names := Kids(tree, path);
      assert names[0..] == names;
      ForestReaches(tree, path, 0, left - 1, a);
    }
  }

  lemma {:induction false} ForestReaches(tree: Tree, path: string, first: nat, left: nat, a: Address)
    requires first <= |Kids(tree, path)|
    ensures a in ForestAddresses(tree, path, Kids(tree, path)[first..], first, left) <==>
            a != [] && first <= a[0] && |a| <= left + 1 && PathAt(tree, path, a).Some?
    decreases left, 1 + |Kids(tree, path)| - first
  {
    var all := Kids(tree, path);
    var names := all[first..];
    if names != [] {
      var child := ChildPath(path, names[0]);
      var inner := Addresses(tree, child, left);
      ForestReaches(tree, path, first + 1, left, a);
      assert names[1..] == all[first + 1..];
      if a != [] && a[0] == first {
        WalkReaches(tree, child, left, a[1..]);
        assert a == [first] + a[1..];
        if a[1..] in inner {
          var i :| 0 <= i < |inner| && inner[i] == a[1..];
          assert Below(first, inner)[i] == a;
        }
      }
      if a in Below(first, inner) {
        var i :| 0 <= i < |inner| && Below(first, inner)[i] == a;
        assert a[1..] == inner[i];
      }
    }
  }

  ghost predicate Ascending(addresses: seq<Address>) {
    forall i, j :: 0 <= i < j < |addresses| ==> Before(addresses[i], addresses[j])
  }

  lemma {:induction false} WalkAscends(tree: Tree, path: string, left: nat)
    ensures Ascending(Addresses(tree, path, left))
    decreases left, 0
  {
    if left > 0 {
      var names := Kids(tree, path);
      ForestAscends(tree, path, names, 0, left - 1);
    }
  }

  lemma BelowAscends(i: nat, addresses: seq<Address>)
    requires Ascending(addresses)
    ensures Ascending(Below(i, addresses))
    ensures forall a :: a in Below(i, addresses) ==> a != [] && a[0] == i
  {
    var below := Below(i, addresses);
    assert forall k :: 0 <= k < |below| ==> below[k] == [i] + addresses[k];
    forall j, k | 0 <= j < k < |below| ensures Before(below[j], below[k]) {
      assert below[j][1..] == addresses[j] && below[k][1..] == addresses[k];
    }
  }

  lemma AscendingConcat(first: nat, head: seq<Address>, tail: seq<Address>)
    requires Ascending(head) && Ascending(tail)
    requires forall a :: a in head ==> a != [] && a[0] == first
    requires forall a :: a in tail ==> a != [] && first < a[0]
    ensures Ascending(head + tail)
  {
    var all := head + tail;
    forall i, j | 0 <= i < j < |all| ensures Before(all[i], all[j]) {
      assert all[i] in (if i < |head| then head else tail);
      assert all[j] in (if j < |head| then head else tail);
    }
  }

  lemma {:induction false} ForestAscends(tree: Tree, path: string, names: seq<string>, first: nat, left: nat)
    ensures Ascending(ForestAddresses(tree, path, names, first, left))
    ensures forall a :: a in ForestAddresses(tree, path, names, first, left) ==> a != [] && first <= a[0]
    decreases left, 1 + |names|
  {
    if names != [] {
      var inner := Addresses(tree, ChildPath(path, names[0]), left);
      var head, tail := Below(first, inner), ForestAddresses(tree, path, names[1..], first + 1, left);
      WalkAscends(tree, ChildPath(path, names[0]), left);
      ForestAscends(tree, path, names[1..], first + 1, left);
      BelowAscends(first, inner);
      AscendingConcat(first, head, tail);
    }
  }

  /** Walk completeness: the visits are exactly the directories at an address of at most `left` steps,
      each address once, in pre-order. */
  lemma WalkIsThePreOrder(tree: Tree, path: string, left: nat)
    ensures Locates(tree, path, 0, PreOrder(tree, path, 0, left), Addresses(tree, path, left))
    ensures Ascending(Addresses(tree, path, left))
    ensures forall a :: a in Addresses(tree, path, left) <==> |a| <= left && PathAt(tree, path, a).Some?
  {
    WalkLocates(tree, path, 0, left);
    WalkAscends(tree, path, left);
    forall a ensures a in Addresses(tree, path, left) <==> |a| <= left && PathAt(tree, path, a).Some? {
      WalkReaches(tree, path, left, a);
    }
  }

  // ---------------------------------------------------------------- depth limits

  function AtMost(depth: int): Visit -> bool {
    (v: Visit) => v.depth <= depth
  }

  lemma {:induction false} DeeperThan(tree: Tree, path: string, names: seq<string>, depth: nat, left: nat)
    ensures forall v :: v in PreOrder(tree, path, depth, left) ==> v.depth >= depth
    ensures forall v :: v in Forest(tree, path, names, depth, left) ==> v.depth >= depth
    decreases left, 1 + |names|
  {
    if left > 0 { DeeperThan(tree, path, Kids(tree, path), depth + 1, left - 1); }
    if names != [] {
      if left > 0 {
        var child := ChildPath(path, names[0]);
        DeeperThan(tree, child, Kids(tree, child), depth + 1, left - 1);
      }
      DeeperThan(tree, path, names[1..], depth, left);
    }
  }

  lemma FirstPartKept<T>(p: T -> bool, xs: seq<T>, ys: seq<T>)
    requires (forall x :: x in xs ==> p(x)) && forall y :: y in ys ==> !p(y)
    ensures Filter(p, xs + ys) == xs
  {
    FilterConcat(p, xs, ys);
    FilterAll(p, xs);
    FilterNone(p, ys);
    EmptyEnds(xs);
  }

  lemma RootOnly(tree: Tree, path: string, depth: nat, large: nat)
    requires large > 0
    ensures Filter(AtMost(depth), PreOrder(tree, path, depth, large)) == [Visit(path, tree.list(path), depth)]
  {
    var here := [Visit(path, tree.list(path), depth)];
    var below := Forest(tree, path, Kids(tree, path), depth + 1, large - 1);
    PreOrderParts(tree, path, depth, large);
    DeeperThan(tree, path, Kids(tree, path), depth + 1, large - 1);
    FirstPartKept(AtMost(depth), here, below);
  }

  lemma KeptHead<T>(p: T -> bool, x: T, xs: seq<T>)
    requires p(x)
    ensures Filter(p, [x] + xs) == [x] + Filter(p, xs)
  {
    TailOfCons(x, xs);
  }

  /** A smaller limit yields the larger walk without the deeper visits. */
  lemma {:induction false} SmallerLimitFilters(tree: Tree, path: string, depth: nat, small: nat, large: nat)
    requires small <= large
    ensures PreOrder(tree, path, depth, small) == Filter(AtMost(depth + small), PreOrder(tree, path, depth, large))
    decreases small, 0
  {
    if small > 0 {
      PreOrderParts(tree, path, depth, small);
      PreOrderParts(tree, path, depth, large);
      KeptHead(AtMost(depth + small), Visit(path, tree.list(path), depth),
               Forest(tree, path, Kids(tree, path), depth + 1, large - 1));
      SmallerLimitFiltersForest(tree, path, Kids(tree, path), depth + 1, small - 1, large - 1);
    } else if large > 0 {
      RootOnly(tree, path, depth, large);
    } else {
      FilterAll(AtMost(depth), PreOrder(tree, path, depth, 0));
    }
  }

  lemma {:induction false} SmallerLimitFiltersForest(tree: Tree, path: string, names: seq<string>, depth: nat,
                                                     small: nat, large: nat)
    requires small <= large
    ensures Forest(tree, path, names, depth, small)
            == Filter(AtMost(depth + small), Forest(tree, path, names, depth, large))
    decreases small, 1 + |names|
  {
    if names != [] {
      SmallerLimitFilters(tree, ChildPath(path, names[0]), depth, small, large);
      SmallerLimitFiltersForest(tree, path, names[1..], depth, small, large);
      FilterConcat(AtMost(depth + small), PreOrder(tree, ChildPath(path, names[0]), depth, large),
                   Forest(tree, path, names[1..], depth, large));
    }
  }

  /** A tree that ends is walked the same by every limit beyond its height. */
  lemma {:induction false} FiniteTreeIgnoresLimit(tree: Tree, path: string, depth: nat, height: nat, left: nat)
    requires EndsWithin(tree, path, height) && height <= left
    ensures PreOrder(tree, path, depth, left) == PreOrder(tree, path, depth, height)
    decreases height, 0
  {
    var names := Kids(tree, path);
    if names == [] {
      ChildlessWalk(tree, path, depth, left);
      ChildlessWalk(tree, path, depth, height);
    } else {
      PreOrderParts(tree, path, depth, left);
      PreOrderParts(tree, path, depth, height);
      FiniteForestIgnoresLimit(tree, path, names, depth + 1, height - 1, left - 1);
    }
  }

  lemma {:induction false} FiniteForestIgnoresLimit(tree: Tree, path: string, names: seq<string>, depth: nat,
                                                    height: nat, left: nat)
    requires height <= left
    requires forall i :: 0 <= i < |names| ==> EndsWithin(tree, ChildPath(path, names[i]), height)
    ensures Forest(tree, path, names, depth, left) == Forest(tree, path, names, depth, height)
    decreases height, 1 + |names|
  {
    if names != [] {
      FiniteTreeIgnoresLimit(tree, ChildPath(path, names[0]), depth, height, left);
      FiniteForestIgnoresLimit(tree, path, names[1..], depth, height, left);
    }
  }

  /** 1 + b + ... + b^levels */
  function Geometric(b: nat, levels: nat): nat {
    if levels == 0 then 1 else 1 + b * Geometric(b, levels - 1)
  }

  ghost predicate Branching(tree: Tree, visits: seq<Visit>, b: nat) {
    forall v :: v in visits ==> |tree.children(v.answer)| <= b
  }

  lemma ProductMonotone(m: nat, n: nat, x: nat)
    requires m <= n
    ensures m * x <= n * x
  {
    assert (n - m) * x >= 0;
  }

  lemma OneMore(m: nat, x: nat)
    ensures (m + 1) * x == x + m * x
  {
  }

  lemma BranchingParts(tree: Tree, first: seq<Visit>, rest: seq<Visit>, b: nat)
    requires Branching(tree, first + rest, b)
    ensures Branching(tree, first, b) && Branching(tree, rest, b)
  {
    assert forall v :: v in first ==> v in first + rest;
    assert forall v :: v in rest ==> v in first + rest;
  }

  /** With at most `b` subdirectories per listing, a walk makes at most 1 + b + ... + b^left list calls,
      even on a tree without end. */
  lemma {:induction false} WalkBound(tree: Tree, path: string, depth: nat, left: nat, b: nat)
    requires Branching(tree, PreOrder(tree, path, depth, left), b)
    ensures |PreOrder(tree, path, depth, left)| <= Geometric(b, left)
    decreases left, 0
  {
    if left > 0 {
      var names := Kids(tree, path);
      var below := Forest(tree, path, names, depth + 1, left - 1);
      var all := PreOrder(tree, path, depth, left);
      assert all[0] in all;
      assert forall v :: v in below ==> v in all;
      ForestBound(tree, path, names, depth + 1, left - 1, b);
      ProductMonotone(|names|, b, Geometric(b, left - 1));
    }
  }

  lemma {:induction false} ForestBound(tree: Tree, path: string, names: seq<string>, depth: nat, left: nat, b: nat)
    requires Branching(tree, Forest(tree, path, names, depth, left), b)
    ensures |Forest(tree, path, names, depth, left)| <= |names| * Geometric(b, left)
    decreases left, 1 + |names|
  {
    if names != [] {
      var tail := names[1..];
      BranchingParts(tree, PreOrder(tree, ChildPath(path, names[0]), depth, left),
                     Forest(tree, path, tail, depth, left), b);
      WalkBound(tree, ChildPath(path, names[0]), depth, left, b);
      ForestBound(tree, path, tail, depth, left, b);
      OneMore(|tail|, Geometric(b, left));
    }
  }

  // ---------------------------------------------------------------- distinct paths

  ghost predicate CleanNames(names: seq<string>) {
    Distinct(names) && forall n :: n in names ==> '/' !in n
  }

  ghost predicate CleanListings(tree: Tree, visits: seq<Visit>) {
    forall v :: v in visits ==> CleanNames(tree.children(v.answer))
  }

  lemma CleanParts(tree: Tree, first: seq<Visit>, rest: seq<Visit>)
    requires CleanListings(tree, first + rest)
    ensures CleanListings(tree, first) && CleanListings(tree, rest)
  {
    assert forall v :: v in first ==> v in first + rest;
    assert forall v :: v in rest ==> v in first + rest;
  }

  predicate Under(path: string, p: string) {
    p == path || path + "/" <= p
  }

  predicate UnderSome(path: string, names: seq<string>, p: string) {
    path + "/" <= p && exists n :: n in names && Under(ChildPath(path, n), p)
  }

  lemma UnderNamed(path: string, names: seq<string>, n: string, p: string)
    requires n in names && Under(ChildPath(path, n), p)
    ensures UnderSome(path, names, p)
  {
    assert path + "/" <= ChildPath(path, n) <= p;
  }

  lemma UnderMore(path: string, names: seq<string>, more: seq<string>, p: string)
    requires UnderSome(path, names, p) && forall n :: n in names ==> n in more
    ensures UnderSome(path, more, p)
  {
  }

  lemma {:induction false} WalkStaysUnder(tree: Tree, path: string, depth: nat, left: nat)
    ensures forall v :: v in PreOrder(tree, path, depth, left) ==> Under(path, v.path)
    decreases left, 0
  {
    if left > 0 {
      PreOrderParts(tree, path, depth, left);
      ForestStaysUnder(tree, path, Kids(tree, path), depth + 1, left - 1);
    }
  }

  lemma {:induction false} ForestStaysUnder(tree: Tree, path: string, names: seq<string>, depth: nat, left: nat)
    ensures forall v :: v in Forest(tree, path, names, depth, left) ==> UnderSome(path, names, v.path)
    decreases left, 1 + |names|
  {
    if names != [] {
      var child := ChildPath(path, names[0]);
      WalkStaysUnder(tree, child, depth, left);
      ForestStaysUnder(tree, path, names[1..], depth, left);
      forall v | v in Forest(tree, path, names, depth, left) ensures UnderSome(path, names, v.path) {
        if v in PreOrder(tree, child, depth, left) {
          UnderNamed(path, names, names[0], v.path);
        } else {
          UnderMore(path, names[1..], names, v.path);
        }
      }
    }
  }

  lemma SlashEndsName(n: string, m: string, rest: string)
    requires '/' !in n
    requires n <= rest && (rest == m || m + "/" <= rest)
    ensures |n| <= |m|
  {
    assert rest != m ==> rest[|m|] == '/';
    assert forall i :: 0 <= i < |n| ==> rest[i] == n[i] && n[i] in n;
  }

  /** A path lies under at most one slash-free child name. */
  lemma OneChildOnly(path: string, n: string, m: string, p: string)
    requires '/' !in n && '/' !in m
    requires Under(ChildPath(path, n), p) && Under(ChildPath(path, m), p)
    ensures n == m
  {
    var k := |path| + 1;
    var rest := p[k..];
    assert p[..k] == path + "/";
    assert rest == n || n + "/" <= rest by { assert ChildPath(path, n)[k..] == n; }
    assert rest == m || m + "/" <= rest by { assert ChildPath(path, m)[k..] == m; }
    SlashEndsName(n, m, rest);
    SlashEndsName(m, n, rest);
    assert n == rest[..|n|] && m == rest[..|m|];
  }

  lemma DistinctPrepend(v: Visit, visits: seq<Visit>)
    requires Distinct(Paths(visits)) && forall w :: w in visits ==> w.path != v.path
    ensures Distinct(Paths([v] + visits))
  {
    var all := [v] + visits;
    forall i, j | 0 <= i < j < |all| ensures all[i].path != all[j].path {
      assert all[j] == visits[j - 1] && visits[j - 1] in visits;
      if i > 0 { assert Paths(visits)[i - 1] != Paths(visits)[j - 1]; }
    }
  }

  lemma DistinctConcat(a: seq<Visit>, b: seq<Visit>)
    requires Distinct(Paths(a)) && Distinct(Paths(b))
    requires forall v, w :: v in a && w in b ==> v.path != w.path
    ensures Distinct(Paths(a + b))
  {
    var all := a + b;
    forall i, j | 0 <= i < j < |all| ensures all[i].path != all[j].path {
      if j < |a| {
        assert Paths(a)[i] != Paths(a)[j];
      } else if i >= |a| {
        assert Paths(b)[i - |a|] != Paths(b)[j - |a|];
      } else {
        assert all[i] in a && all[j] in b;
      }
    }
  }

  lemma ForestAvoidsRoot(tree: Tree, path: string, depth: nat, left: nat)
    ensures forall v :: v in Forest(tree, path, Kids(tree, path), depth, left) ==> v.path != path
  {
    ForestStaysUnder(tree, path, Kids(tree, path), depth, left);
    assert !(path + "/" <= path);
  }

  lemma CleanBelow(tree: Tree, path: string, depth: nat, left: nat)
    requires left > 0 && CleanListings(tree, PreOrder(tree, path, depth, left))
    ensures CleanNames(Kids(tree, path))
            && CleanListings(tree, Forest(tree, path, Kids(tree, path), depth + 1, left - 1))
  {
    var here := Visit(path, tree.list(path), depth);
    PreOrderParts(tree, path, depth, left);
    CleanParts(tree, [here], Forest(tree, path, Kids(tree, path), depth + 1, left - 1));
    assert here in [here];
  }

  lemma RootDistinct(tree: Tree, path: string, depth: nat, left: nat)
    requires left > 0 && Distinct(Paths(Forest(tree, path, Kids(tree, path), depth + 1, left - 1)))
    ensures Distinct(Paths(PreOrder(tree, path, depth, left)))
  {
    PreOrderParts(tree, path, depth, left);
    ForestAvoidsRoot(tree, path, depth + 1, left - 1);
    DistinctPrepend(Visit(path, tree.list(path), depth), Forest(tree, path, Kids(tree, path), depth + 1, left - 1));
  }

  lemma SiblingsApart(tree: Tree, path: string, names: seq<string>, depth: nat, left: nat)
    requires names != [] && CleanNames(names)
    ensures forall v, w :: v in PreOrder(tree, ChildPath(path, names[0]), depth, left)
                           && w in Forest(tree, path, names[1..], depth, left)
                           ==> v.path != w.path
  {
    var child := ChildPath(path, names[0]);
    WalkStaysUnder(tree, child, depth, left);
    ForestStaysUnder(tree, path, names[1..], depth, left);
    forall v, w | v in PreOrder(tree, child, depth, left) && w in Forest(tree, path, names[1..], depth, left)
      ensures v.path != w.path
    {
      var n :| n in names[1..] && Under(ChildPath(path, n), w.path);
      assert n in names && names[0] in names && n != names[0];
      if v.path == w.path { OneChildOnly(path, names[0], n, w.path); }
    }
  }

  /** When every listing names distinct, slash-free subdirectories, no path is visited twice. */
  lemma {:induction false} WalkPathsDistinct(tree: Tree, path: string, depth: nat, left: nat)
    requires CleanListings(tree, PreOrder(tree, path, depth, left))
    ensures Distinct(Paths(PreOrder(tree, path, depth, left)))
    decreases left, 0
  {
    if left > 0 {
      CleanBelow(tree, path, depth, left);
      ForestPathsDistinct(tree, path, Kids(tree, path), depth + 1, left - 1);
      RootDistinct(tree, path, depth, left);
    }
  }

  lemma {:induction false} ForestPathsDistinct(tree: Tree, path: string, names: seq<string>, depth: nat, left: nat)
    requires CleanNames(names)
    requires CleanListings(tree, Forest(tree, path, names, depth, left))
    ensures Distinct(Paths(Forest(tree, path, names, depth, left)))
    decreases left, 1 + |names|
  {
    if names != [] {
      var child := ChildPath(path, names[0]);
      var first, rest := PreOrder(tree, child, depth, left), Forest(tree, path, names[1..], depth, left);
      CleanParts(tree, first, rest);
      WalkPathsDistinct(tree, child, depth, left);
      ForestPathsDistinct(tree, path, names[1..], depth, left);
      SiblingsApart(tree, path, names, depth, left);
      DistinctConcat(first, rest);
    }
  }
}
