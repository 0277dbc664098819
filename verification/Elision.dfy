/** Leaving out redundant container switches, for containers of any type.
    `last` is the label remembered from the previous move; it starts as a sentinel while the session
    starts in the root. */
module Elision {
  import opened Sequences

  predicate Elided<L(==)>(wanted: L, last: L, root: L, sentinel: L) {
    wanted == last || (last == sentinel && wanted == root)
  }

  /** The containers in which successive moves run. */
  function Track<L(==)>(labels: seq<L>, session: L, last: L, root: L, sentinel: L): seq<L> {
    if labels == [] then []
    else
      var here := if Elided(labels[0], last, root, sentinel) then session else labels[0];
      [here] + Track(labels[1..], here, labels[0], root, sentinel)
  }

  /** The number of switches that are not left out. */
  function Kept<L(==)>(labels: seq<L>, last: L, root: L, sentinel: L): nat {
    if labels == [] then 0
    else (if Elided(labels[0], last, root, sentinel) then 0 else 1) + Kept(labels[1..], labels[0], root, sentinel)
  }

  function Changes<L(==)>(labels: seq<L>): nat {
    if |labels| < 2 then 0 else (if labels[0] == labels[1] then 0 else 1) + Changes(labels[1..])
  }

  /** No elided switch goes wrong: the sentinel is neither the first label nor directly followed by the root. */
  predicate SentinelSafe<L(==)>(labels: seq<L>, root: L, sentinel: L) {
    && (labels != [] ==> labels[0] != sentinel)
    && forall i :: 0 < i < |labels| ==> !(labels[i - 1] == sentinel && labels[i] == root)
  }

  predicate RootNeverFollowsSentinel<L(==)>(labels: seq<L>, root: L, sentinel: L) {
    if |labels| < 2 then true
    else !(labels[0] == sentinel && labels[1] == root) && RootNeverFollowsSentinel(labels[1..], root, sentinel)
  }

  lemma NoSentinelIsSafe<L>(labels: seq<L>, root: L, sentinel: L)
    requires forall i :: 0 <= i < |labels| ==> labels[i] != sentinel
    ensures SentinelSafe(labels, root, sentinel)
  {
  }

  /** The same on positions. */
  lemma {:induction false} SafeByPosition<L>(labels: seq<L>, root: L, sentinel: L)
    ensures RootNeverFollowsSentinel(labels, root, sentinel) <==>
            forall i :: 0 < i < |labels| ==> !(labels[i - 1] == sentinel && labels[i] == root)
  {
    if |labels| >= 2 {
      var tail := labels[1..];
      SafeByPosition(tail, root, sentinel);
      assert forall i :: 0 <= i < |tail| ==> tail[i] == labels[i + 1];
      if forall i :: 0 < i < |tail| ==> !(tail[i - 1] == sentinel && tail[i] == root) {
        forall i | 0 < i < |labels| && i > 1 ensures !(labels[i - 1] == sentinel && labels[i] == root) {
          assert tail[i - 1] == labels[i] && tail[i - 2] == labels[i - 1];
        }
      }
      if forall i :: 0 < i < |labels| ==> !(labels[i - 1] == sentinel && labels[i] == root) {
        forall i | 0 < i < |tail| ensures !(tail[i - 1] == sentinel && tail[i] == root) {
          assert labels[i + 1] == tail[i] && labels[i] == tail[i - 1];
        }
      }
    }
  }

  lemma {:induction false} TrackFromLast<L>(labels: seq<L>, last: L, root: L, sentinel: L)
    requires root != sentinel
    ensures Track(labels, last, last, root, sentinel) == labels
            <==> RootNeverFollowsSentinel([last] + labels, root, sentinel)
  {
    if labels != [] {
      TrackFromLast(labels[1..], labels[0], root, sentinel);
      assert ([last] + labels)[1..] == labels;
      assert [labels[0]] + labels[1..] == labels;
      var tracked := Track(labels, last, last, root, sentinel);
      if tracked == labels {
        assert tracked[0] == labels[0];
        assert tracked[1..] == labels[1..];
      }
    }
  }

  /** Every move runs in the container its label names if and only if the labels are sentinel-safe. */
  lemma TrackExact<L>(labels: seq<L>, root: L, sentinel: L)
    requires root != sentinel
    ensures Track(labels, root, sentinel, root, sentinel) == labels <==> SentinelSafe(labels, root, sentinel)
  {
    SafeByPosition(labels, root, sentinel);
    if labels != [] {
      TrackFromLast(labels[1..], labels[0], root, sentinel);
      HeadAndTail(labels);
      var tracked := Track(labels, root, sentinel, root, sentinel);
      if tracked == labels {
        assert tracked[0] == labels[0];
        assert tracked[1..] == labels[1..];
      }
    }
  }

  /** Elision can only misplace moves whose label is the root or the sentinel. */
  lemma {:induction false} TrackStrays<L>(labels: seq<L>, session: L, last: L, root: L, sentinel: L)
    requires session == last || last == root || last == sentinel
    ensures var tracked := Track(labels, session, last, root, sentinel);
            |tracked| == |labels|
            && forall i :: 0 <= i < |labels| && tracked[i] != labels[i] ==> labels[i] == root || labels[i] == sentinel
  {
    if labels != [] {
      var here := if Elided(labels[0], last, root, sentinel) then session else labels[0];
      TrackStrays(labels[1..], here, labels[0], root, sentinel);
    }
  }

  /** Never more switches than changes, and as many exactly when no needed switch is left out. */
  lemma {:induction false} KeptAfter<L>(labels: seq<L>, last: L, root: L, sentinel: L)
    requires root != sentinel
    ensures Kept(labels, last, root, sentinel) <= Changes([last] + labels)
    ensures Kept(labels, last, root, sentinel) == Changes([last] + labels)
            <==> RootNeverFollowsSentinel([last] + labels, root, sentinel)
  {
    if labels != [] {
      KeptAfter(labels[1..], labels[0], root, sentinel);
      TailOfCons(last, labels);
      HeadAndTail(labels);
    }
  }

  /** Switches kept: one per change of label, counted from the root, if and only if the labels are sentinel-safe;
      never more than one per change and one at the start. */
  lemma KeptExact<L>(labels: seq<L>, root: L, sentinel: L)
    requires root != sentinel
    ensures labels != [] ==> Kept(labels, sentinel, root, sentinel) <= 1 + Changes(labels)
    ensures Kept(labels, sentinel, root, sentinel) == Changes([root] + labels) <==> SentinelSafe(labels, root, sentinel)
  {
    SafeByPosition(labels, root, sentinel);
    TailOfCons(root, labels);
    if labels != [] {
      KeptAfter(labels[1..], labels[0], root, sentinel);
      HeadAndTail(labels);
    }
  }

  // ---------------------------------------------------------------- few runs when equal things are adjacent

  /** Equal elements stand next to each other. */
  ghost predicate Contiguous<T>(xs: seq<T>) {
    forall i, j, k :: 0 <= i <= j <= k < |xs| && xs[i] == xs[k] ==> xs[j] == xs[i]
  }

  function Values<T>(xs: seq<T>): set<T> {
    set x | x in xs
  }

  lemma ValuesOfCons<T>(x: T, xs: seq<T>)
    ensures Values([x] + xs) == {x} + Values(xs)
  {
  }

  lemma ValueCount<T>(x: T, xs: seq<T>)
    ensures |Values([x] + xs)| == |Values(xs)| + (if x in xs then 0 else 1)
  {
    ValuesOfCons(x, xs);
    if x in xs { assert {x} + Values(xs) == Values(xs); }
  }

  lemma ContiguousTail<T>(xs: seq<T>)
    requires Contiguous(xs) && xs != []
    ensures Contiguous(xs[1..])
    ensures |xs| > 1 && xs[0] != xs[1] ==> xs[0] !in xs[1..]
  {
    var tail := xs[1..];
    assert forall i :: 0 <= i < |tail| ==> tail[i] == xs[i + 1];
    if |xs| > 1 && xs[0] != xs[1] {
      forall k | 0 <= k < |tail| ensures tail[k] != xs[0] {
        assert tail[k] == xs[k + 1];
      }
    }
  }

  /** A contiguous list changes value once less than it has values. */
  lemma {:induction false} ContiguousChanges<T>(xs: seq<T>)
    requires Contiguous(xs) && xs != []
    ensures 1 + Changes(xs) == |Values(xs)|
  {
    var tail := xs[1..];
    HeadAndTail(xs);
    ValueCount(xs[0], tail);
    if tail == [] {
      assert Values(tail) == {};
    } else {
      ContiguousTail(xs);
      ContiguousChanges(tail);
      HeadMember(tail);
      assert tail[0] == xs[1];
    }
  }

  /** A coarser view of a list changes no more often. */
  lemma {:induction false} CoarserChangesLess<T, L>(xs: seq<T>, labels: seq<L>)
    requires |xs| == |labels|
    requires forall i, j :: 0 <= i < |xs| && 0 <= j < |xs| && xs[i] == xs[j] ==> labels[i] == labels[j]
    ensures Changes(labels) <= Changes(xs)
  {
    if |xs| >= 2 {
      assert forall i :: 0 <= i < |xs[1..]| ==> xs[1..][i] == xs[i + 1] && labels[1..][i] == labels[i + 1];
      CoarserChangesLess(xs[1..], labels[1..]);
    }
  }
}
