/** Order-preserving deduplication with a set of keys already seen. */
module FirstOccurrence {
  import opened Sequences

  function DedupFrom<T>(key: T -> string, xs: seq<T>, seen: set<string>): seq<T> {
    if xs == [] then []
    else if key(xs[0]) in seen then DedupFrom(key, xs[1..], seen)
    else [xs[0]] + DedupFrom(key, xs[1..], seen + {key(xs[0])})
  }

  function Dedup<T>(key: T -> string, xs: seq<T>): seq<T> {
    DedupFrom(key, xs, {})
  }

  function KeysOf<T>(key: T -> string, xs: seq<T>): set<string> {
    set i | 0 <= i < |xs| :: key(xs[i])
  }

  ghost predicate DistinctBy<T>(key: T -> string, xs: seq<T>) {
    forall i, j :: 0 <= i < j < |xs| ==> key(xs[i]) != key(xs[j])
  }

  lemma KeysOfCons<T>(key: T -> string, x: T, xs: seq<T>)
    ensures KeysOf(key, [x] + xs) == {key(x)} + KeysOf(key, xs)
  {
    var all := [x] + xs;
    forall k ensures k in KeysOf(key, all) <==> k in {key(x)} + KeysOf(key, xs) {
      if k in KeysOf(key, xs) {
        var i :| 0 <= i < |xs| && key(xs[i]) == k;
        assert all[i + 1] == xs[i];
      }
      if k == key(x) { assert all[0] == x; }
    }
  }

  lemma {:induction false} DedupFromKeys<T>(key: T -> string, xs: seq<T>, seen: set<string>)
    ensures KeysOf(key, DedupFrom(key, xs, seen)) == KeysOf(key, xs) - seen
    ensures DistinctBy(key, DedupFrom(key, xs, seen))
    decreases |xs|
  {
    if xs != [] {
      var x, tail := xs[0], xs[1..];
      assert xs == [x] + tail;
      KeysOfCons(key, x, tail);
      if key(x) in seen {
        DedupFromKeys(key, tail, seen);
      } else {
        var rest := DedupFrom(key, tail, seen + {key(x)});
        DedupFromKeys(key, tail, seen + {key(x)});
        KeysOfCons(key, x, rest);
        assert forall i :: 0 <= i < |rest| ==> key(rest[i]) in KeysOf(key, rest);
      }
    }
  }

  lemma {:induction false} DedupFromConcat<T>(key: T -> string, xs: seq<T>, ys: seq<T>, seen: set<string>)
    ensures DedupFrom(key, xs + ys, seen) == DedupFrom(key, xs, seen) + DedupFrom(key, ys, seen + KeysOf(key, xs))
    decreases |xs|
  {
    if xs == [] {
      assert xs + ys == ys && seen + KeysOf(key, xs) == seen;
    } else {
      var x, tail := xs[0], xs[1..];
      assert (xs + ys)[1..] == tail + ys && xs == [x] + tail;
      KeysOfCons(key, x, tail);
      if key(x) in seen {
        DedupFromConcat(key, tail, ys, seen);
        assert seen + KeysOf(key, tail) == seen + KeysOf(key, xs);
      } else {
        DedupFromConcat(key, tail, ys, seen + {key(x)});
        assert seen + {key(x)} + KeysOf(key, tail) == seen + KeysOf(key, xs);
      }
    }
  }

  /** The loop step: an element is appended exactly when its key has not occurred before. */
  lemma DedupAppend<T>(key: T -> string, xs: seq<T>, x: T)
    ensures Dedup(key, xs + [x]) == Dedup(key, xs) + (if key(x) in KeysOf(key, xs) then [] else [x])
    ensures KeysOf(key, xs + [x]) == KeysOf(key, xs) + {key(x)}
  {
    DedupFromConcat(key, xs, [x], {});
    assert {} + KeysOf(key, xs) == KeysOf(key, xs);
    assert [x][1..] == [];
    var all := xs + [x];
    forall k ensures k in KeysOf(key, all) <==> k in KeysOf(key, xs) + {key(x)} {
      if k in KeysOf(key, xs) {
        var i :| 0 <= i < |xs| && key(xs[i]) == k;
        assert all[i] == xs[i];
      }
      if k == key(x) { assert all[|xs|] == x; }
    }
  }

  /** The loop itself: append what has not been seen. `before` is the input so far. */
  method AppendUnseen<T>(key: T -> string, xs: seq<T>, results: seq<T>, seen: set<string>, ghost before: seq<T>)
    returns (grown: seq<T>, known: set<string>)
    requires results == Dedup(key, before) && seen == KeysOf(key, before)
    ensures grown == Dedup(key, before + xs) && known == KeysOf(key, before + xs)
  {
    grown, known := results, seen;
    ghost var all := before;
    for i := 0 to |xs|
      invariant all == before + xs[..i]
      invariant grown == Dedup(key, all) && known == KeysOf(key, all)
    {
      DedupAppend(key, all, xs[i]);
      assert before + xs[..i + 1] == before + xs[..i] + [xs[i]];
      all := all + [xs[i]];
      if key(xs[i]) !in known {
        known := known + {key(xs[i])};
        grown := grown + [xs[i]];
      }
    }
    assert xs[..|xs|] == xs;
  }

  predicate IsFirst<T>(key: T -> string, xs: seq<T>, i: nat)
    requires i < |xs|
  {
    key(xs[i]) !in KeysOf(key, xs[..i])
  }

  /** Exactly the first occurrences are kept; every dropped element shares its key with an earlier kept one. */
  lemma {:induction false} DedupKeepsFirsts<T>(key: T -> string, xs: seq<T>)
    ensures DistinctBy(key, Dedup(key, xs))
    ensures forall i :: 0 <= i < |xs| && IsFirst(key, xs, i) ==> xs[i] in Dedup(key, xs)
    ensures forall y :: y in Dedup(key, xs) ==> exists i :: 0 <= i < |xs| && xs[i] == y && IsFirst(key, xs, i)
    ensures forall i :: 0 <= i < |xs| && !IsFirst(key, xs, i) ==>
              exists j :: 0 <= j < i && IsFirst(key, xs, j) && key(xs[j]) == key(xs[i])
  {
    DedupFromKeys(key, xs, {});
    if xs != [] {
      var n := |xs| - 1;
      var front, x := xs[..n], xs[n];
      assert xs == front + [x];
      DedupAppend(key, front, x);
      DedupKeepsFirsts(key, front);
      assert forall i :: 0 <= i < n ==> front[i] == xs[i] && front[..i] == xs[..i];
      assert forall i :: 0 <= i < n ==> (IsFirst(key, front, i) <==> IsFirst(key, xs, i));
      assert IsFirst(key, xs, n) <==> key(x) !in KeysOf(key, front);
      forall y | y in Dedup(key, xs) ensures exists i :: 0 <= i < |xs| && xs[i] == y && IsFirst(key, xs, i) {
        if y in Dedup(key, front) {
          var i :| 0 <= i < |front| && front[i] == y && IsFirst(key, front, i);
          assert xs[i] == y && IsFirst(key, xs, i);
        } else {
          assert y == x && IsFirst(key, xs, n);
        }
      }
      forall i | 0 <= i < |xs| && !IsFirst(key, xs, i)
        ensures exists j :: 0 <= j < i && IsFirst(key, xs, j) && key(xs[j]) == key(xs[i])
      {
        if i == n {
          var k :| 0 <= k < n && key(front[k]) == key(x);
          if !IsFirst(key, front, k) {
            var j :| 0 <= j < k && IsFirst(key, front, j) && key(front[j]) == key(front[k]);
            assert IsFirst(key, xs, j) && key(xs[j]) == key(xs[i]);
          } else {
            assert IsFirst(key, xs, k) && key(xs[k]) == key(xs[i]);
          }
        } else {
          assert !IsFirst(key, front, i);
          var j :| 0 <= j < i && IsFirst(key, front, j) && key(front[j]) == key(front[i]);
          assert IsFirst(key, xs, j);
        }
      }
    }
  }

  /** A part that was deduplicated beforehand makes no difference. */
  lemma {:induction false} DedupAbsorbs<T>(key: T -> string, xs: seq<T>, ys: seq<T>, inner: set<string>,
                                           outer: set<string>)
    requires inner <= outer
    ensures DedupFrom(key, DedupFrom(key, xs, inner) + ys, outer) == DedupFrom(key, xs + ys, outer)
    decreases |xs|
  {
    if xs != [] {
      var x, tail := xs[0], xs[1..];
      assert (xs + ys)[1..] == tail + ys;
      if key(x) in inner {
        DedupAbsorbs(key, tail, ys, inner, outer);
      } else {
        var rest := DedupFrom(key, tail, inner + {key(x)});
        assert ([x] + rest + ys)[1..] == rest + ys;
        if key(x) in outer {
          DedupAbsorbs(key, tail, ys, inner + {key(x)}, outer);
        } else {
          DedupAbsorbs(key, tail, ys, inner + {key(x)}, outer + {key(x)});
        }
      }
    }
  }

  /** Deduplicating each part and then the concatenation is one global deduplication. */
  lemma {:induction false} LayeredDedup<T>(key: T -> string, xss: seq<seq<T>>, seen: set<string>)
    ensures DedupFrom(key, Flatten(Map((xs: seq<T>) => Dedup(key, xs), xss)), seen)
            == DedupFrom(key, Flatten(xss), seen)
  {
    if xss != [] {
      var inner := (xs: seq<T>) => Dedup(key, xs);
      assert Map(inner, xss)[1..] == Map(inner, xss[1..]);
      var rest, flat := Flatten(Map(inner, xss[1..])), Flatten(xss[1..]);
      DedupAbsorbs(key, xss[0], rest, {}, seen);
      DedupFromConcat(key, xss[0], rest, seen);
      DedupFromConcat(key, xss[0], flat, seen);
      LayeredDedup(key, xss[1..], seen + KeysOf(key, xss[0]));
    }
  }

  /** A filter that looks at nothing but the key commutes with deduplication. */
  lemma {:induction false} DedupCommutesWithFilter<T>(key: T -> string, p: T -> bool, xs: seq<T>, seen: set<string>,
                                                      fewer: set<string>)
    requires forall x, y :: key(x) == key(y) ==> p(x) == p(y)
    requires forall x :: p(x) ==> (key(x) in seen <==> key(x) in fewer)
    ensures Filter(p, DedupFrom(key, xs, seen)) == DedupFrom(key, Filter(p, xs), fewer)
    decreases |xs|
  {
    if xs != [] {
      var x, tail := xs[0], xs[1..];
      if key(x) in seen {
        DedupCommutesWithFilter(key, p, tail, seen, fewer);
      } else {
        var rest := DedupFrom(key, tail, seen + {key(x)});
        assert ([x] + rest)[1..] == rest;
        if p(x) {
          DedupCommutesWithFilter(key, p, tail, seen + {key(x)}, fewer + {key(x)});
          assert ([x] + Filter(p, tail))[1..] == Filter(p, tail);
        } else {
          DedupCommutesWithFilter(key, p, tail, seen + {key(x)}, fewer);
        }
      }
    }
  }
}
