/** Python dictionaries with string keys: items in insertion order, keys distinct. */
module Dicts {
  import opened Wrappers
  import opened Text

  type Dict<V> = seq<(string, V)>

  predicate HasKey<V>(d: Dict<V>, k: string) {
    exists i :: 0 <= i < |d| && d[i].0 == k
  }

  ghost predicate IsDict<V>(d: Dict<V>) {
    forall i, j :: 0 <= i < j < |d| ==> d[i].0 != d[j].0
  }

  function Get<V>(d: Dict<V>, k: string): (r: Option<V>)
    ensures r.Some? <==> HasKey(d, k)
    ensures r.Some? ==> exists i :: 0 <= i < |d| && d[i] == (k, r.value)
  {
    if d == [] then None
    else if d[0].0 == k then Some(d[0].1)
    else
      var r := Get(d[1..], k);
      assert HasKey(d[1..], k) <==> HasKey(d, k) by {
        if HasKey(d, k) { var i :| 0 <= i < |d| && d[i].0 == k; assert d[1..][i - 1].0 == k; }
      }
      r
  }

  /** `d[k] = v`: an existing key keeps its position. */
  function Put<V>(d: Dict<V>, k: string, v: V): Dict<V> {
    if d == [] then [(k, v)]
    else if d[0].0 == k then [(k, v)] + d[1..]
    else [d[0]] + Put(d[1..], k, v)
  }

  /** `d.setdefault(k, v)`, as an update. */
  function SetDefault<V>(d: Dict<V>, k: string, v: V): Dict<V> {
    if HasKey(d, k) then d else d + [(k, v)]
  }

  lemma {:induction false} PutGet<V>(d: Dict<V>, k: string, v: V, q: string)
    ensures Get(Put(d, k, v), q) == if q == k then Some(v) else Get(d, q)
  {
    if d != [] && d[0].0 != k {
      PutGet(d[1..], k, v, q);
      assert Put(d, k, v)[1..] == Put(d[1..], k, v);
    } else if d != [] {
      assert Put(d, k, v)[1..] == d[1..];
    }
  }

  lemma {:induction false} PutKeys<V>(d: Dict<V>, k: string, v: V)
    ensures forall q :: HasKey(Put(d, k, v), q) <==> q == k || HasKey(d, q)
  {
    forall q ensures HasKey(Put(d, k, v), q) <==> q == k || HasKey(d, q) {
      PutGet(d, k, v, q);
    }
  }

  lemma {:induction false} PutIsDict<V>(d: Dict<V>, k: string, v: V)
    requires IsDict(d)
    ensures IsDict(Put(d, k, v))
  {
    if d != [] && d[0].0 != k {
      PutIsDict(d[1..], k, v);
      PutKeys(d[1..], k, v);
      var rest := Put(d[1..], k, v);
      forall j | 0 <= j < |rest| ensures rest[j].0 != d[0].0 {
        assert HasKey(rest, rest[j].0);
        if rest[j].0 != k {
          var i :| 0 <= i < |d[1..]| && d[1..][i].0 == rest[j].0;
          assert d[i + 1].0 == rest[j].0;
        }
      }
    }
  }

  lemma {:induction false} GetAt<V>(d: Dict<V>, i: nat)
    requires IsDict(d) && i < |d|
    ensures Get(d, d[i].0) == Some(d[i].1)
  {
    if i > 0 {
      assert d[0].0 != d[i].0 && d[1..][i - 1] == d[i];
      GetAt(d[1..], i - 1);
    }
  }

  lemma {:induction false} GetAppend<V>(d: Dict<V>, k: string, v: V, q: string)
    requires !HasKey(d, k)
    ensures Get(d + [(k, v)], q) == if q == k then Some(v) else Get(d, q)
  {
    if d == [] {
      assert d + [(k, v)] == [(k, v)];
      assert Get([(k, v)][1..], q) == None;
    } else {
      assert (d + [(k, v)])[1..] == d[1..] + [(k, v)];
      assert d[0].0 != k;
      assert forall i :: 0 <= i < |d[1..]| ==> d[1..][i] == d[i + 1];
      GetAppend(d[1..], k, v, q);
    }
  }

  /** A dictionary filled by assignments, one after the other. */
  function FromItems<V>(items: seq<(string, V)>): Dict<V> {
    if items == [] then []
    else Put(FromItems(items[..|items| - 1]), items[|items| - 1].0, items[|items| - 1].1)
  }

  function LastValue<V>(items: seq<(string, V)>, k: string): Option<V> {
    if items == [] then None
    else if items[|items| - 1].0 == k then Some(items[|items| - 1].1)
    else LastValue(items[..|items| - 1], k)
  }

  lemma FromItemsAppend<V>(items: seq<(string, V)>, k: string, v: V)
    ensures FromItems(items + [(k, v)]) == Put(FromItems(items), k, v)
  {
    assert (items + [(k, v)])[..|items|] == items;
  }

  /** The last assignment to a key decides. */
  lemma {:induction false} FromItemsExact<V>(items: seq<(string, V)>, k: string)
    ensures IsDict(FromItems(items))
    ensures Get(FromItems(items), k) == LastValue(items, k)
  {
    if items != [] {
      var n := |items| - 1;
      FromItemsExact(items[..n], k);
      PutIsDict(FromItems(items[..n]), items[n].0, items[n].1);
      PutGet(FromItems(items[..n]), items[n].0, items[n].1, k);
    }
  }

  lemma {:induction false} LastValueIsAnItem<V>(items: seq<(string, V)>, k: string)
    ensures LastValue(items, k).Some? ==> (k, LastValue(items, k).value) in items
    ensures LastValue(items, k).Some? <==> HasKey(items, k)
  {
    if items != [] {
      var n := |items| - 1;
      LastValueIsAnItem(items[..n], k);
      if HasKey(items, k) && items[n].0 != k {
        var i :| 0 <= i < |items| && items[i].0 == k;
        assert items[..n][i].0 == k;
      }
      if HasKey(items[..n], k) {
        var i :| 0 <= i < n && items[..n][i].0 == k;
        assert items[i].0 == k;
      }
      if items[n].0 == k {
        assert items[n] in items;
      }
    }
  }

  lemma {:induction false} LastValueConcat<V>(a: Dict<V>, b: Dict<V>, k: string)
    ensures LastValue(a + b, k) == LastValue(b, k).OrElse(LastValue(a, k))
  {
    if b == [] {
      assert a + b == a;
    } else {
      assert (a + b)[..|a + b| - 1] == a + b[..|b| - 1];
      LastValueConcat(a, b[..|b| - 1], k);
    }
  }

  /** The last assignment by position. */
  lemma {:induction false} LastValueExact<V>(items: seq<(string, V)>, k: string, v: V)
    ensures LastValue(items, k) == Some(v) <==>
            exists j :: 0 <= j < |items| && items[j] == (k, v) && forall l :: j < l < |items| ==> items[l].0 != k
    ensures LastValue(items, k) == None <==> forall l :: 0 <= l < |items| ==> items[l].0 != k
  {
    if items != [] {
      var n := |items| - 1;
      LastValueExact(items[..n], k, v);
      if items[n].0 == k {
        assert items[n] == (k, v) <==> items[n].1 == v;
      } else {
        assert forall l :: 0 <= l < n ==> items[..n][l] == items[l];
      }
    }
  }

  lemma SetDefaultGet<V>(d: Dict<V>, k: string, v: V, q: string)
    ensures Get(SetDefault(d, k, v), q) == if q == k && !HasKey(d, k) then Some(v) else Get(d, q)
  {
    if !HasKey(d, k) { GetAppend(d, k, v, q); }
  }

  lemma SetDefaultIsDict<V>(d: Dict<V>, k: string, v: V)
    requires IsDict(d)
    ensures IsDict(SetDefault(d, k, v))
  {
  }

  /** `{k.upper(): v for k, v in d.items()}`, of which only look-ups are needed: a later item wins. */
  function UpperKeyed<V>(d: Dict<V>): map<string, V> {
    if d == [] then map[]
    else UpperKeyed(d[..|d| - 1])[Upper(d[|d| - 1].0) := d[|d| - 1].1]
  }

  predicate UpperKeys<V>(d: Dict<V>) {
    forall i :: 0 <= i < |d| ==> IsUpper(d[i].0)
  }

  lemma {:induction false} UpperKeyedDomain<V>(d: Dict<V>)
    ensures forall k :: k in UpperKeyed(d) <==> exists i :: 0 <= i < |d| && Upper(d[i].0) == k
    ensures forall k :: k in UpperKeyed(d) ==> IsUpper(k)
    ensures forall k :: k in UpperKeyed(d) ==>
              exists i :: 0 <= i < |d| && Upper(d[i].0) == k && UpperKeyed(d)[k] == d[i].1
  {
    if d != [] {
      var n := |d| - 1;
      var front := d[..n];
      UpperKeyedDomain(front);
      UpperTwice(d[n].0);
      forall k ensures k in UpperKeyed(d) <==> exists i :: 0 <= i < |d| && Upper(d[i].0) == k {
        if k in UpperKeyed(front) {
          var i :| 0 <= i < |front| && Upper(front[i].0) == k;
          assert Upper(d[i].0) == k;
        }
        if i :| 0 <= i < |d| && Upper(d[i].0) == k {
          if i < n { assert Upper(front[i].0) == k; }
        }
      }
      forall k | k in UpperKeyed(d)
        ensures exists i :: 0 <= i < |d| && Upper(d[i].0) == k && UpperKeyed(d)[k] == d[i].1
      {
        if k != Upper(d[n].0) {
          var i :| 0 <= i < |front| && Upper(front[i].0) == k && UpperKeyed(front)[k] == front[i].1;
          assert Upper(d[i].0) == k && UpperKeyed(d)[k] == d[i].1;
        }
      }
    }
  }

  /** With upper-case keys the comprehension is the dictionary itself. */
  lemma {:induction false} UpperKeyedIsGet<V>(d: Dict<V>, k: string)
    requires IsDict(d) && UpperKeys(d)
    ensures k in UpperKeyed(d) <==> HasKey(d, k)
    ensures k in UpperKeyed(d) ==> Get(d, k) == Some(UpperKeyed(d)[k])
  {
    UpperKeyedDomain(d);
    if k in UpperKeyed(d) {
      var i :| 0 <= i < |d| && Upper(d[i].0) == k && UpperKeyed(d)[k] == d[i].1;
      GetAt(d, i);
    }
    if HasKey(d, k) {
      var i :| 0 <= i < |d| && d[i].0 == k;
      assert Upper(d[i].0) == k;
    }
  }
}
