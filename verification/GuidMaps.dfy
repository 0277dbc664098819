/** Collecting, caching and merging PDB GUID maps (asm_cleanup/transport/pdb_guid_map_collector.py and
    `resolve_move_policy_for_emit` in asm_cleanup/pipeline/pipeline_orchestrator.py). */
module GuidMaps {
  import opened Wrappers
  import opened Sequences
  import opened Text
  import opened Dicts
  import opened AliasRecords
  import opened FirstOccurrence
  import opened MoveSql

  type GuidMap = Dict<string>

  /** `_collect_once` for one spelling of a database name; None when it raises. */
  type CollectOnce = string -> Option<GuidMap>

  // ---------------------------------------------------------------- specification

  /** The cache under folded names, and the spellings that were tried on the host. */
  datatype CollectorState = CollectorState(cache: map<string, GuidMap>, attempts: seq<string>)

  const FRESH := CollectorState(map[], [])

  function Collected(once: CollectOnce, st: CollectorState, database: string): (CollectorState, Option<GuidMap>) {
    var key := Strip(database);
    if key == "" then (st, None)
    else if Casefold(key) in st.cache then (st, Some(st.cache[Casefold(key)]))
    else if once(key).Some? then
      (CollectorState(st.cache[Casefold(key) := once(key).value], st.attempts + [key]), once(key))
    else if key == Upper(key) then (CollectorState(st.cache, st.attempts + [key]), None)
    else if once(Upper(key)).Some? then
      (CollectorState(st.cache[Casefold(key) := once(Upper(key)).value], st.attempts + [key] + [Upper(key)]),
       once(Upper(key)))
    else (CollectorState(st.cache, st.attempts + [key] + [Upper(key)]), None)
  }

  /** The state after any sequence of calls, whether or not they raised. */
  function AfterCalls(once: CollectOnce, databases: seq<string>): CollectorState {
    if databases == [] then FRESH
    else Collected(once, AfterCalls(once, databases[..|databases| - 1]), databases[|databases| - 1]).0
  }

  /** `d.update(e)` */
  function Updated(d: GuidMap, e: GuidMap): GuidMap {
    if e == [] then d else Put(Updated(d, e[..|e| - 1]), e[|e| - 1].0, e[|e| - 1].1)
  }

  /** `collect_many`: stops at the first name that raises, keeping what was cached before. */
  function CollectedMany(once: CollectOnce, st: CollectorState, databases: seq<string>, merged: GuidMap)
    : (CollectorState, Option<GuidMap>)
    decreases |databases|
  {
    if databases == [] then (st, Some(merged))
    else if Strip(databases[0]) == "" then CollectedMany(once, st, databases[1..], merged)
    else
      var (st1, r) := Collected(once, st, Strip(databases[0]));
      if r.None? then (st1, None) else CollectedMany(once, st1, databases[1..], Updated(merged, r.value))
  }

  // ---------------------------------------------------------------- the collector

  method Update(d: GuidMap, e: GuidMap) returns (r: GuidMap)
    ensures r == Updated(d, e)
  {
    r := d;
    for i := 0 to |e|
      invariant r == Updated(d, e[..i])
    {
      assert e[..i + 1][..i] == e[..i];
      r := Put(r, e[i].0, e[i].1);
    }
    assert e[..|e|] == e;
  }

  class PdbGuidMapCollector {
    const once: CollectOnce
    var cache: map<string, GuidMap>
    var attempts: seq<string>

    constructor (once: CollectOnce)
      ensures this.once == once && State() == FRESH
    {
      this.once := once;
      cache, attempts := map[], [];
    }

    function State(): CollectorState
      reads this
    {
      CollectorState(cache, attempts)
    }

    method TryOnce(spelling: string) returns (r: Option<GuidMap>)
      modifies this
      ensures r == once(spelling) && cache == old(cache) && attempts == old(attempts) + [spelling]
    {
      attempts := attempts + [spelling];
      r := once(spelling);
    }

    method Collect(database: string) returns (r: Option<GuidMap>)
      modifies this
      ensures (State(), r) == Collected(once, old(State()), database)
    {
      var key := Strip(database);
      if key == "" { return None; }
      var cacheKey := Casefold(key);
      if cacheKey in cache { return Some(cache[cacheKey]); }
      r := TryOnce(key);
      if r.None? {
        if key == Upper(key) { return None; }
        r := TryOnce(Upper(key));
        if r.None? { return None; }
      }
      cache := cache[cacheKey := r.value];
    }

    method CollectMany(databases: seq<string>) returns (r: Option<GuidMap>)
      modifies this
      ensures (State(), r) == CollectedMany(once, old(State()), databases, [])
    {
      var merged: GuidMap := [];
      for i := 0 to |databases|
        invariant CollectedMany(once, old(State()), databases, [])
                  == CollectedMany(once, State(), databases[i..], merged)
      {
        assert databases[i..][0] == databases[i] && databases[i..][1..] == databases[i + 1..];
        var text := Strip(databases[i]);
        if text != "" {
          var one := Collect(text);
          if one.None? { return None; }
          merged := Update(merged, one.value);
        }
      }
      assert databases[|databases|..] == [];
      r := Some(merged);
    }
  }

  // ---------------------------------------------------------------- cache coherence

  ghost predicate Comes(once: CollectOnce, attempts: seq<string>, key: string, m: GuidMap) {
    exists i :: 0 <= i < |attempts| && Casefold(attempts[i]) == key && once(attempts[i]) == Some(m)
  }

  /** Every cached map came from a successful attempt with some spelling of its key; every successful
      attempt is cached; and no key succeeds twice. */
  ghost predicate Coherent(once: CollectOnce, st: CollectorState) {
    && (forall k :: k in st.cache ==> Comes(once, st.attempts, k, st.cache[k]))
    && (forall i :: 0 <= i < |st.attempts| && once(st.attempts[i]).Some? ==>
          Casefold(st.attempts[i]) in st.cache && st.cache[Casefold(st.attempts[i])] == once(st.attempts[i]).value)
    && (forall i, j :: 0 <= i < j < |st.attempts| && once(st.attempts[i]).Some? && once(st.attempts[j]).Some? ==>
          Casefold(st.attempts[i]) != Casefold(st.attempts[j]))
  }

  lemma FailedAttempt(once: CollectOnce, st: CollectorState, spelling: string)
    requires Coherent(once, st) && once(spelling).None?
    ensures Coherent(once, CollectorState(st.cache, st.attempts + [spelling]))
  {
    var st1 := CollectorState(st.cache, st.attempts + [spelling]);
    forall k | k in st1.cache ensures Comes(once, st1.attempts, k, st1.cache[k]) {
      var i :| 0 <= i < |st.attempts| && Casefold(st.attempts[i]) == k && once(st.attempts[i]) == Some(st.cache[k]);
      assert st1.attempts[i] == st.attempts[i];
    }
  }

  lemma SuccessfulAttempt(once: CollectOnce, st: CollectorState, spelling: string)
    requires Coherent(once, st) && once(spelling).Some? && Casefold(spelling) !in st.cache
    ensures Coherent(once, CollectorState(st.cache[Casefold(spelling) := once(spelling).value],
                                          st.attempts + [spelling]))
  {
    var st1 := CollectorState(st.cache[Casefold(spelling) := once(spelling).value], st.attempts + [spelling]);
    forall k | k in st1.cache ensures Comes(once, st1.attempts, k, st1.cache[k]) {
      if k == Casefold(spelling) {
        assert st1.attempts[|st.attempts|] == spelling;
      } else {
        var i :| 0 <= i < |st.attempts| && Casefold(st.attempts[i]) == k && once(st.attempts[i]) == Some(st.cache[k]);
        assert st1.attempts[i] == st.attempts[i];
      }
    }
  }

  /** One call: coherence is kept, no cached map is changed or lost, a hit tries nothing, a failure caches nothing,
      and a call fails exactly when the name is blank or neither its spelling nor its upper-case form succeeds. */
  lemma CollectStep(once: CollectOnce, st: CollectorState, database: string)
    requires Coherent(once, st)
    ensures var (st1, r) := Collected(once, st, database);
            var key := Strip(database);
            && Coherent(once, st1)
            && (forall k :: k in st.cache ==> k in st1.cache && st1.cache[k] == st.cache[k])
            && (Casefold(key) in st.cache && key != "" ==> st1 == st && r == Some(st.cache[Casefold(key)]))
            && (r.None? ==> st1.cache == st.cache)
            && (r.None? <==> key == "" || (Casefold(key) !in st.cache && once(key).None? && once(Upper(key)).None?))
            && (r.Some? ==> Casefold(key) in st1.cache && st1.cache[Casefold(key)] == r.value)
            && (r.Some? && Casefold(key) !in st.cache ==> r == once(key).OrElse(once(Upper(key))))
            && (key != "" && Casefold(key) !in st.cache ==>
                 st1.attempts ==
                 st.attempts + if once(key).Some? || key == Upper(key) then [key] else [key, Upper(key)])
            && (r.None? ==> st1.cache == st.cache)
  {
    var key := Strip(database);
    assert forall a: seq<string> :: a + [key] + [Upper(key)] == a + [key, Upper(key)];
    UpperTwice(key);
    if key != "" && Casefold(key) !in st.cache {
      if once(key).Some? {
        SuccessfulAttempt(once, st, key);
      } else {
        FailedAttempt(once, st, key);
        var st1 := CollectorState(st.cache, st.attempts + [key]);
        if key != Upper(key) {
          if once(Upper(key)).Some? {
            SuccessfulAttempt(once, st1, Upper(key));
          } else {
            FailedAttempt(once, st1, Upper(key));
          }
        }
      }
    }
  }

  lemma {:induction false} AlwaysCoherent(once: CollectOnce, databases: seq<string>)
    ensures Coherent(once, AfterCalls(once, databases))
  {
    if databases != [] {
      var front := databases[..|databases| - 1];
      AlwaysCoherent(once, front);
      CollectStep(once, AfterCalls(once, front), databases[|databases| - 1]);
    }
  }

  lemma {:induction false} CacheOnlyGrows(once: CollectOnce, databases: seq<string>, n: nat, k: string)
    requires n <= |databases| && k in AfterCalls(once, databases[..n]).cache
    ensures k in AfterCalls(once, databases).cache
    ensures AfterCalls(once, databases).cache[k] == AfterCalls(once, databases[..n]).cache[k]
    decreases |databases|
  {
    if n < |databases| {
      var front := databases[..|databases| - 1];
      assert front[..n] == databases[..n];
      CacheOnlyGrows(once, front, n, k);
      AlwaysCoherent(once, front);
      CollectStep(once, AfterCalls(once, front), databases[|databases| - 1]);
    } else {
      assert databases[..n] == databases;
    }
  }

  lemma CachedAfterSuccess(once: CollectOnce, databases: seq<string>, n: nat)
    requires n < |databases| && Collected(once, AfterCalls(once, databases[..n]), databases[n]).1.Some?
    ensures var key := Casefold(Strip(databases[n]));
            var st := AfterCalls(once, databases[..n + 1]);
            key in st.cache && st.cache[key] == Collected(once, AfterCalls(once, databases[..n]), databases[n]).1.value
  {
    assert databases[..n + 1][..n] == databases[..n];
    AlwaysCoherent(once, databases[..n]);
    CollectStep(once, AfterCalls(once, databases[..n]), databases[n]);
  }

  lemma HitChangesNothing(once: CollectOnce, st: CollectorState, again: string)
    requires Strip(again) != "" && Casefold(Strip(again)) in st.cache
    ensures Collected(once, st, again) == (st, Some(st.cache[Casefold(Strip(again))]))
  {
  }

  /** Over any sequence of calls: once a name has been collected, every later call with any spelling that
      folds to it returns the same map and tries nothing on the host. */
  lemma LaterCallsAgree(once: CollectOnce, databases: seq<string>, n: nat, again: string)
    requires n < |databases| && Strip(again) != ""
    requires Casefold(Strip(again)) == Casefold(Strip(databases[n]))
    requires Collected(once, AfterCalls(once, databases[..n]), databases[n]).1.Some?
    ensures Collected(once, AfterCalls(once, databases), again) ==
            (AfterCalls(once, databases), Collected(once, AfterCalls(once, databases[..n]), databases[n]).1)
  {
    CachedAfterSuccess(once, databases, n);
    CacheOnlyGrows(once, databases, n + 1, Casefold(Strip(again)));
    HitChangesNothing(once, AfterCalls(once, databases), again);
  }

  // ---------------------------------------------------------------- collecting many

  /** The maps a successful `collect_many` returned, one per non-blank name, in order. */
  function ManyMaps(once: CollectOnce, st: CollectorState, databases: seq<string>): seq<GuidMap>
    decreases |databases|
  {
    if databases == [] then []
    else if Strip(databases[0]) == "" then ManyMaps(once, st, databases[1..])
    else
      var (st1, r) := Collected(once, st, Strip(databases[0]));
      [r.GetOr([])] + ManyMaps(once, st1, databases[1..])
  }

  /** Some spelling of the name succeeds on the host. */
  predicate Available(once: CollectOnce, name: string) {
    once(Strip(name)).Some? || once(Upper(Strip(name))).Some?
  }

  /** The first of the names, up to case, that is not blank and not cached yet. */
  predicate IsNew(st: CollectorState, databases: seq<string>, i: int) {
    && 0 <= i < |databases| && Strip(databases[i]) != "" && Casefold(Strip(databases[i])) !in st.cache
    && forall j :: 0 <= j < i && Strip(databases[j]) != "" ==>
         Casefold(Strip(databases[j])) != Casefold(Strip(databases[i]))
  }

  lemma NewBehind(st: CollectorState, st1: CollectorState, name: string, names: seq<string>)
    requires if Strip(name) == "" then st1.cache.Keys == st.cache.Keys
             else st1.cache.Keys == st.cache.Keys + {Casefold(Strip(name))}
    ensures forall i :: 0 <= i ==> (IsNew(st1, names, i) <==> IsNew(st, [name] + names, i + 1))
  {
    var all := [name] + names;
    assert forall i :: 0 <= i < |names| ==> all[i + 1] == names[i];
    assert forall k :: k in st1.cache <==> k in st.cache || (Strip(name) != "" && k == Casefold(Strip(name))) by {
      forall k ensures k in st1.cache <==> k in st1.cache.Keys && (k in st.cache <==> k in st.cache.Keys) {}
    }
    forall i | 0 <= i ensures IsNew(st1, names, i) <==> IsNew(st, all, i + 1) {
      if IsNew(st1, names, i) {
        forall j | 0 <= j < i + 1 && Strip(all[j]) != ""
          ensures Casefold(Strip(all[j])) != Casefold(Strip(all[i + 1]))
        {
          if j > 0 { assert all[j] == names[j - 1]; }
        }
      }
      if IsNew(st, all, i + 1) {
        forall j | 0 <= j < i && Strip(names[j]) != ""
          ensures Casefold(Strip(names[j])) != Casefold(Strip(names[i]))
        {
          assert all[j + 1] == names[j];
        }
        assert all[0] == name;
      }
    }
  }

  lemma CollectedKeys(once: CollectOnce, st: CollectorState, name: string)
    requires Strip(name) != ""
    ensures var (st1, r) := Collected(once, st, Strip(name));
            && (r.Some? <==> Casefold(Strip(name)) in st.cache || Available(once, name))
            && (r.Some? ==> st1.cache.Keys == st.cache.Keys + {Casefold(Strip(name))})
  {
    StripTwice(name);
  }

  lemma NewOrFirst(once: CollectOnce, st: CollectorState, st1: CollectorState, databases: seq<string>)
    requires databases != []
    requires forall i :: 0 <= i ==> (IsNew(st1, databases[1..], i) <==> IsNew(st, databases, i + 1))
    requires IsNew(st, databases, 0) ==> Available(once, databases[0])
    ensures (forall i :: IsNew(st, databases, i) ==> Available(once, databases[i])) <==>
            forall i :: IsNew(st1, databases[1..], i) ==> Available(once, databases[1..][i])
  {
    if forall i :: IsNew(st, databases, i) ==> Available(once, databases[i]) {
      forall i | IsNew(st1, databases[1..], i) ensures Available(once, databases[1..][i]) {
        assert IsNew(st, databases, i + 1);
      }
    }
    if forall i :: IsNew(st1, databases[1..], i) ==> Available(once, databases[1..][i]) {
      forall i | IsNew(st, databases, i) ensures Available(once, databases[i]) {
        if i > 0 { assert IsNew(st1, databases[1..], i - 1); }
      }
    }
  }

  /** Collecting many succeeds exactly when every name that is neither blank nor cached nor a repetition, up to case, is
      available on the host. */
  lemma {:induction false} ManySucceedsExactly(once: CollectOnce, st: CollectorState, databases: seq<string>,
                                               merged: GuidMap)
    ensures CollectedMany(once, st, databases, merged).1.Some? <==>
            forall i :: IsNew(st, databases, i) ==> Available(once, databases[i])
    decreases |databases|
  {
    if databases != [] {
      var name, names := databases[0], databases[1..];
      HeadAndTail(databases);
      assert forall i :: 0 <= i < |names| ==> databases[i + 1] == names[i];
      if Strip(name) == "" {
        NewBehind(st, st, name, names);
        ManySucceedsExactly(once, st, names, merged);
        NewOrFirst(once, st, st, databases);
      } else {
        var (st1, r) := Collected(once, st, Strip(name));
        CollectedKeys(once, st, name);
        if r.Some? {
          NewBehind(st, st1, name, names);
          ManySucceedsExactly(once, st1, names, Updated(merged, r.value));
          NewOrFirst(once, st, st1, databases);
        } else {
          assert IsNew(st, databases, 0);
        }
      }
    }
  }

  lemma {:induction false} UpdatedGet(d: GuidMap, e: GuidMap, k: string)
    ensures Get(Updated(d, e), k) == LastValue(e, k).OrElse(Get(d, k))
  {
    if e != [] {
      UpdatedGet(d, e[..|e| - 1], k);
      PutGet(Updated(d, e[..|e| - 1]), e[|e| - 1].0, e[|e| - 1].1, k);
    }
  }

  /** A successful merge gives each GUID the name from the last database that reports it. */
  lemma {:induction false} ManyMergesLastWins(once: CollectOnce, st: CollectorState, databases: seq<string>,
                                              merged: GuidMap, k: string)
    requires CollectedMany(once, st, databases, merged).1.Some?
    ensures Get(CollectedMany(once, st, databases, merged).1.value, k) ==
            LastValue(Flatten(ManyMaps(once, st, databases)), k).OrElse(Get(merged, k))
    decreases |databases|
  {
    if databases != [] {
      if Strip(databases[0]) == "" {
        ManyMergesLastWins(once, st, databases[1..], merged, k);
      } else {
        var (st1, r) := Collected(once, st, Strip(databases[0]));
        ManyMergesLastWins(once, st1, databases[1..], Updated(merged, r.value), k);
        UpdatedGet(merged, r.value, k);
        LastValueConcat(r.value, Flatten(ManyMaps(once, st1, databases[1..])), k);
      }
    }
  }

  // ---------------------------------------------------------------- merging with the manual map

  function UpperItems(d: GuidMap): GuidMap {
    Map((item: (string, string)) => (Upper(item.0), item.1), d)
  }

  /** `merge_pdb_guid_maps`: upper-case keys, manual entries assigned last. */
  function Merged(auto: GuidMap, manual: GuidMap): GuidMap {
    FromItems(UpperItems(auto) + UpperItems(manual))
  }

  lemma UpperItemsAppend(d: GuidMap, i: nat)
    requires i < |d|
    ensures UpperItems(d[..i + 1]) == UpperItems(d[..i]) + [(Upper(d[i].0), d[i].1)]
  {
  }

  method MergePdbGuidMaps(auto: GuidMap, manual: GuidMap) returns (merged: GuidMap)
    ensures merged == Merged(auto, manual)
  {
    merged := [];
    for i := 0 to |auto|
      invariant merged == FromItems(UpperItems(auto[..i]))
    {
      FromItemsAppend(UpperItems(auto[..i]), Upper(auto[i].0), auto[i].1);
      UpperItemsAppend(auto, i);
      merged := Put(merged, Upper(auto[i].0), auto[i].1);
    }
    assert auto[..|auto|] == auto;
    ghost var items := UpperItems(auto);
    EmptyEnds(items);
    for i := 0 to |manual|
      invariant items == UpperItems(auto) + UpperItems(manual[..i]) && merged == FromItems(items)
    {
      FromItemsAppend(items, Upper(manual[i].0), manual[i].1);
      UpperItemsAppend(manual, i);
      Associative(UpperItems(auto), UpperItems(manual[..i]), [(Upper(manual[i].0), manual[i].1)]);
      items := items + [(Upper(manual[i].0), manual[i].1)];
      merged := Put(merged, Upper(manual[i].0), manual[i].1);
    }
    assert manual[..|manual|] == manual;
  }

  lemma {:induction false} UpperKeyedIsLastValue(d: GuidMap, k: string)
    ensures LastValue(UpperItems(d), k) == if k in UpperKeyed(d) then Some(UpperKeyed(d)[k]) else None
  {
    if d != [] {
      var n := |d| - 1;
      assert UpperItems(d)[..n] == UpperItems(d[..n]);
      UpperKeyedIsLastValue(d[..n], k);
    }
  }

  lemma {:induction false} PutUpper(d: GuidMap, k: string, v: string)
    requires UpperKeys(d) && IsUpper(k)
    ensures UpperKeys(Put(d, k, v))
  {
    if d != [] && d[0].0 != k { PutUpper(d[1..], k, v); }
  }

  lemma {:induction false} UpperItemsAreUpper(items: GuidMap)
    requires forall i :: 0 <= i < |items| ==> IsUpper(items[i].0)
    ensures UpperKeys(FromItems(items))
  {
    if items != [] {
      var n := |items| - 1;
      UpperItemsAreUpper(items[..n]);
      PutUpper(FromItems(items[..n]), items[n].0, items[n].1);
    }
  }

  /** Looking a GUID up in the merged map: the manual entry if there is one, else the collected entry,
      compared without case; the merged keys are upper-case. */
  lemma MergedExact(auto: GuidMap, manual: GuidMap, k: string)
    ensures IsDict(Merged(auto, manual)) && UpperKeys(Merged(auto, manual))
    ensures k in UpperKeyed(Merged(auto, manual)) <==> k in UpperKeyed(auto) || k in UpperKeyed(manual)
    ensures k in UpperKeyed(manual) ==> UpperKeyed(Merged(auto, manual))[k] == UpperKeyed(manual)[k]
    ensures k in UpperKeyed(auto) && k !in UpperKeyed(manual)
            ==> UpperKeyed(Merged(auto, manual))[k] == UpperKeyed(auto)[k]
  {
    var items := UpperItems(auto) + UpperItems(manual);
    forall i | 0 <= i < |items| ensures IsUpper(items[i].0) {
      UpperTwice(if i < |auto| then auto[i].0 else manual[i - |auto|].0);
    }
    UpperItemsAreUpper(items);
    FromItemsExact(items, k);
    LastValueConcat(UpperItems(auto), UpperItems(manual), k);
    UpperKeyedIsLastValue(auto, k);
    UpperKeyedIsLastValue(manual, k);
    UpperKeyedIsGet(Merged(auto, manual), k);
  }

  // ---------------------------------------------------------------- the policy a path is emitted with

  predicate IsNamed(name: string) {
    name != ""
  }

  function AliasDatabase(r: AliasRecord): string {
    r.databaseName.GetOr("")
  }

  /** Databases to ask: those of the scope, then those of the aliases, each once up to case, blanks skipped. */
  function NamedDatabases(scoped: seq<string>, aliases: seq<AliasRecord>): seq<string> {
    Dedup(Casefold, Filter(IsNamed, scoped + Map(AliasDatabase, aliases)))
  }

  method DatabasesForPdbMap(scoped: seq<string>, aliases: seq<AliasRecord>) returns (names: seq<string>)
    ensures names == NamedDatabases(scoped, aliases)
  {
    names := [];
    var seen: set<string> := {};
    var candidates := scoped + Map(AliasDatabase, aliases);
    for i := 0 to |candidates|
      invariant names == Dedup(Casefold, Filter(IsNamed, candidates[..i]))
      invariant seen == KeysOf(Casefold, Filter(IsNamed, candidates[..i]))
    {
      assert candidates[..i + 1] == candidates[..i] + [candidates[i]];
      FilterAppend(IsNamed, candidates[..i], candidates[i]);
      assert Filter(IsNamed, candidates[..i]) + [] == Filter(IsNamed, candidates[..i]);
      if candidates[i] != "" {
        DedupAppend(Casefold, Filter(IsNamed, candidates[..i]), candidates[i]);
        var key := Casefold(candidates[i]);
        if key !in seen {
          seen := seen + {key};
          names := names + [candidates[i]];
        }
      }
    }
    assert candidates[..|candidates|] == candidates;
  }

  lemma AliasOfName(aliases: seq<AliasRecord>, n: string)
    requires n != ""
    ensures n in Map(AliasDatabase, aliases) <==> exists r :: r in aliases && r.databaseName == Some(n)
  {
    if n in Map(AliasDatabase, aliases) {
      var i :| 0 <= i < |aliases| && Map(AliasDatabase, aliases)[i] == n;
      assert aliases[i] in aliases;
    }
    if r :| r in aliases && r.databaseName == Some(n) {
      var i :| 0 <= i < |aliases| && aliases[i] == r;
      assert AliasDatabase(r) == n;
      assert Map(AliasDatabase, aliases)[i] == AliasDatabase(aliases[i]);
    }
  }

  ghost predicate NamedSomewhere(scoped: seq<string>, aliases: seq<AliasRecord>, n: string) {
    n != "" && (n in scoped || exists r :: r in aliases && r.databaseName == Some(n))
  }

  lemma NamedCandidates(scoped: seq<string>, aliases: seq<AliasRecord>, n: string)
    ensures n in Filter(IsNamed, scoped + Map(AliasDatabase, aliases)) <==> NamedSomewhere(scoped, aliases, n)
  {
    FilterMembers(IsNamed, scoped + Map(AliasDatabase, aliases));
    if n != "" { AliasOfName(aliases, n); }
    assert n in scoped + Map(AliasDatabase, aliases) <==> n in scoped || n in Map(AliasDatabase, aliases);
  }

  lemma KeptSpelling(named: seq<string>, n: string) returns (kept: string)
    requires n in named
    ensures kept in Dedup(Casefold, named) && Casefold(kept) == Casefold(n)
  {
    DedupKeepsFirsts(Casefold, named);
    var i :| 0 <= i < |named| && named[i] == n;
    if IsFirst(Casefold, named, i) {
      kept := n;
    } else {
      var k :| 0 <= k < i && IsFirst(Casefold, named, k) && Casefold(named[k]) == Casefold(named[i]);
      kept := named[k];
    }
  }

  lemma ScopeIsAskedFirst(scoped: seq<string>, aliases: seq<AliasRecord>)
    ensures NamedDatabases(scoped, []) <= NamedDatabases(scoped, aliases)
  {
    var others := Map(AliasDatabase, aliases);
    FilterConcat(IsNamed, scoped, others);
    DedupFromConcat(Casefold, Filter(IsNamed, scoped), Filter(IsNamed, others), {});
    assert Map(AliasDatabase, []) == [];
    EmptyEnds(scoped);
  }

  /** Names of the scope come first, then those of the aliases: each kept name is one of them, none is blank, no two
      are equal up to case, and each of them is kept in some spelling. */
  lemma AskedExactly(scoped: seq<string>, aliases: seq<AliasRecord>)
    ensures NamedDatabases(scoped, []) <= NamedDatabases(scoped, aliases)
    ensures DistinctBy(Casefold, NamedDatabases(scoped, aliases))
    ensures forall n :: n in NamedDatabases(scoped, aliases) ==> NamedSomewhere(scoped, aliases, n)
    ensures forall n :: NamedSomewhere(scoped, aliases, n) ==>
              exists kept :: kept in NamedDatabases(scoped, aliases) && Casefold(kept) == Casefold(n)
  {
    var named := Filter(IsNamed, scoped + Map(AliasDatabase, aliases));
    ScopeIsAskedFirst(scoped, aliases);
    DedupKeepsFirsts(Casefold, named);
    forall n | n in NamedDatabases(scoped, aliases) ensures NamedSomewhere(scoped, aliases, n) {
      NamedCandidates(scoped, aliases, n);
    }
    forall n | NamedSomewhere(scoped, aliases, n)
      ensures exists kept :: kept in NamedDatabases(scoped, aliases) && Casefold(kept) == Casefold(n)
    {
      NamedCandidates(scoped, aliases, n);
      var kept := KeptSpelling(named, n);
    }
  }

  datatype PolicyError = NoPolicy | FetchFailed

  function NeededGuids(aliases: seq<AliasRecord>): set<string> {
    set i | 0 <= i < |aliases| && Truthy(aliases[i].pdbGuid) :: Upper(aliases[i].pdbGuid.value)
  }

  /** The outcome of `collect_many` on a fresh collector, merged into the policy. */
  function FetchedPolicy(base: MovePolicy, needed: set<string>, databases: seq<string>, once: CollectOnce)
    : Result<MovePolicy, PolicyError>
  {
    match CollectedMany(once, FRESH, databases, []).1
    case None => if needed <= UpperKeyed(base.pdbGuidMap).Keys then Ok(base) else Err(FetchFailed)
    case Some(auto) => Ok(base.(pdbGuidMap := Merged(auto, base.pdbGuidMap)))
  }

  method FetchPolicy(base: MovePolicy, needed: set<string>, databases: seq<string>, once: CollectOnce)
    returns (r: Result<MovePolicy, PolicyError>)
    ensures r == FetchedPolicy(base, needed, databases, once)
  {
    var collector := new PdbGuidMapCollector(once);
    var auto := collector.CollectMany(databases);
    if auto.None? {
      var already := UpperKeyed(base.pdbGuidMap).Keys;
      assert needed <= already + (needed - already);
      return if needed - already != {} then Err(FetchFailed) else Ok(base);
    }
    var merged := MergePdbGuidMaps(auto.value, base.pdbGuidMap);
    r := Ok(base.(pdbGuidMap := merged));
  }

  /** `resolve_move_policy_for_emit`; there is no `once` when the port offers no shell. */
  function ResolvedPolicy(base: Option<MovePolicy>, scoped: seq<string>, aliases: seq<AliasRecord>,
                          once: Option<CollectOnce>)
    : Result<MovePolicy, PolicyError>
  {
    if base.None? then Err(NoPolicy)
    else if !base.value.autoPdbGuidMap || once.None? then Ok(base.value)
    else
      var databases, needed := NamedDatabases(scoped, aliases), NeededGuids(aliases);
      if needed == {} || databases == [] then Ok(base.value)
      else FetchedPolicy(base.value, needed, databases, once.value)
  }

  method ResolveMovePolicyForEmit(base: Option<MovePolicy>, scoped: seq<string>, aliases: seq<AliasRecord>,
                                  once: Option<CollectOnce>)
    returns (r: Result<MovePolicy, PolicyError>)
    ensures r == ResolvedPolicy(base, scoped, aliases, once)
  {
    if base.None? { return Err(NoPolicy); }
    if !base.value.autoPdbGuidMap { return Ok(base.value); }
    if once.None? { return Ok(base.value); }
    var databases := DatabasesForPdbMap(scoped, aliases);
    var needed := NeededGuids(aliases);
    if needed == {} { return Ok(base.value); }
    if databases == [] { return Ok(base.value); }
    r := FetchPolicy(base.value, needed, databases, once.value);
  }

  lemma NeededCoveredMeansMapped(policy: MovePolicy, aliases: seq<AliasRecord>)
    ensures NeededGuids(aliases) <= UpperKeyed(policy.pdbGuidMap).Keys <==> FindUnmapped(policy, aliases) == []
  {
    FindUnmappedExact(policy, aliases);
    UpperKeyedDomain(policy.pdbGuidMap);
    HeadMember(FindUnmapped(policy, aliases));
    if NeededGuids(aliases) <= UpperKeyed(policy.pdbGuidMap).Keys {
      forall g ensures !IsUnmapped(policy, aliases, g) {
        if r :| r in aliases && Truthy(r.pdbGuid) && g == Upper(r.pdbGuid.value) {
          var i :| 0 <= i < |aliases| && aliases[i] == r;
          assert g in NeededGuids(aliases);
        }
      }
    }
    if FindUnmapped(policy, aliases) == [] {
      forall g | g in NeededGuids(aliases) ensures g in UpperKeyed(policy.pdbGuidMap) {
        var i :| 0 <= i < |aliases| && Truthy(aliases[i].pdbGuid) && g == Upper(aliases[i].pdbGuid.value);
        assert aliases[i] in aliases;
        assert !IsUnmapped(policy, aliases, g);
      }
    }
  }

  /** Nothing is fetched, and the policy stays as it is, unless fetching is switched on, the port offers a shell, some
      alias carries a GUID, and there is a database to ask; then the outcome of asking decides. */
  lemma FetchedWhenNeeded(base: MovePolicy, scoped: seq<string>, aliases: seq<AliasRecord>, once: Option<CollectOnce>)
    ensures var r, databases := ResolvedPolicy(Some(base), scoped, aliases, once), NamedDatabases(scoped, aliases);
            var asked := base.autoPdbGuidMap && once.Some? && databases != []
                         && exists alias :: alias in aliases && Truthy(alias.pdbGuid);
            && (!asked ==> r == Ok(base))
            && (asked ==>
                 match CollectedMany(once.value, FRESH, databases, []).1
                 case Some(fetched) => r == Ok(base.(pdbGuidMap := Merged(fetched, base.pdbGuidMap)))
                 case None => r == if FindUnmapped(base, aliases) == [] then Ok(base) else Err(FetchFailed))
    ensures ResolvedPolicy(None, scoped, aliases, once) == Err(NoPolicy)
  {
    NeededCoveredMeansMapped(base, aliases);
    var needed := NeededGuids(aliases);
    if needed != {} {
      var g :| g in needed;
      var i :| 0 <= i < |aliases| && Truthy(aliases[i].pdbGuid) && Upper(aliases[i].pdbGuid.value) == g;
      assert aliases[i] in aliases;
    }
    if alias :| alias in aliases && Truthy(alias.pdbGuid) {
      var i :| 0 <= i < |aliases| && aliases[i] == alias;
      assert Upper(aliases[i].pdbGuid.value) in needed;
    }
  }

  /** What was fetched on the way to a resolved policy; nothing when no fetch was needed or it failed. */
  function FetchedMap(base: MovePolicy, scoped: seq<string>, aliases: seq<AliasRecord>, once: Option<CollectOnce>)
    : GuidMap
  {
    if !base.autoPdbGuidMap || once.None? || NeededGuids(aliases) == {} || NamedDatabases(scoped, aliases) == [] then []
    else CollectedMany(once.value, FRESH, NamedDatabases(scoped, aliases), []).1.GetOr([])
  }

  /** A GUID's name: the manual entry if there is one, else the fetched one. */
  function NameFor(manual: GuidMap, fetched: GuidMap, g: string): Option<string> {
    if g in UpperKeyed(manual) then Some(UpperKeyed(manual)[g])
    else if g in UpperKeyed(fetched) then Some(UpperKeyed(fetched)[g])
    else None
  }

  lemma ResolvedNames(base: MovePolicy, scoped: seq<string>, aliases: seq<AliasRecord>, once: Option<CollectOnce>,
                      g: string)
    requires ResolvedPolicy(Some(base), scoped, aliases, once).Ok?
    ensures var names := UpperKeyed(ResolvedPolicy(Some(base), scoped, aliases, once).value.pdbGuidMap);
            NameFor(base.pdbGuidMap, FetchedMap(base, scoped, aliases, once), g)
              == if g in names then Some(names[g]) else None
  {
    MergedExact(FetchedMap(base, scoped, aliases, once), base.pdbGuidMap, g);
    assert UpperKeyed<string>([]) == map[];
  }

  /** Fetching never overrides a manual entry, and never touches anything but the GUID map: every record that the
      manual map resolves is emitted in the same container under the resolved policy. */
  lemma ManualNamesSurvive(base: MovePolicy, scoped: seq<string>, aliases: seq<AliasRecord>, once: Option<CollectOnce>,
                           r: AliasRecord)
    requires ResolvedPolicy(Some(base), scoped, aliases, once).Ok?
    requires !Truthy(r.pdbGuid) || r.pdbGuid.value in UpperKeyed(base.pdbGuidMap)
    ensures var policy := ResolvedPolicy(Some(base), scoped, aliases, once).value;
            && PolicyLabel(policy, r) == PolicyLabel(base, r)
            && policy == base.(pdbGuidMap := policy.pdbGuidMap)
  {
    var policy := ResolvedPolicy(Some(base), scoped, aliases, once).value;
    if policy != base && Truthy(r.pdbGuid) {
      var auto := CollectedMany(once.value, FRESH, NamedDatabases(scoped, aliases), []).1.value;
      MergedExact(auto, base.pdbGuidMap, r.pdbGuid.value);
    }
  }

  /** When the fetch was needed and failed, a policy comes back exactly when it passes the strict check as it is. */
  lemma FailedFetchIsHarmless(base: MovePolicy, scoped: seq<string>, aliases: seq<AliasRecord>, once: CollectOnce)
    requires base.autoPdbGuidMap && NeededGuids(aliases) != {} && NamedDatabases(scoped, aliases) != []
    requires CollectedMany(once, FRESH, NamedDatabases(scoped, aliases), []).1.None?
    ensures var r := ResolvedPolicy(Some(base), scoped, aliases, Some(once));
            && (r.Ok? <==> Emitted(base, aliases, true).Ok?)
            && (r.Ok? ==> r.value == base)
  {
    NeededCoveredMeansMapped(base, aliases);
  }
}
