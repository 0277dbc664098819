/** Which ASM roots a scope walks (asm_cleanup/pipeline/walk_scope_resolver.py). */
module Scope {
  import opened Wrappers
  import opened Sequences
  import opened Text
  import opened AliasRecords
  import opened FirstOccurrence
  import opened Paths

  datatype ScopeConfig = ScopeConfig(
    diskGroups: seq<string>,
    databases: seq<string>,
    excludeDatabases: seq<string>,
    excludePaths: seq<string>,
    defaultAsmPath: Option<string>)

  datatype ScopeError =
    | NoPort
    | ListingFailed
    | UnknownDatabases(names: set<string>)
    | NothingToWalk
    | EverythingExcluded

  /** `fnmatchcase(path, pattern)`, called on case-folded strings only. */
  type Glob = (string, string) -> bool

  // ---------------------------------------------------------------- specification

  function NotExcludedDatabase(scope: ScopeConfig): string -> bool {
    (db: string) =>
      forall i :: 0 <= i < |scope.excludeDatabases| ==> Casefold(scope.excludeDatabases[i]) != Casefold(db)
  }

  function Databases(scope: ScopeConfig, filter: set<string>): Result<seq<string>, ScopeError> {
    var base := Filter(NotExcludedDatabase(scope), scope.databases);
    var unknown := filter - (set i | 0 <= i < |scope.databases| :: scope.databases[i]);
    if filter == {} then Ok(base)
    else if unknown != {} then Err(UnknownDatabases(unknown))
    else Ok(Filter((db: string) => db in filter, base))
  }

  /** The accepted rows of a disk-group listing. */
  function TokenOf(row: string): Option<string> {
    var token := Strip(row);
    if token == "" || !IsDiskGroupToken(token) || RStripSlashes(token) == "" then None
    else Some(NormalizeDiskGroupToken(RStripSlashes(token)))
  }

  function Tokens(rows: seq<string>): seq<string> {
    Collect(TokenOf, rows)
  }

  function DiscoveredGroups(rows: seq<string>): seq<string> {
    Dedup(Casefold, Tokens(rows))
  }

  /** The rows of `asmcmd ls +` each time it is asked for; None when that call raises. */
  type GroupListing = nat -> Option<seq<string>>

  /** What asking for the `n`-th time yields; there may be no port to ask. */
  function Asked(port: Option<GroupListing>, n: nat): Result<seq<string>, ScopeError> {
    match port
    case None => Err(NoPort)
    case Some(list) =>
      (match list(n) case None => Err(ListingFailed) case Some(rows) => Ok(DiscoveredGroups(rows)))
  }

  /** Configured groups need no discovery. */
  function DiskGroups(scope: ScopeConfig, discovery: Result<seq<string>, ScopeError>): Result<seq<string>, ScopeError> {
    if scope.diskGroups != [] then Ok(Map(NormalizeDiskGroupToken, scope.diskGroups)) else discovery
  }

  function NotExcluded(glob: Glob, scope: ScopeConfig): string -> bool {
    (p: string) => forall i :: 0 <= i < |scope.excludePaths| ==> !glob(Casefold(p), Casefold(scope.excludePaths[i]))
  }

  function NormalizeIfAsm(path: string): string {
    if StartsWith(path, "+") then NormalizeAsmPath(path) else path
  }

  /** A path as the program processes it. */
  function NormalizedPath(asmPath: string): string {
    NormalizeIfAsm(Strip(asmPath))
  }

  lemma FoldKeepsTrimmed(s: string, t: string)
    requires Casefold(s) == Casefold(t) && Trimmed(s)
    ensures Trimmed(t)
  {
    assert |s| == |t| by { assert |Casefold(s)| == |s| && |Casefold(t)| == |t|; }
    if t != [] {
      assert Casefold(s)[0] == LowerChar(s[0]) && Casefold(t)[0] == LowerChar(t[0]);
      assert Casefold(s)[|s| - 1] == LowerChar(s[|s| - 1]) && Casefold(t)[|s| - 1] == LowerChar(t[|s| - 1]);
    }
  }

  /** Outer space is dropped; a path without a plus sign in front is otherwise left alone, and any other is put in upper
      case, all its segments but the last. */
  lemma NormalizedPathExact(asmPath: string)
    ensures Trimmed(NormalizedPath(asmPath)) && Casefold(NormalizedPath(asmPath)) == Casefold(Strip(asmPath))
    ensures !StartsWith(Strip(asmPath), "+") ==> NormalizedPath(asmPath) == Strip(asmPath)
    ensures StartsWith(Strip(asmPath), "+") ==>
              var before, after := Split(Strip(asmPath), '/'), Split(NormalizedPath(asmPath), '/');
              && |after| == |before|
              && forall i :: 0 <= i < |before| ==>
                   after[i] == if i == |before| - 1 && i > 0 then before[i] else Upper(before[i])
  {
    var _, _ := StripParts(asmPath);
    if StartsWith(Strip(asmPath), "+") {
      NormalizeBySegments(Strip(asmPath));
      NormalizeKeepsFoldedPath(Strip(asmPath));
    }
    FoldKeepsTrimmed(Strip(asmPath), NormalizedPath(asmPath));
  }

  /** The path given by the caller, else the scope's default; empty when expansion decides. */
  function GivenPath(scope: ScopeConfig, asmPath: Option<string>): string {
    if Strip(asmPath.GetOr("")) != "" then Strip(asmPath.GetOr("")) else Strip(scope.defaultAsmPath.GetOr(""))
  }

  function Candidates(scope: ScopeConfig, filter: set<string>, discovery: Result<seq<string>, ScopeError>,
                      asmPath: Option<string>)
    : Result<seq<string>, ScopeError>
  {
    var raw, default := Strip(asmPath.GetOr("")), Strip(scope.defaultAsmPath.GetOr(""));
    if raw != "" then Ok([NormalizeIfAsm(raw)])
    else if default != "" then Ok([NormalizeIfAsm(default)])
    else
      match DiskGroups(scope, discovery)
      case Err(e) => Err(e)
      case Ok(dgs) =>
        match Databases(scope, filter)
        case Err(e) => Err(e)
        case Ok(dbs) =>
          var paths := Dedup(Casefold, AllRoots(dgs, dbs));
          if paths == [] then Err(NothingToWalk) else Ok(paths)
  }

  function Resolved(glob: Glob, scope: ScopeConfig, filter: set<string>, discovery: Result<seq<string>, ScopeError>,
                    asmPath: Option<string>)
    : Result<seq<string>, ScopeError>
  {
    match Candidates(scope, filter, discovery, asmPath)
    case Err(e) => Err(e)
    case Ok(candidates) =>
      var paths := Filter(NotExcluded(glob, scope), candidates);
      if paths == [] then Err(EverythingExcluded) else Ok(paths)
  }

  // ---------------------------------------------------------------- the resolver

  method ApplyExclusions(glob: Glob, scope: ScopeConfig, paths: seq<string>) returns (filtered: seq<string>)
    ensures filtered == Filter(NotExcluded(glob, scope), paths)
  {
    filtered := [];
    for i := 0 to |paths|
      invariant filtered == Filter(NotExcluded(glob, scope), paths[..i])
    {
      assert paths[..i + 1] == paths[..i] + [paths[i]];
      FilterAppend(NotExcluded(glob, scope), paths[..i], paths[i]);
      if NotExcluded(glob, scope)(paths[i]) {
        filtered := filtered + [paths[i]];
      }
    }
    assert paths[..|paths|] == paths;
  }

  /** The row loop of `discover_disk_groups`. */
  method CollectGroups(rows: seq<string>) returns (groups: seq<string>)
    ensures groups == DiscoveredGroups(rows)
  {
    groups := [];
    var seen: set<string> := {};
    ghost var tokens: seq<string> := [];
    for i := 0 to |rows|
      invariant tokens == Tokens(rows[..i])
      invariant groups == Dedup(Casefold, tokens) && seen == KeysOf(Casefold, tokens)
    {
      CollectStep(TokenOf, rows, i);
      var token := Strip(rows[i]);
      if token != "" && IsDiskGroupToken(token) {
        token := RStripSlashes(token);
        if token != "" {
          var normalized := NormalizeDiskGroupToken(token);
          DedupAppend(Casefold, tokens, normalized);
          tokens := tokens + [normalized];
          var key := Casefold(normalized);
          if key !in seen {
            seen := seen + {key};
            groups := groups + [normalized];
          }
        }
      }
    }
    assert rows[..|rows|] == rows;
  }

  /** A resolver remembers the disk groups it has discovered. */
  class WalkScopeResolver {
    const scope: ScopeConfig
    const filter: set<string>
    const port: Option<GroupListing>
    var discovered: Option<seq<string>>
    var listCalls: nat

    constructor (scope: ScopeConfig, filter: set<string>, port: Option<GroupListing>)
      ensures this.scope == scope && this.filter == filter && this.port == port
      ensures Valid() && listCalls == 0 && discovered == None
    {
      this.scope, this.filter, this.port := scope, filter, port;
      discovered, listCalls := None, 0;
    }

    /** The listing was asked for until it answered, and not again; what is remembered is that answer. */
    ghost predicate Valid()
      reads this
    {
      && (discovered.Some? ==> listCalls > 0 && Asked(port, listCalls - 1) == Ok(discovered.value))
      && (forall k :: 0 <= k < listCalls - (if discovered.Some? then 1 else 0) ==> Asked(port, k) == Err(ListingFailed))
    }

    /** What discovery yields now. */
    function Discovery(): Result<seq<string>, ScopeError>
      reads this
    {
      if discovered.Some? then Ok(discovered.value) else Asked(port, listCalls)
    }

    method DiscoverDiskGroups() returns (r: Result<seq<string>, ScopeError>)
      requires Valid()
      modifies this
      ensures Valid()
      ensures r == old(Discovery())
      ensures discovered == if r.Ok? then Some(r.value) else None
      ensures listCalls == old(listCalls) + if old(discovered).None? && port.Some? then 1 else 0
    {
      if discovered.Some? { return Ok(discovered.value); }
      if port.None? { return Err(NoPort); }
      var answer := port.value(listCalls);
      listCalls := listCalls + 1;
      if answer.None? { return Err(ListingFailed); }
      var groups := CollectGroups(answer.value);
      discovered := Some(groups);
      r := Ok(groups);
    }

    method CandidatePaths(asmPath: Option<string>) returns (r: Result<seq<string>, ScopeError>)
      requires Valid()
      modifies this
      ensures Valid()
      ensures r == Candidates(scope, filter, old(Discovery()), asmPath)
      ensures GivenPath(scope, asmPath) != "" || scope.diskGroups != []
              ==> discovered == old(discovered) && listCalls == old(listCalls)
    {
      var raw := Strip(asmPath.GetOr(""));
      if raw != "" { return Ok([NormalizeIfAsm(raw)]); }
      var default := Strip(scope.defaultAsmPath.GetOr(""));
      if default != "" { return Ok([NormalizeIfAsm(default)]); }
      var groups: seq<string>;
      if scope.diskGroups != [] {
        groups := Map(NormalizeDiskGroupToken, scope.diskGroups);
      } else {
        var found := DiscoverDiskGroups();
        if found.Err? { return Err(found.error); }
        groups := found.value;
      }
      var dbs := Databases(scope, filter);
      if dbs.Err? { return Err(dbs.error); }
      var paths := ExpandAsmWalkPaths(groups, dbs.value);
      r := if paths == [] then Err(NothingToWalk) else Ok(paths);
    }

    /** A given path or configured groups make no call on the port. */
    method ResolvePaths(glob: Glob, asmPath: Option<string>) returns (r: Result<seq<string>, ScopeError>)
      requires Valid()
      modifies this
      ensures Valid()
      ensures r == Resolved(glob, scope, filter, old(Discovery()), asmPath)
      ensures GivenPath(scope, asmPath) != "" || scope.diskGroups != []
              ==> discovered == old(discovered) && listCalls == old(listCalls)
    {
      var candidates := CandidatePaths(asmPath);
      if candidates.Err? { return Err(candidates.error); }
      var filtered := ApplyExclusions(glob, scope, candidates.value);
      r := if filtered == [] then Err(EverythingExcluded) else Ok(filtered);
    }
  }

  // ---------------------------------------------------------------- what resolution yields

  /** The databases in scope: those listed, in order, that no exclusion equals up to case and that the filter, if there
      is one, names; the filter may name listed databases only. */
  lemma DatabasesExactly(scope: ScopeConfig, filter: set<string>)
    ensures Databases(scope, filter).Err? <==> exists name :: name in filter && name !in scope.databases
    ensures Databases(scope, filter).Err? ==>
              Databases(scope, filter).error.UnknownDatabases?
              && forall name ::
                   name in Databases(scope, filter).error.names <==> name in filter && name !in scope.databases
    ensures Databases(scope, filter).Ok? ==>
              && (forall db :: db in Databases(scope, filter).value <==>
                    && db in scope.databases && (filter == {} || db in filter)
                    && forall e :: e in scope.excludeDatabases ==> Casefold(e) != Casefold(db))
              && IsSubsequence(Databases(scope, filter).value, scope.databases)
  {
    var base := Filter(NotExcludedDatabase(scope), scope.databases);
    var unknown := filter - (set i | 0 <= i < |scope.databases| :: scope.databases[i]);
    FilterMembers(NotExcludedDatabase(scope), scope.databases);
    FilterMembers((db: string) => db in filter, base);
    FilterIsSubsequence(NotExcludedDatabase(scope), scope.databases);
    FilterIsSubsequence((db: string) => db in filter, base);
    forall name ensures name in unknown <==> name in filter && name !in scope.databases {}
    assert unknown != {} <==> exists name :: name in unknown;
    if Databases(scope, filter).Ok? && filter != {} {
      SubsequenceTransitive(Databases(scope, filter).value, base, scope.databases);
    }
  }

  lemma NameHoldsNoSlash(name: string)
    requires TokenChars(name)
    ensures '/' !in name && forall c :: c in name ==> !IsSpace(c)
  {
  }

  lemma StripOfToken(bare: string)
    requires bare != "" && forall c :: c in bare ==> !IsSpace(c)
    ensures Strip(bare) == bare
  {
    assert bare[0] in bare && bare[|bare| - 1] in bare;
    StripTrimmed(bare);
  }

  function Bare(plus: bool, name: string): string {
    (if plus then "+" else "") + name
  }

  lemma BareCharacters(plus: bool, name: string)
    requires name != "" && TokenChars(name)
    ensures Bare(plus, name) != "" && forall c :: c in Bare(plus, name) ==> !IsSpace(c) && c != '/'
  {
    NameHoldsNoSlash(name);
    forall c | c in Bare(plus, name) ensures !IsSpace(c) && c != '/' {
      assert c in name || c == '+';
    }
  }

  lemma BareNormalized(plus: bool, name: string)
    requires name != "" && TokenChars(name)
    ensures NormalizeDiskGroupToken(Bare(plus, name)) == "+" + Upper(name)
  {
    var bare := Bare(plus, name);
    BareCharacters(plus, name);
    StripOfToken(bare);
    NameHoldsNoSlash(name);
    EmptyEnds(name);
    EmptyEnds(bare);
    assert TokenParts(bare, plus, name, false);
    PartsOfToken(bare, plus, name, false);
    assert bare == if plus then "+" + (name + "") else name + "";
    assert NamesGroup(bare, name);
    DiskGroupTokenExact(bare, name);
  }

  lemma TokenRead(t: string, plus: bool, name: string, slash: bool)
    requires TokenParts(t, plus, name, slash)
    ensures RStripSlashes(t) == Bare(plus, name) && Bare(plus, name) != ""
    ensures NormalizeDiskGroupToken(RStripSlashes(t)) == "+" + Upper(name)
  {
    var bare := Bare(plus, name);
    BareCharacters(plus, name);
    SlashFreeStays(bare);
    assert t == bare + if slash then "/" else "";
    if slash { assert t[..|t| - 1] == bare; } else { EmptyEnds(bare); }
    BareNormalized(plus, name);
  }

  /** A row of the disk-group listing names a group exactly when, trimmed, it is an optional plus sign, a name and an
      optional slash; the group is the upper-cased name behind a plus sign. */
  lemma TokenExact(row: string, group: string)
    ensures TokenOf(row) == Some(group) <==>
            exists plus, name, slash :: TokenParts(Strip(row), plus, name, slash) && group == "+" + Upper(name)
  {
    StripTwice(row);
    DiskGroupTokensExact(Strip(row));
    forall plus, name, slash | TokenParts(Strip(row), plus, name, slash)
      ensures TokenOf(row) == Some("+" + Upper(name))
    {
      TokenRead(Strip(row), plus, name, slash);
    }
  }

  /** A path is excluded when some pattern matches it; neither its case nor the pattern's matters. */
  lemma ExcludedExactly(glob: Glob, scope: ScopeConfig, path: string)
    ensures NotExcluded(glob, scope)(path) <==>
            forall pattern :: pattern in scope.excludePaths ==> !glob(Casefold(path), Casefold(pattern))
    ensures NotExcluded(glob, scope)(path) == NotExcluded(glob, scope)(Upper(path))
    ensures NotExcluded(glob, scope)(path)
            == NotExcluded(glob, scope.(excludePaths := Map(Upper, scope.excludePaths)))(path)
  {
    var patterns, upper := scope.excludePaths, Map(Upper, scope.excludePaths);
    UpperTwice(path);
    forall i | 0 <= i < |patterns| ensures patterns[i] in patterns && Casefold(upper[i]) == Casefold(patterns[i]) {
      UpperTwice(patterns[i]);
    }
  }

  /** Excluding before or after choosing representatives is the same, as matching sees folded paths only. */
  lemma ExclusionCommutesWithDedup(glob: Glob, scope: ScopeConfig, paths: seq<string>)
    ensures Filter(NotExcluded(glob, scope), Dedup(Casefold, paths))
            == Dedup(Casefold, Filter(NotExcluded(glob, scope), paths))
  {
    DedupCommutesWithFilter(Casefold, NotExcluded(glob, scope), paths, {}, {});
  }

  /** Without an explicit or default path: the result is the first representative, up to case, of each
      surviving disk-group and database pair, in order; every result is normalized, and distinct up to case. */
  lemma ResolvedExactly(glob: Glob, scope: ScopeConfig, filter: set<string>, discovery: Result<seq<string>, ScopeError>,
                        asmPath: Option<string>)
    requires GivenPath(scope, asmPath) == ""
    requires DiskGroups(scope, discovery).Ok? && Databases(scope, filter).Ok?
    ensures var roots := AllRoots(DiskGroups(scope, discovery).value, Databases(scope, filter).value);
            var chosen := Dedup(Casefold, Filter(NotExcluded(glob, scope), roots));
            Resolved(glob, scope, filter, discovery, asmPath) ==
              if roots == [] then Err(NothingToWalk) else if chosen == [] then Err(EverythingExcluded) else Ok(chosen)
    ensures var r := Resolved(glob, scope, filter, discovery, asmPath);
            r.Ok? ==>
              DistinctBy(Casefold, r.value)
              && forall p :: p in r.value ==>
                   NormalizeAsmPath(p) == p
                   && forall pattern :: pattern in scope.excludePaths ==> !glob(Casefold(p), Casefold(pattern))
  {
    var roots := AllRoots(DiskGroups(scope, discovery).value, Databases(scope, filter).value);
    var kept := Filter(NotExcluded(glob, scope), roots);
    ExclusionCommutesWithDedup(glob, scope, roots);
    DedupKeepsFirsts(Casefold, roots);
    DedupKeepsFirsts(Casefold, kept);
    assert roots != [] ==> IsFirst(Casefold, roots, 0);
    RootsAreFixedPoints(DiskGroups(scope, discovery).value, Databases(scope, filter).value);
    FilterMembers(NotExcluded(glob, scope), roots);
    forall p | p in Dedup(Casefold, kept) ensures NormalizeAsmPath(p) == p && NotExcluded(glob, scope)(p) {
      var i :| 0 <= i < |kept| && kept[i] == p && IsFirst(Casefold, kept, i);
      assert p in kept;
    }
  }

  lemma FilterOne(p: string -> bool, x: string)
    ensures Filter(p, [x]) == if p(x) then [x] else []
  {
    assert [x][1..] == [];
  }

  lemma BlankIsNothing()
    ensures Strip("") == ""
  {
  }

  /** A given path is exempt from everything but exclusion; it is walked in its normal form, which differs from
      what was given in case only. */
  lemma GivenPathWins(glob: Glob, scope: ScopeConfig, filter: set<string>, discovery: Result<seq<string>, ScopeError>,
                      asmPath: Option<string>)
    requires GivenPath(scope, asmPath) != ""
    ensures var given := GivenPath(scope, asmPath);
            var p := NormalizeIfAsm(given);
            && Resolved(glob, scope, filter, discovery, asmPath) ==
                 (if NotExcluded(glob, scope)(given) then Ok([p]) else Err(EverythingExcluded))
            && Casefold(p) == Casefold(given) && NormalizeIfAsm(p) == p
    ensures asmPath.Some? && Strip(asmPath.value) != "" ==> GivenPath(scope, asmPath) == Strip(asmPath.value)
    ensures asmPath.None?
            ==> scope.defaultAsmPath.Some? && GivenPath(scope, asmPath) == Strip(scope.defaultAsmPath.value)
  {
    var given := GivenPath(scope, asmPath);
    var p := NormalizeIfAsm(given);
    NormalizeKeepsFoldedPath(given);
    NormalizeIdempotent(given);
    BlankIsNothing();
    assert Candidates(scope, filter, discovery, asmPath) == Ok([p]);
    FilterOne(NotExcluded(glob, scope), p);
  }
}
