/** Processing paths into artifacts, one by one or on a pool
    (asm_cleanup/pipeline/pipeline_orchestrator.py). */
module Orchestrator {
  import opened Wrappers
  import opened Sequences
  import opened Text
  import opened Transcript
  import opened AliasRecords
  import opened Ordering
  import opened Elision
  import opened Dicts
  import opened Inventories
  import opened MoveSql
  import opened GuidMaps
  import opened Scope
  import opened Artifacts
  import opened ConcurrentRun

  datatype BlockReason = GuidFetchFailed | UnmappedGuids(guids: seq<string>)

  datatype WalkResult = WalkResult(
    asmPath: string,
    filesExamined: nat,
    aliasRows: nat,
    uniqueAliases: nat,
    fixWritten: bool,
    emitBlocked: Option<BlockReason>)

  datatype Content = TextFile(text: string) | SqlFile(script: Script) | ResultFile(result: WalkResult)

  /** A run's fixed inputs: the port, the row matcher, the policy, the databases in scope,
      the GUID collection when the port has a shell, the phases, and the date stamp. */
  datatype Settings = Settings(
    walk: PathWalk,
    matcher: RowMatcher,
    policy: Option<MovePolicy>,
    scoped: seq<string>,
    once: Option<CollectOnce>,
    doWalk: bool,
    doAnalyze: bool,
    doFix: bool,
    stamp: string)

  // ---------------------------------------------------------------- one path

  function NameOf(s: Settings, kind: Kind, sequence: Option<nat>, asmPath: string): string {
    ArtifactName(kind, s.stamp, sequence, NormalizedPath(asmPath))
  }

  /** The inventory of a path, live, from its earlier transcript, or empty; None when walking or loading raises. */
  function InventoryOf(s: Settings, path: string, existing: Option<Content>): Option<Inventory> {
    if s.doWalk then s.walk(path)
    else
      match existing
      case None => Some(Inventory(path, [], SCHEMA_VERSION))
      case Some(TextFile(text)) =>
        (match Load(text, Some(path)) case Ok(inv) => Some(inv) case Err(_) => None)
      case Some(_) => None
  }

  function AnalyzedAliases(s: Settings, inv: Inventory): seq<AliasRecord> {
    if s.doAnalyze then Aliases(s.matcher, inv) else []
  }

  /** The fix stage of a path: skipped, raising, blocked for a reason, or a script. */
  datatype Fix = Skipped | Raises | Blocked(reason: BlockReason) | Written(script: Script)

  function FixOf(s: Settings, aliases: seq<AliasRecord>): Fix {
    if !s.doFix || aliases == [] then Skipped
    else
      match ResolvedPolicy(s.policy, s.scoped, aliases, s.once)
      case Err(NoPolicy) => Raises
      case Err(FetchFailed) => Blocked(GuidFetchFailed)
      case Ok(policy) =>
        match Emitted(policy, aliases, true)
        case Ok(script) => Written(script)
        case Err(guids) => Blocked(UnmappedGuids(guids))
  }

  function UnfixedResult(s: Settings, path: string, inv: Inventory): WalkResult {
    WalkResult(path, |Filter(IsFileRow, AllRows(inv.directories))|, |Filter(IsAliasRow, AllRows(inv.directories))|,
               |AnalyzedAliases(s, inv)|, false, None)
  }

  /** Script first, then the summary; nothing is summarized when the fix stage raises. */
  function Assemble(sql: string, json: string, result: WalkResult, fix: Fix): Job<Content, WalkResult> {
    match fix
    case Skipped => Job([(json, ResultFile(result))], Some(result))
    case Raises => Job([], None)
    case Blocked(reason) =>
      var blocked := result.(emitBlocked := Some(reason));
      Job([(json, ResultFile(blocked))], Some(blocked))
    case Written(script) =>
      var written := result.(fixWritten := true);
      Job([(sql, SqlFile(script)), (json, ResultFile(written))], Some(written))
  }

  /** What remains once the inventory is there. */
  function Remainder(s: Settings, path: string, sql: string, json: string, inv: Inventory): Job<Content, WalkResult> {
    Assemble(sql, json, UnfixedResult(s, path, inv), FixOf(s, AnalyzedAliases(s, inv)))
  }

  function Transcribed(s: Settings, txt: string, inv: Inventory): seq<(string, Content)> {
    if s.doWalk then [(txt, TextFile(Print(inv)))] else []
  }

  /** The writes of `process_path`, in order, and what it returns, for given artifact names. */
  function NamedPlan(s: Settings, path: string, txt: string, sql: string, json: string, existing: Option<Content>)
    : Job<Content, WalkResult>
  {
    match InventoryOf(s, path, existing)
    case None => Job([], None)
    case Some(inv) =>
      var rest := Remainder(s, path, sql, json, inv);
      Job(Transcribed(s, txt, inv) + rest.writes, rest.outcome)
  }

  function Plan(s: Settings, asmPath: string, sequence: Option<nat>, existing: Option<Content>)
    : Job<Content, WalkResult>
  {
    NamedPlan(s, NormalizedPath(asmPath), NameOf(s, WalkText, sequence, asmPath), NameOf(s, FixSql, sequence, asmPath),
              NameOf(s, ResultJson, sequence, asmPath), existing)
  }

  /** The job of a path on the given files: only its own earlier transcript is looked at. */
  function PlanOn(s: Settings, asmPath: string, sequence: Option<nat>, files: Files<Content>)
    : Job<Content, WalkResult>
  {
    Plan(s, asmPath, sequence, Look(files, NameOf(s, WalkText, sequence, asmPath)))
  }

  class ArtifactStore {
    var files: Files<Content>

    constructor (files: Files<Content>)
      ensures this.files == files
    {
      this.files := files;
    }

    method WriteFile(name: string, content: Content)
      modifies this
      ensures files == old(files)[name := content]
    {
      files := files[name := content];
    }
  }

  lemma {:induction false} ApplyConcat(files: Files<Content>, first: seq<(string, Content)>,
                                       second: seq<(string, Content)>)
    ensures Apply(files, first + second) == Apply(Apply(files, first), second)
  {
    if second == [] {
      EmptyEnds(first);
    } else {
      var n := |second| - 1;
      assert (first + second)[..|first| + n] == first + second[..n];
      ApplyConcat(files, first, second[..n]);
    }
  }

  lemma ApplyOne(files: Files<Content>, name: string, content: Content)
    ensures Apply(files, [(name, content)]) == files[name := content]
  {
    assert [(name, content)][..0] == [];
  }

  lemma ApplyTwo(files: Files<Content>, a: string, x: Content, b: string, y: Content)
    ensures Apply(files, [(a, x), (b, y)]) == files[a := x][b := y]
  {
    assert [(a, x), (b, y)][..1] == [(a, x)];
    ApplyOne(files, a, x);
  }

  /** The emitting part of `process_path`. */
  method EmitFix(s: Settings, aliases: seq<AliasRecord>) returns (fix: Fix)
    ensures fix == FixOf(s, aliases)
  {
    if !s.doFix || aliases == [] { return Skipped; }
    var policy := ResolveMovePolicyForEmit(s.policy, s.scoped, aliases, s.once);
    if policy.Err? {
      return if policy.error.NoPolicy? then Raises else Blocked(GuidFetchFailed);
    }
    var sql := Emit(policy.value, aliases, true);
    fix := if sql.Err? then Blocked(UnmappedGuids(sql.error)) else Written(sql.value);
  }

  method FindInventory(s: Settings, path: string, existing: Option<Content>) returns (r: Option<Inventory>)
    ensures r == InventoryOf(s, path, existing)
  {
    if s.doWalk { return s.walk(path); }
    if existing.None? { return Some(Inventory(path, [], SCHEMA_VERSION)); }
    if !existing.value.TextFile? { return None; }
    var loaded := Load(existing.value.text, Some(path));
    r := if loaded.Err? then None else Some(loaded.value);
  }

  /** Writing the script and the summary. */
  method WriteOutcome(store: ArtifactStore, sql: string, json: string, unfixed: WalkResult, fix: Fix)
    returns (r: Option<WalkResult>)
    modifies store
    ensures var job := Assemble(sql, json, unfixed, fix);
            store.files == Apply(old(store.files), job.writes) && r == job.outcome
  {
    ghost var files := store.files;
    if fix.Raises? { return None; }
    var result := unfixed;
    if fix.Written? {
      store.WriteFile(sql, SqlFile(fix.script));
      result := result.(fixWritten := true);
      ApplyTwo(files, sql, SqlFile(fix.script), json, ResultFile(result));
    } else if fix.Blocked? {
      result := result.(emitBlocked := Some(fix.reason));
    }
    ApplyOne(files, json, ResultFile(result));
    store.WriteFile(json, ResultFile(result));
    r := Some(result);
  }

  /** Analysis and fix of an inventory. */
  method ProcessInventory(s: Settings, store: ArtifactStore, path: string, sql: string, json: string, inv: Inventory)
    returns (r: Option<WalkResult>)
    modifies store
    ensures var job := Remainder(s, path, sql, json, inv);
            store.files == Apply(old(store.files), job.writes) && r == job.outcome
  {
    var aliases: seq<AliasRecord> := [];
    if s.doAnalyze { aliases := ExtractAliases(s.matcher, inv); }
    var filesExamined, aliasRows := SummarizeListingStats(inv);
    var fix := EmitFix(s, aliases);
    r := WriteOutcome(store, sql, json, WalkResult(path, filesExamined, aliasRows, |aliases|, false, None), fix);
  }

  /** The body of `process_path`, for given artifact names; None when it raises. */
  method ProcessNamed(s: Settings, store: ArtifactStore, path: string, txt: string, sql: string, json: string)
    returns (r: Option<WalkResult>)
    modifies store
    ensures var job := NamedPlan(s, path, txt, sql, json, Look(old(store.files), txt));
            store.files == Apply(old(store.files), job.writes) && r == job.outcome
  {
    ghost var files := store.files;
    var inv := FindInventory(s, path, Look(store.files, txt));
    if inv.None? { return None; }
    ApplyConcat(files, Transcribed(s, txt, inv.value), Remainder(s, path, sql, json, inv.value).writes);
    if s.doWalk {
      var text := InventoryToTranscript(inv.value);
      ApplyOne(files, txt, TextFile(text));
      store.WriteFile(txt, TextFile(text));
    }
    r := ProcessInventory(s, store, path, sql, json, inv.value);
  }

  /** `process_path` with default artifact names. */
  method ProcessPath(s: Settings, store: ArtifactStore, asmPath: string, sequence: Option<nat>)
    returns (r: Option<WalkResult>)
    modifies store
    ensures store.files == Apply(old(store.files), PlanOn(s, asmPath, sequence, old(store.files)).writes)
    ensures r == PlanOn(s, asmPath, sequence, old(store.files)).outcome
  {
    r := ProcessNamed(s, store, NormalizedPath(asmPath), NameOf(s, WalkText, sequence, asmPath),
                      NameOf(s, FixSql, sequence, asmPath), NameOf(s, ResultJson, sequence, asmPath));
  }

  lemma FixExact(s: Settings, aliases: seq<AliasRecord>)
    ensures var policy, fix := ResolvedPolicy(s.policy, s.scoped, aliases, s.once), FixOf(s, aliases);
            && (fix.Skipped? <==> !s.doFix || aliases == [])
            && (fix.Written? <==> s.doFix && aliases != [] && policy.Ok? && FindUnmapped(policy.value, aliases) == [])
            && (fix.Written? ==> Emitted(policy.value, aliases, true) == Ok(fix.script))
  {
  }

  /** What a plan that ends with a result says about its fix script. */
  ghost predicate StrictFix(s: Settings, inv: Inventory, job: Job<Content, WalkResult>)
    requires job.outcome.Some?
  {
    var aliases, result := AnalyzedAliases(s, inv), job.outcome.value;
    var policy := ResolvedPolicy(s.policy, s.scoped, aliases, s.once);
    && (result.fixWritten <==> s.doFix && aliases != [] && policy.Ok? && FindUnmapped(policy.value, aliases) == [])
    && (result.fixWritten || result.emitBlocked.Some? <==> s.doFix && aliases != [])
    && !(result.fixWritten && result.emitBlocked.Some?)
    && (result.fixWritten <==> exists k :: 0 <= k < |job.writes| && job.writes[k].1.SqlFile?)
    && (forall k :: 0 <= k < |job.writes| && job.writes[k].1.SqlFile? ==>
         Emitted(policy.value, aliases, true) == Ok(job.writes[k].1.script))
  }

  /** The scripts among the writes are those of the fix stage, whatever was transcribed before. */
  lemma AssembledScripts(kept: seq<(string, Content)>, sql: string, json: string, result: WalkResult, fix: Fix)
    requires forall k :: 0 <= k < |kept| ==> !kept[k].1.SqlFile?
    ensures var writes := kept + Assemble(sql, json, result, fix).writes;
            && (fix.Written? <==> exists k :: 0 <= k < |writes| && writes[k].1.SqlFile?)
            && (forall k :: 0 <= k < |writes| && writes[k].1.SqlFile? ==> Written(writes[k].1.script) == fix)
  {
    var rest := Assemble(sql, json, result, fix).writes;
    if fix.Written? {
      assert (kept + rest)[|kept|] == rest[0];
    }
  }

  lemma NamedPlanIsStrict(s: Settings, path: string, txt: string, sql: string, json: string, existing: Option<Content>)
    requires NamedPlan(s, path, txt, sql, json, existing).outcome.Some?
    ensures StrictFix(s, InventoryOf(s, path, existing).value, NamedPlan(s, path, txt, sql, json, existing))
  {
    var inv := InventoryOf(s, path, existing).value;
    FixExact(s, AnalyzedAliases(s, inv));
    AssembledScripts(Transcribed(s, txt, inv), sql, json, UnfixedResult(s, path, inv),
                     FixOf(s, AnalyzedAliases(s, inv)));
  }

  /** A fix script is written exactly when it passes the strict check under the resolved policy; the result says so,
      and a result never reports both a written and a blocked script. */
  lemma FixScriptsAreStrict(s: Settings, asmPath: string, sequence: Option<nat>, existing: Option<Content>)
    requires Plan(s, asmPath, sequence, existing).outcome.Some?
    ensures StrictFix(s, InventoryOf(s, NormalizedPath(asmPath), existing).value, Plan(s, asmPath, sequence, existing))
  {
    NamedPlanIsStrict(s, NormalizedPath(asmPath), NameOf(s, WalkText, sequence, asmPath),
                      NameOf(s, FixSql, sequence, asmPath), NameOf(s, ResultJson, sequence, asmPath), existing);
  }

  /** The reason for a blocked script: the unmapped GUIDs, or that they could not be fetched. */
  predicate BlockedFor(s: Settings, aliases: seq<AliasRecord>, reason: BlockReason) {
    match reason
    case GuidFetchFailed => ResolvedPolicy(s.policy, s.scoped, aliases, s.once) == Err(FetchFailed)
    case UnmappedGuids(guids) =>
      && ResolvedPolicy(s.policy, s.scoped, aliases, s.once).Ok?
      && guids != [] && guids == FindUnmapped(ResolvedPolicy(s.policy, s.scoped, aliases, s.once).value, aliases)
  }

  lemma AssembledResult(sql: string, json: string, result: WalkResult, fix: Fix)
    ensures var job := Assemble(sql, json, result, fix);
            job.outcome.Some? ==>
              && job.outcome.value
                 == result.(fixWritten := job.outcome.value.fixWritten, emitBlocked := job.outcome.value.emitBlocked)
              && |job.writes| > 0 && job.writes[|job.writes| - 1] == (json, ResultFile(job.outcome.value))
              && (job.outcome.value.emitBlocked.Some? ==>
                   fix == Blocked(job.outcome.value.emitBlocked.value)
                     || job.outcome.value.emitBlocked == result.emitBlocked)
  {
  }

  lemma FixBlocked(s: Settings, aliases: seq<AliasRecord>)
    ensures FixOf(s, aliases).Blocked? ==> BlockedFor(s, aliases, FixOf(s, aliases).reason)
  {
  }

  /** What the result of a path says: the path, the file rows and among them the alias rows, the unique aliases, and why
      there is no script; it is also the last file written. */
  lemma ResultExact(s: Settings, path: string, txt: string, sql: string, json: string, existing: Option<Content>)
    requires NamedPlan(s, path, txt, sql, json, existing).outcome.Some?
    ensures var job := NamedPlan(s, path, txt, sql, json, existing);
            var inv, result := InventoryOf(s, path, existing).value, job.outcome.value;
            && result.asmPath == path
            && result.filesExamined == |Filter(IsFileRow, AllRows(inv.directories))|
            && result.aliasRows == |Filter(IsAliasRow, AllRows(inv.directories))|
            && result.uniqueAliases == |AnalyzedAliases(s, inv)|
            && (result.emitBlocked.Some? ==> BlockedFor(s, AnalyzedAliases(s, inv), result.emitBlocked.value))
            && |job.writes| > 0 && job.writes[|job.writes| - 1] == (json, ResultFile(result))
  {
    var inv := InventoryOf(s, path, existing).value;
    AssembledResult(sql, json, UnfixedResult(s, path, inv), FixOf(s, AnalyzedAliases(s, inv)));
    FixBlocked(s, AnalyzedAliases(s, inv));
  }

  /** Without a walk and without an earlier transcript a path has no directories, and so no rows, aliases or script. */
  lemma NothingToReuse(s: Settings, path: string, txt: string, sql: string, json: string)
    requires !s.doWalk
    ensures NamedPlan(s, path, txt, sql, json, None) ==
            (var result := WalkResult(path, 0, 0, 0, false, None);
             Job([(json, ResultFile(result))], Some(result)))
  {
    var inv := Inventory(path, [], SCHEMA_VERSION);
    assert AllRows([]) == [];
    assert RawAliases(s.matcher, []) == [];
    assert AnalyzedAliases(s, inv) == [];
    EmptyEnds(Remainder(s, path, sql, json, inv).writes);
  }

  lemma AnalyzedUpper(s: Settings, inv: Inventory)
    ensures UpperGuids(AnalyzedAliases(s, inv))
  {
    if s.doAnalyze {
      RawAliasesUpper(s.matcher, inv.directories);
      DedupUpper(RawAliases(s.matcher, inv.directories));
    }
  }

  lemma GuidsAreNamed(policy: MovePolicy, aliases: seq<AliasRecord>, r: AliasRecord)
    requires FindUnmapped(policy, aliases) == [] && UpperGuids(aliases) && r in aliases && Truthy(r.pdbGuid)
    ensures r.pdbGuid.value in UpperKeyed(policy.pdbGuidMap)
    ensures IntendedContainer(policy, r.pdbGuid) == UpperKeyed(policy.pdbGuidMap)[r.pdbGuid.value]
  {
    NeededCoveredMeansMapped(policy, aliases);
    var i :| 0 <= i < |aliases| && aliases[i] == r;
    assert UpperGuid(r);
    assert Upper(aliases[i].pdbGuid.value) in NeededGuids(aliases);
  }

  /** What running a fix script does: each alias of the path's inventory is moved once, in sorted order, in the
      container of its GUID, if and only if the labels are sentinel-safe. A GUID's container is the manual entry, else
      the fetched one; there is always one. */
  ghost predicate MovesAliases(s: Settings, aliases: seq<AliasRecord>, script: Script)
    requires s.policy.Some?
    requires ResolvedPolicy(s.policy, s.scoped, aliases, s.once).Ok?
  {
    var policy := ResolvedPolicy(s.policy, s.scoped, aliases, s.once).value;
    var ordered := SortAliasRecords(aliases);
    && (Run(script, CDB_ROOT) == IntendedMoves(policy, ordered)
        <==> SentinelSafe(Labels(policy, ordered), CDB_ROOT, SENTINEL))
    && (NoPdbNamedSentinel(policy) ==> Run(script, CDB_ROOT) == IntendedMoves(policy, ordered))
    && multiset(ordered) == multiset(aliases)
    && (forall r :: r in aliases && Truthy(r.pdbGuid) ==>
         NameFor(s.policy.value.pdbGuidMap, FetchedMap(s.policy.value, s.scoped, aliases, s.once), r.pdbGuid.value)
         == Some(IntendedContainer(policy, r.pdbGuid)))
  }

  lemma StrictScriptMovesAliases(s: Settings, aliases: seq<AliasRecord>, script: Script)
    requires ResolvedPolicy(s.policy, s.scoped, aliases, s.once).Ok? && UpperGuids(aliases)
    requires Emitted(ResolvedPolicy(s.policy, s.scoped, aliases, s.once).value, aliases, true) == Ok(script)
    ensures s.policy.Some? && MovesAliases(s, aliases, script)
  {
    var policy := ResolvedPolicy(s.policy, s.scoped, aliases, s.once).value;
    UpperScriptExact(policy, aliases, true);
    SortContents(SortKey, aliases);
    forall r | r in aliases && Truthy(r.pdbGuid)
      ensures NameFor(s.policy.value.pdbGuidMap, FetchedMap(s.policy.value, s.scoped, aliases, s.once), r.pdbGuid.value)
              == Some(IntendedContainer(policy, r.pdbGuid))
    {
      GuidsAreNamed(policy, aliases, r);
      ResolvedNames(s.policy.value, s.scoped, aliases, s.once, r.pdbGuid.value);
    }
  }

  /** Every fix script that processing a path writes moves the aliases of that path's inventory. */
  lemma FixScriptMovesAliases(s: Settings, asmPath: string, sequence: Option<nat>, existing: Option<Content>, k: nat)
    requires Plan(s, asmPath, sequence, existing).outcome.Some?
    requires k < |Plan(s, asmPath, sequence, existing).writes|
             && Plan(s, asmPath, sequence, existing).writes[k].1.SqlFile?
    ensures InventoryOf(s, NormalizedPath(asmPath), existing).Some? && s.policy.Some?
    ensures var aliases := AnalyzedAliases(s, InventoryOf(s, NormalizedPath(asmPath), existing).value);
            && ResolvedPolicy(s.policy, s.scoped, aliases, s.once).Ok?
            && MovesAliases(s, aliases, Plan(s, asmPath, sequence, existing).writes[k].1.script)
  {
    FixScriptsAreStrict(s, asmPath, sequence, existing);
    var inv := InventoryOf(s, NormalizedPath(asmPath), existing).value;
    AnalyzedUpper(s, inv);
    StrictScriptMovesAliases(s, AnalyzedAliases(s, inv), Plan(s, asmPath, sequence, existing).writes[k].1.script);
  }

  /** The move of an alias in a fix script: own type and source, the policy's destination and mode, and the container
      of the alias's GUID, which is the manual entry, else the fetched one, or the root. */
  ghost predicate FixesAlias(s: Settings, aliases: seq<AliasRecord>, m: Executed, r: AliasRecord)
    requires s.policy.Some?
  {
    && m.kind == r.fileType && m.source == r.sourcePath
    && m.destination == s.policy.value.destinationDiskGroup && m.online == s.policy.value.online
    && (if Truthy(r.pdbGuid)
        then Some(m.container) == NameFor(s.policy.value.pdbGuidMap,
                                          FetchedMap(s.policy.value, s.scoped, aliases, s.once), r.pdbGuid.value)
        else m.container == "CDB$ROOT")
  }

  lemma ResolvedElsewhereSame(s: Settings, aliases: seq<AliasRecord>)
    requires ResolvedPolicy(s.policy, s.scoped, aliases, s.once).Ok?
    ensures s.policy.Some?
    ensures var policy := ResolvedPolicy(s.policy, s.scoped, aliases, s.once).value;
            policy.destinationDiskGroup == s.policy.value.destinationDiskGroup && policy.online == s.policy.value.online
  {
  }

  lemma StrictScriptMoveByMove(s: Settings, aliases: seq<AliasRecord>, script: Script)
    returns (ordered: seq<AliasRecord>)
    requires s.policy.Some? && ResolvedPolicy(s.policy, s.scoped, aliases, s.once).Ok?
    requires Emitted(ResolvedPolicy(s.policy, s.scoped, aliases, s.once).value, aliases, true) == Ok(script)
    requires MovesAliases(s, aliases, script)
    ensures multiset(ordered) == multiset(aliases)
    ensures forall i, j :: 0 <= i < j < |ordered| ==> FieldsAscend(ordered[i], ordered[j])
    ensures |Run(script, CDB_ROOT)| == |ordered|
    ensures NoPdbNamedSentinel(ResolvedPolicy(s.policy, s.scoped, aliases, s.once).value) ==>
              forall i :: 0 <= i < |ordered| ==> FixesAlias(s, aliases, Run(script, CDB_ROOT)[i], ordered[i])
  {
    var policy := ResolvedPolicy(s.policy, s.scoped, aliases, s.once).value;
    ordered := SortAliasRecords(aliases);
    SortedByFields(aliases);
    EveryMoveIsARecords(policy, aliases, true, CDB_ROOT);
    ResolvedElsewhereSame(s, aliases);
    SortMembers(SortKey, aliases);
    if NoPdbNamedSentinel(policy) {
      forall i | 0 <= i < |ordered| ensures FixesAlias(s, aliases, Run(script, CDB_ROOT)[i], ordered[i]) {
        assert ordered[i] in ordered;
        assert Run(script, CDB_ROOT)[i]
               == ExecutedIn(policy, IntendedContainer(policy, ordered[i].pdbGuid), ordered[i]);
      }
    }
  }

  /** A fix script move by move, from the rows of the listings on: one move per extracted alias, by ascending disk
      group, database, GUID and source path. */
  lemma FixScriptMoveByMove(s: Settings, asmPath: string, sequence: Option<nat>, existing: Option<Content>, k: nat)
    returns (ordered: seq<AliasRecord>)
    requires Plan(s, asmPath, sequence, existing).outcome.Some?
    requires k < |Plan(s, asmPath, sequence, existing).writes|
             && Plan(s, asmPath, sequence, existing).writes[k].1.SqlFile?
    ensures InventoryOf(s, NormalizedPath(asmPath), existing).Some? && s.policy.Some?
    ensures var inv := InventoryOf(s, NormalizedPath(asmPath), existing).value;
            var aliases := AnalyzedAliases(s, inv);
            var moves := Run(Plan(s, asmPath, sequence, existing).writes[k].1.script, CDB_ROOT);
            && ResolvedPolicy(s.policy, s.scoped, aliases, s.once).Ok?
            && (forall r :: r in aliases ==> Stems(s.matcher, inv.directories, r))
            && multiset(ordered) == multiset(aliases)
            && (forall i, j :: 0 <= i < j < |ordered| ==> FieldsAscend(ordered[i], ordered[j]))
            && |moves| == |ordered|
            && (NoPdbNamedSentinel(ResolvedPolicy(s.policy, s.scoped, aliases, s.once).value) ==>
                 forall i :: 0 <= i < |moves| ==> FixesAlias(s, aliases, moves[i], ordered[i]))
  {
    FixScriptMovesAliases(s, asmPath, sequence, existing, k);
    FixScriptsAreStrict(s, asmPath, sequence, existing);
    var inv := InventoryOf(s, NormalizedPath(asmPath), existing).value;
    var script := Plan(s, asmPath, sequence, existing).writes[k].1.script;
    if s.doAnalyze { ExtractedExactly(s.matcher, inv); }
    ordered := StrictScriptMoveByMove(s, AnalyzedAliases(s, inv), script);
  }

  // ---------------------------------------------------------------- a run that reuses the transcript

  /** The same settings, without the walk phase. */
  function Reusing(s: Settings): Settings {
    s.(doWalk := false)
  }

  /** The transcript of a walk gives the same directories back exactly when they are restorable. */
  lemma ReuseSeesTheWalk(s: Settings, path: string, inv: Inventory)
    ensures var again := InventoryOf(Reusing(s), path, Some(TextFile(Print(inv))));
            again.Some? && again.value.directories == inv.directories <==> Restorable(inv.directories)
  {
    LoadRestoresExactly(inv, Some(path));
  }

  /** What follows the inventory looks at its directories only, and not at whether they were walked. */
  lemma RemainderOfDirectories(s: Settings, path: string, sql: string, json: string, inv: Inventory, other: Inventory)
    requires inv.directories == other.directories
    ensures Remainder(s, path, sql, json, inv) == Remainder(Reusing(s), path, sql, json, other)
  {
    assert AnalyzedAliases(s, inv) == AnalyzedAliases(Reusing(s), other);
    assert FixOf(s, AnalyzedAliases(s, inv)) == FixOf(Reusing(s), AnalyzedAliases(s, inv));
  }

  lemma {:induction false} ApplyDecides(f: Files<Content>, g: Files<Content>, writes: seq<(string, Content)>, k: nat)
    requires k < |writes|
    ensures Look(Apply(f, writes), writes[k].0) == Look(Apply(g, writes), writes[k].0)
  {
    var n := |writes| - 1;
    if k < n && writes[n].0 != writes[k].0 { ApplyDecides(f, g, writes[..n], k); }
  }

  lemma ApplyTwice(files: Files<Content>, writes: seq<(string, Content)>)
    ensures Apply(Apply(files, writes), writes) == Apply(files, writes)
  {
    var once := Apply(files, writes);
    forall name ensures Look(Apply(once, writes), name) == Look(once, name) {
      if k: nat :| k < |writes| && writes[k].0 == name {
        ApplyDecides(once, files, writes, k);
      } else {
        ApplyElsewhere(once, writes, name);
      }
    }
    SameLooks(Apply(once, writes), once);
  }

  lemma TranscriptSurvives(files: Files<Content>, txt: string, sql: string, json: string, text: string,
                           result: WalkResult, fix: Fix)
    requires txt != sql && txt != json
    ensures Look(Apply(files, [(txt, TextFile(text))] + Assemble(sql, json, result, fix).writes), txt)
            == Some(TextFile(text))
  {
    var rest := Assemble(sql, json, result, fix).writes;
    ApplyConcat(files, [(txt, TextFile(text))], rest);
    ApplyOne(files, txt, TextFile(text));
    ApplyElsewhere(Apply(files, [(txt, TextFile(text))]), rest, txt);
  }

  lemma NamedReuse(s: Settings, path: string, txt: string, sql: string, json: string, files: Files<Content>)
    requires s.doWalk && s.walk(path).Some? && Restorable(s.walk(path).value.directories)
    requires txt != sql && txt != json
    ensures var live := NamedPlan(s, path, txt, sql, json, Look(files, txt));
            var left := Apply(files, live.writes);
            var again := NamedPlan(Reusing(s), path, txt, sql, json, Look(left, txt));
            && live.writes == [(txt, TextFile(Print(s.walk(path).value)))] + again.writes
            && again.outcome == live.outcome
            && Apply(left, again.writes) == left
  {
    var inv := s.walk(path).value;
    var rest := Remainder(s, path, sql, json, inv);
    var first := [(txt, TextFile(Print(inv)))];
    TranscriptSurvives(files, txt, sql, json, Print(inv), UnfixedResult(s, path, inv),
                       FixOf(s, AnalyzedAliases(s, inv)));
    ReuseSeesTheWalk(s, path, inv);
    var other := InventoryOf(Reusing(s), path, Some(TextFile(Print(inv)))).value;
    RemainderOfDirectories(s, path, sql, json, inv, other);
    ApplyConcat(files, first, rest.writes);
    ApplyTwice(Apply(files, first), rest.writes);
    EmptyEnds(rest.writes);
  }

  lemma KindsHaveOwnNames(s: Settings, a: Kind, b: Kind, sequence: Option<nat>, asmPath: string)
    ensures NameOf(s, a, sequence, asmPath) == NameOf(s, b, sequence, asmPath) ==> a == b
  {
    var slug := AsmPathSlug(NormalizedPath(asmPath));
    if NameOf(s, a, sequence, asmPath) == NameOf(s, b, sequence, asmPath) {
      KindsDiffer(a, b, s.stamp + ['_'] + (Middle(sequence, slug) + Extension(a)),
                  s.stamp + ['_'] + (Middle(sequence, slug) + Extension(b)));
    }
  }

  /** Repeating a path without the walk, on the files that its walking run left: when the walked directories are
      restorable, the second run writes the same script and summary, returns the same result, or raises alike, and
      changes no file. */
  lemma ReuseRepeatsTheRun(s: Settings, asmPath: string, sequence: Option<nat>, files: Files<Content>)
    requires s.doWalk && s.walk(NormalizedPath(asmPath)).Some?
    requires Restorable(s.walk(NormalizedPath(asmPath)).value.directories)
    ensures var live := PlanOn(s, asmPath, sequence, files);
            var left := Apply(files, live.writes);
            var again := PlanOn(Reusing(s), asmPath, sequence, left);
            && live.writes
               == [(NameOf(s, WalkText, sequence, asmPath), TextFile(Print(s.walk(NormalizedPath(asmPath)).value)))]
                              + again.writes
            && again.outcome == live.outcome
            && Apply(left, again.writes) == left
  {
    KindsHaveOwnNames(s, WalkText, FixSql, sequence, asmPath);
    KindsHaveOwnNames(s, WalkText, ResultJson, sequence, asmPath);
    NamedReuse(s, NormalizedPath(asmPath), NameOf(s, WalkText, sequence, asmPath), NameOf(s, FixSql, sequence, asmPath),
               NameOf(s, ResultJson, sequence, asmPath), files);
  }

  // ---------------------------------------------------------------- many paths

  predicate Owns(s: Settings, paths: seq<string>, i: nat, name: string) {
    && i < |paths|
    && (name == NameOf(s, WalkText, Some(i), paths[i]) || name == NameOf(s, FixSql, Some(i), paths[i])
        || name == NameOf(s, ResultJson, Some(i), paths[i]))
  }

  function Owning(s: Settings, paths: seq<string>, name: string): nat -> bool {
    (i: nat) => Owns(s, paths, i, name)
  }

  /** The first number from `i` on, below `n`, that has the property. */
  function FirstFrom(p: nat -> bool, n: nat, i: nat): Option<nat>
    requires i <= n
    decreases n - i
  {
    if i == n then None else if p(i) then Some(i) else FirstFrom(p, n, i + 1)
  }

  lemma {:induction false} FirstFound(p: nat -> bool, n: nat, from: nat, i: nat)
    requires from <= i < n && p(i) && forall j: nat :: p(j) ==> j == i
    ensures FirstFrom(p, n, from) == Some(i)
    decreases i - from
  {
    if from < i { FirstFound(p, n, from + 1, i); }
  }

  function OwnerOf(s: Settings, paths: seq<string>, name: string): Option<nat> {
    FirstFrom(Owning(s, paths, name), |paths|, 0)
  }

  lemma OwnerIsUnique(s: Settings, paths: seq<string>, i: nat, j: nat, name: string)
    requires Owns(s, paths, i, name) && Owns(s, paths, j, name)
    ensures i == j
  {
    forall a, b ensures NameOf(s, a, Some(i), paths[i]) == NameOf(s, b, Some(j), paths[j]) ==> i == j {
      NamesNeverCollide(s.stamp, a, i, NormalizedPath(paths[i]), b, j, NormalizedPath(paths[j]));
    }
  }

  lemma OwnerFound(s: Settings, paths: seq<string>, i: nat, name: string)
    requires Owns(s, paths, i, name)
    ensures OwnerOf(s, paths, name) == Some(i)
  {
    var p := Owning(s, paths, name);
    forall j: nat | p(j) ensures j == i {
      OwnerIsUnique(s, paths, i, j, name);
    }
    FirstFound(p, |paths|, 0, i);
  }

  function PathNumber(paths: seq<string>, i: nat): string {
    if i < |paths| then paths[i] else ""
  }

  /** The pool's program: worker `i` processes path `i` under its sequence number. */
  function Pool(s: Settings, paths: seq<string>): Program<Content, WalkResult> {
    Program(
      |paths|,
      (i: nat) => NameOf(s, WalkText, Some(i), PathNumber(paths, i)),
      (i: nat, existing: Option<Content>) => Plan(s, PathNumber(paths, i), Some(i), existing),
      (name: string) => OwnerOf(s, paths, name))
  }

  lemma PlanWritesNamedFiles(s: Settings, path: string, txt: string, sql: string, json: string,
                             existing: Option<Content>)
    ensures var writes := NamedPlan(s, path, txt, sql, json, existing).writes;
            forall k :: 0 <= k < |writes| ==> writes[k].0 == txt || writes[k].0 == sql || writes[k].0 == json
  {
  }

  lemma PlanWritesOwnFiles(s: Settings, paths: seq<string>, i: nat, existing: Option<Content>)
    requires i < |paths|
    ensures var writes := Plan(s, paths[i], Some(i), existing).writes;
            forall k :: 0 <= k < |writes| ==> Owns(s, paths, i, writes[k].0)
  {
    PlanWritesNamedFiles(s, NormalizedPath(paths[i]), NameOf(s, WalkText, Some(i), paths[i]),
                         NameOf(s, FixSql, Some(i), paths[i]), NameOf(s, ResultJson, Some(i), paths[i]), existing);
  }

  /** Because numbered names never collide, the workers touch disjoint files. */
  lemma PoolIsSeparate(s: Settings, paths: seq<string>)
    ensures Separate(Pool(s, paths))
  {
    var p := Pool(s, paths);
    forall i | 0 <= i < p.workers ensures p.owner(p.input(i)) == Some(i) {
      OwnerFound(s, paths, i, p.input(i));
    }
    forall i, before, k | 0 <= i < p.workers && 0 <= k < |p.plan(i, before).writes|
      ensures p.owner(p.plan(i, before).writes[k].0) == Some(i)
    {
      PlanWritesOwnFiles(s, paths, i, before);
      OwnerFound(s, paths, i, p.plan(i, before).writes[k].0);
    }
  }

  /** For every interleaving of the workers and every completion order: the files are those of processing the
      paths one after the other, the results, if no path fails, are the per-path results in path order, and an
      exception is raised exactly when some path fails. */
  lemma ParallelRunEqualsSequential(s: Settings, paths: seq<string>, files: Files<Content>, events: seq<Event>)
    requires Exec(Pool(s, paths), Initial(Pool(s, paths), files), events).Some?
    requires Terminal(Exec(Pool(s, paths), Initial(Pool(s, paths), files), events).value)
    ensures var p := Pool(s, paths);
            var end := Exec(p, Initial(p, files), events).value;
            && end.files == SequentialFiles(p, files, |paths|)
            && (end.raised.None? <==> AllSucceed(p, files))
            && (end.raised.None? ==> |end.results| == |paths|)
            && (end.raised.None? ==> forall i :: 0 <= i < |paths| ==> end.results[i] == JobOf(p, files, i).outcome)
  {
    PoolIsSeparate(s, paths);
    RunIsConfluent(Pool(s, paths), files, events);
  }

  /** What worker `i` does when the paths before it have been processed is what it does on the initial files: the
      job of `process_path` on its own earlier transcript. */
  lemma WorkerJobIsItsPath(s: Settings, paths: seq<string>, files: Files<Content>, i: nat)
    requires i < |paths|
    ensures JobOf(Pool(s, paths), SequentialFiles(Pool(s, paths), files, i), i) == JobOf(Pool(s, paths), files, i)
    ensures JobOf(Pool(s, paths), files, i) == PlanOn(s, paths[i], Some(i), files)
  {
    PoolIsSeparate(s, paths);
    SequentialLook(Pool(s, paths), files, i, Pool(s, paths).input(i));
  }
}
