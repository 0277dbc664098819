/** The scan from the catalog to the scripts (`run` in asm_cleanup/services/scan_service.py). */
module Scan {
  import opened Wrappers
  import opened Sequences
  import opened Text
  import opened Ordering
  import opened Dicts
  import opened AliasRecords
  import opened Paths
  import opened FirstOccurrence
  import opened MoveSql
  import opened ScriptsByDatabase
  import opened Scope
  import opened Inventories
  import opened Enrichment

  datatype DatabaseFile = DatabaseFile(path: string, conName: string, fileType: string)

  /** What discovery reports of one database: its PDBs as (name, guid) and its files. */
  datatype DatabaseDetails = DatabaseDetails(name: string, pdbs: seq<(string, string)>, files: seq<DatabaseFile>)

  // ---------------------------------------------------------------- catalog and GUID map

  function FileItem(database: string, f: DatabaseFile): (string, FileInfo) {
    (NormPath(f.path), FileInfo(f.conName, f.fileType, database, f.path))
  }

  function PdbItem(pdb: (string, string)): (string, string) {
    (Upper(pdb.1), pdb.0)
  }

  function ItemsOf(db: DatabaseDetails): seq<(string, FileInfo)> {
    seq(|db.files|, j requires 0 <= j < |db.files| => FileItem(db.name, db.files[j]))
  }

  function FileItems(dbs: seq<DatabaseDetails>): seq<(string, FileInfo)> {
    if dbs == [] then []
    else FileItems(dbs[..|dbs| - 1]) + ItemsOf(dbs[|dbs| - 1])
  }

  function PdbItems(dbs: seq<DatabaseDetails>): seq<(string, string)> {
    if dbs == [] then [] else PdbItems(dbs[..|dbs| - 1]) + Map(PdbItem, dbs[|dbs| - 1].pdbs)
  }

  function CatalogOf(dbs: seq<DatabaseDetails>): Catalog {
    FromItems(FileItems(dbs))
  }

  function GuidPdbMapOf(dbs: seq<DatabaseDetails>): Dict<string> {
    FromItems(PdbItems(dbs))
  }

  method AssignAll<V>(d: Dict<V>, items: seq<(string, V)>, ghost before: seq<(string, V)>) returns (r: Dict<V>)
    requires d == FromItems(before)
    ensures r == FromItems(before + items)
  {
    r := d;
    ghost var all := before;
    EmptyEnds(before);
    for i := 0 to |items|
      invariant all == before + items[..i] && r == FromItems(all)
    {
      FromItemsAppend(all, items[i].0, items[i].1);
      assert items[..i + 1] == items[..i] + [items[i]];
      Associative(before, items[..i], [items[i]]);
      all := all + [items[i]];
      r := Put(r, items[i].0, items[i].1);
    }
    assert items[..|items|] == items;
  }

  /** The per-database loop of the scan. */
  method CollectDetails(dbs: seq<DatabaseDetails>) returns (catalog: Catalog, guidPdbMap: Dict<string>)
    ensures catalog == CatalogOf(dbs) && guidPdbMap == GuidPdbMapOf(dbs)
  {
    catalog, guidPdbMap := [], [];
    for i := 0 to |dbs|
      invariant catalog == CatalogOf(dbs[..i]) && guidPdbMap == GuidPdbMapOf(dbs[..i])
    {
      assert dbs[..i + 1][..i] == dbs[..i];
      var db := dbs[i];
      guidPdbMap := AssignAll(guidPdbMap, Map(PdbItem, db.pdbs), PdbItems(dbs[..i]));
      catalog := AssignAll(catalog, ItemsOf(db), FileItems(dbs[..i]));
    }
    assert dbs[..|dbs|] == dbs;
  }

  lemma {:induction false} FileItemsKeyed(dbs: seq<DatabaseDetails>)
    ensures forall item :: item in FileItems(dbs) ==> item.0 == NormPath(item.1.rawPath)
  {
    if dbs != [] { FileItemsKeyed(dbs[..|dbs| - 1]); }
  }

  lemma PdbItemUpper(pdb: (string, string))
    ensures IsUpper(PdbItem(pdb).0)
  {
    UpperTwice(pdb.1);
  }

  lemma {:induction false} PdbItemsUpper(dbs: seq<DatabaseDetails>)
    ensures forall item :: item in PdbItems(dbs) ==> IsUpper(item.0)
    ensures forall item :: item in PdbItems(dbs) ==>
              exists db, pdb :: db in dbs && pdb in db.pdbs && item == PdbItem(pdb)
  {
    if dbs != [] {
      var n := |dbs| - 1;
      PdbItemsUpper(dbs[..n]);
      var last := Map(PdbItem, dbs[n].pdbs);
      forall j | 0 <= j < |last|
        ensures IsUpper(last[j].0) && dbs[n] in dbs && dbs[n].pdbs[j] in dbs[n].pdbs
                && last[j] == PdbItem(dbs[n].pdbs[j])
      {
        PdbItemUpper(dbs[n].pdbs[j]);
      }
      forall item | item in PdbItems(dbs) && item !in last
        ensures exists db, pdb :: db in dbs && pdb in db.pdbs && item == PdbItem(pdb)
      {
        var db, pdb :| db in dbs[..n] && pdb in db.pdbs && item == PdbItem(pdb);
        assert db in dbs;
      }
    }
  }

  lemma ItemsOfFromItems<V>(items: seq<(string, V)>)
    ensures IsDict(FromItems(items))
    ensures forall i :: 0 <= i < |FromItems(items)| ==> FromItems(items)[i] in items
  {
    var d := FromItems(items);
    FromItemsExact(items, "");
    forall i | 0 <= i < |d| ensures d[i] in items {
      GetAt(d, i);
      FromItemsExact(items, d[i].0);
      LastValueIsAnItem(items, d[i].0);
    }
  }

  /** The catalog files every path under its trimmed, folded spelling, the last reporting database winning;
      the GUID map has upper-case keys. */
  lemma DetailsWellFormed(dbs: seq<DatabaseDetails>)
    ensures WellKeyed(CatalogOf(dbs))
    ensures forall k :: Get(CatalogOf(dbs), k) == LastValue(FileItems(dbs), k)
    ensures IsDict(GuidPdbMapOf(dbs)) && UpperKeys(GuidPdbMapOf(dbs))
    ensures forall k :: Get(GuidPdbMapOf(dbs), k) == LastValue(PdbItems(dbs), k)
  {
    ItemsOfFromItems(FileItems(dbs));
    ItemsOfFromItems(PdbItems(dbs));
    FileItemsKeyed(dbs);
    PdbItemsUpper(dbs);
    forall k ensures Get(CatalogOf(dbs), k) == LastValue(FileItems(dbs), k) { FromItemsExact(FileItems(dbs), k); }
    forall k ensures Get(GuidPdbMapOf(dbs), k) == LastValue(PdbItems(dbs), k) { FromItemsExact(PdbItems(dbs), k); }
  }

  /** The PDB that discovery reports for a GUID, else a placeholder; the root without a GUID. */
  function ContainerOf(guidPdbMap: Dict<string>, guid: Option<string>): string {
    if Truthy(guid) then Get(guidPdbMap, guid.value).GetOr(Placeholder(guid.value)) else CDB_ROOT
  }

  ghost predicate ReportsFile(dbs: seq<DatabaseDetails>, i: int, j: int, k: string) {
    0 <= i < |dbs| && 0 <= j < |dbs[i].files| && NormPath(dbs[i].files[j].path) == k
  }

  /** The last report of a path, by database and then by row. */
  ghost predicate LastFileReport(dbs: seq<DatabaseDetails>, i: int, j: int, k: string) {
    ReportsFile(dbs, i, j, k) && forall m, n :: ReportsFile(dbs, m, n, k) ==> m < i || (m == i && n <= j)
  }

  function ReportedInfo(dbs: seq<DatabaseDetails>, i: int, j: int): FileInfo
    requires 0 <= i < |dbs| && 0 <= j < |dbs[i].files|
  {
    FileInfo(dbs[i].files[j].conName, dbs[i].files[j].fileType, dbs[i].name, dbs[i].files[j].path)
  }

  lemma LastReportOfOne(dbs: seq<DatabaseDetails>, i: nat, k: string, info: FileInfo)
    requires i < |dbs|
    ensures LastValue(ItemsOf(dbs[i]), k) == Some(info) <==>
            exists j :: ReportsFile(dbs, i, j, k) && info == ReportedInfo(dbs, i, j)
                        && forall l :: ReportsFile(dbs, i, l, k) ==> l <= j
    ensures LastValue(ItemsOf(dbs[i]), k) == None <==> forall j :: !ReportsFile(dbs, i, j, k)
  {
    var items := ItemsOf(dbs[i]);
    LastValueExact(items, k, info);
    forall j ensures ReportsFile(dbs, i, j, k) <==> 0 <= j < |items| && items[j].0 == k {}
    if LastValue(items, k) == Some(info) {
      var j :| 0 <= j < |items| && items[j] == (k, info) && forall l :: j < l < |items| ==> items[l].0 != k;
      assert ReportsFile(dbs, i, j, k) && info == ReportedInfo(dbs, i, j);
    }
    if j :| ReportsFile(dbs, i, j, k) && info == ReportedInfo(dbs, i, j)
            && forall l :: ReportsFile(dbs, i, l, k) ==> l <= j {
      assert items[j] == (k, info);
      forall l | j < l < |items| ensures items[l].0 != k { assert !ReportsFile(dbs, i, l, k); }
    }
  }

  ghost predicate SaysLast(dbs: seq<DatabaseDetails>, k: string, info: FileInfo) {
    exists i, j :: LastFileReport(dbs, i, j, k) && info == ReportedInfo(dbs, i, j)
  }

  ghost predicate Unreported(dbs: seq<DatabaseDetails>, k: string) {
    forall i, j :: !ReportsFile(dbs, i, j, k)
  }

  lemma ReportsInFront(dbs: seq<DatabaseDetails>, k: string)
    requires dbs != []
    ensures forall i, j :: ReportsFile(dbs, i, j, k) <==>
              ReportsFile(dbs[..|dbs| - 1], i, j, k) || (i == |dbs| - 1 && ReportsFile(dbs, |dbs| - 1, j, k))
  {
  }

  lemma SaysLastStep(dbs: seq<DatabaseDetails>, k: string, info: FileInfo)
    requires dbs != []
    ensures var n := |dbs| - 1;
            SaysLast(dbs, k, info) <==>
              (exists j :: ReportsFile(dbs, n, j, k) && info == ReportedInfo(dbs, n, j)
                           && forall l :: ReportsFile(dbs, n, l, k) ==> l <= j)
              || ((forall j :: !ReportsFile(dbs, n, j, k)) && SaysLast(dbs[..n], k, info))
  {
    var n := |dbs| - 1;
    ReportsInFront(dbs, k);
    if SaysLast(dbs, k, info) {
      var i, j :| LastFileReport(dbs, i, j, k) && info == ReportedInfo(dbs, i, j);
      if i < n {
        forall m, l | ReportsFile(dbs[..n], m, l, k) ensures m < i || (m == i && l <= j) {
          assert ReportsFile(dbs, m, l, k);
        }
        assert LastFileReport(dbs[..n], i, j, k);
        assert forall l :: ReportsFile(dbs, n, l, k) ==> n < i || (n == i && l <= j);
      }
    }
    if j :| ReportsFile(dbs, n, j, k) && info == ReportedInfo(dbs, n, j)
            && forall l :: ReportsFile(dbs, n, l, k) ==> l <= j {
      assert LastFileReport(dbs, n, j, k);
    }
    if (forall j :: !ReportsFile(dbs, n, j, k)) && SaysLast(dbs[..n], k, info) {
      var i, j :| LastFileReport(dbs[..n], i, j, k) && info == ReportedInfo(dbs[..n], i, j);
      assert LastFileReport(dbs, i, j, k);
    }
  }

  lemma UnreportedStep(dbs: seq<DatabaseDetails>, front: seq<DatabaseDetails>, n: nat, k: string)
    requires dbs != [] && n == |dbs| - 1 && front == dbs[..n]
    ensures Unreported(dbs, k) <==> Unreported(front, k) && forall j :: !ReportsFile(dbs, n, j, k)
  {
    ReportsInFront(dbs, k);
    if Unreported(dbs, k) {
      forall i, j ensures !ReportsFile(front, i, j, k) { assert !ReportsFile(dbs, i, j, k); }
    }
  }

  /** The catalog holds, under each path without case and outer space, what the last report of that path says. */
  lemma {:induction false} CatalogIsLastReport(dbs: seq<DatabaseDetails>, k: string, info: FileInfo)
    ensures LastValue(FileItems(dbs), k) == Some(info) <==> SaysLast(dbs, k, info)
    ensures LastValue(FileItems(dbs), k) == None <==> Unreported(dbs, k)
  {
    if dbs != [] {
      var n := |dbs| - 1;
      CatalogIsLastReport(dbs[..n], k, info);
      LastReportOfOne(dbs, n, k, info);
      LastValueConcat(FileItems(dbs[..n]), ItemsOf(dbs[n]), k);
      SaysLastStep(dbs, k, info);
      UnreportedStep(dbs, dbs[..n], n, k);
    }
  }

  // ---------------------------------------------------------------- the injected emit map

  function Inject(m: Dict<string>, r: AliasRecord): Dict<string> {
    if Truthy(r.pdbGuid) then SetDefault(m, Upper(r.pdbGuid.value), Placeholder(Upper(r.pdbGuid.value))) else m
  }

  function EmitMap(guidPdbMap: Dict<string>, records: seq<AliasRecord>): Dict<string> {
    if records == [] then guidPdbMap
    else Inject(EmitMap(guidPdbMap, records[..|records| - 1]), records[|records| - 1])
  }

  method BuildEmitMap(guidPdbMap: Dict<string>, records: seq<AliasRecord>) returns (m: Dict<string>)
    ensures m == EmitMap(guidPdbMap, records)
  {
    m := guidPdbMap;
    for i := 0 to |records|
      invariant m == EmitMap(guidPdbMap, records[..i])
    {
      assert records[..i + 1][..i] == records[..i];
      if Truthy(records[i].pdbGuid) {
        var key := Upper(records[i].pdbGuid.value);
        m := SetDefault(m, key, Placeholder(key));
      }
    }
    assert records[..|records|] == records;
  }

  ghost predicate Mentions(records: seq<AliasRecord>, k: string) {
    exists r :: r in records && Truthy(r.pdbGuid) && Upper(r.pdbGuid.value) == k
  }

  lemma MentionsOneMore(records: seq<AliasRecord>, k: string)
    requires records != []
    ensures var n := |records| - 1;
            Mentions(records, k)
            <==> Mentions(records[..n], k) || (Truthy(records[n].pdbGuid) && Upper(records[n].pdbGuid.value) == k)
  {
    var n := |records| - 1;
    assert records == records[..n] + [records[n]];
    if Mentions(records[..n], k) {
      var r :| r in records[..n] && Truthy(r.pdbGuid) && Upper(r.pdbGuid.value) == k;
      assert r in records;
    }
    if Truthy(records[n].pdbGuid) && Upper(records[n].pdbGuid.value) == k {
      assert records[n] in records;
    }
  }

  lemma InjectGet(m: Dict<string>, r: AliasRecord, k: string)
    requires IsDict(m) && UpperKeys(m)
    ensures IsDict(Inject(m, r)) && UpperKeys(Inject(m, r))
    ensures Get(Inject(m, r), k) ==
            if HasKey(m, k) then Get(m, k)
            else if Truthy(r.pdbGuid) && Upper(r.pdbGuid.value) == k then Some(Placeholder(k)) else None
  {
    if Truthy(r.pdbGuid) {
      var key := Upper(r.pdbGuid.value);
      UpperTwice(r.pdbGuid.value);
      SetDefaultGet(m, key, Placeholder(key), k);
      SetDefaultIsDict(m, key, Placeholder(key));
    }
  }

  /** Known GUIDs keep their PDB, the others that a record mentions get their placeholder, nothing else is added. */
  lemma {:induction false} EmitMapExact(guidPdbMap: Dict<string>, records: seq<AliasRecord>, k: string)
    requires IsDict(guidPdbMap) && UpperKeys(guidPdbMap)
    ensures IsDict(EmitMap(guidPdbMap, records)) && UpperKeys(EmitMap(guidPdbMap, records))
    ensures Get(EmitMap(guidPdbMap, records), k) ==
            if HasKey(guidPdbMap, k) then Get(guidPdbMap, k)
            else if Mentions(records, k) then Some(Placeholder(k)) else None
  {
    if records != [] {
      var n := |records| - 1;
      EmitMapExact(guidPdbMap, records[..n], k);
      InjectGet(EmitMap(guidPdbMap, records[..n]), records[n], k);
      MentionsOneMore(records, k);
    }
  }

  function ScanPolicy(dest: string, online: bool, guidPdbMap: Dict<string>, records: seq<AliasRecord>): MovePolicy {
    MovePolicy(dest, EmitMap(guidPdbMap, records), false, online, None, None, None)
  }

  /** After injection nothing is unmapped: even the strict emitter would accept the records. */
  lemma InjectionMapsEverything(dest: string, online: bool, guidPdbMap: Dict<string>, records: seq<AliasRecord>)
    requires IsDict(guidPdbMap) && UpperKeys(guidPdbMap)
    ensures FindUnmapped(ScanPolicy(dest, online, guidPdbMap, records), records) == []
  {
    var policy := ScanPolicy(dest, online, guidPdbMap, records);
    FindUnmappedExact(policy, records);
    HeadMember(FindUnmapped(policy, records));
    forall g ensures !IsUnmapped(policy, records, g) {
      EmitMapExact(guidPdbMap, records, g);
      if Mentions(records, g) {
        assert HasKey(policy.pdbGuidMap, g);
        var i :| 0 <= i < |policy.pdbGuidMap| && policy.pdbGuidMap[i].0 == g;
        assert IsUpper(policy.pdbGuidMap[i].0);
      }
    }
  }

  /** The container the emitter selects for a record with an upper-case GUID under the injected map. */
  lemma InjectedLabel(dest: string, online: bool, guidPdbMap: Dict<string>, records: seq<AliasRecord>, r: AliasRecord)
    requires IsDict(guidPdbMap) && UpperKeys(guidPdbMap)
    requires r in records && UpperGuid(r)
    ensures PolicyLabel(ScanPolicy(dest, online, guidPdbMap, records), r) == ContainerOf(guidPdbMap, r.pdbGuid)
  {
    if Truthy(r.pdbGuid) {
      var g := r.pdbGuid.value;
      EmitMapExact(guidPdbMap, records, g);
      UpperKeyedIsGet(EmitMap(guidPdbMap, records), g);
      assert Mentions(records, g);
    }
  }

  // ---------------------------------------------------------------- rows agree with the script

  lemma EnrichedGuidUpper(catalog: Catalog, alias: AliasRecord)
    requires UpperGuid(alias)
    ensures UpperGuid(WalkedRecord(catalog, alias))
  {
    PathGuidIsUpper(EnrichedSource(catalog, alias));
  }

  lemma FileRecordUpper(dest: string, info: FileInfo)
    ensures UpperGuid(FileRecord(dest, info))
  {
    PathGuidIsUpper(info.rawPath);
  }

  lemma EnrichedUpper(walked: seq<AliasRecord>, catalog: Catalog, dest: string)
    requires UpperGuids(walked)
    ensures UpperGuids(EnrichedRecords(walked, catalog, dest))
  {
    var first, files := WalkedRecords(walked, catalog), StandaloneFiles(walked, catalog);
    var second := FileRecords(files, dest);
    forall i | 0 <= i < |first| ensures UpperGuid(first[i]) {
      assert walked[i] in walked;
      EnrichedGuidUpper(catalog, walked[i]);
    }
    forall j | 0 <= j < |second| ensures UpperGuid(second[j]) {
      FileRecordUpper(dest, files[j].1);
    }
  }

  // ---------------------------------------------------------------- the whole scan

  function NormalizeDestination(value: string): Option<string> {
    var text := Strip(value);
    if text == "" then None
    else
      var name := RStripSlashes(Split(if StartsWith(text, "+") then text[1..] else text, '/')[0]);
      if name == "" then None else Some("+" + Upper(name))
  }

  /** Moves go to the disk group that the destination text names, spelled with a plus sign in upper case. */
  ghost predicate GoesTo(text: string, destination: string) {
    exists name :: NamesGroup(text, name) && name != "" && destination == "+" + Upper(name)
  }

  lemma SlashFreeEnd(name: string)
    requires '/' !in name
    ensures RStripSlashes(name) == name
  {
    SlashFreeStays(name);
  }

  /** A destination is usable exactly when it names a disk group. */
  lemma DestinationExact(value: string)
    ensures forall d :: NormalizeDestination(value) == Some(d) <==> GoesTo(value, d)
    ensures NormalizeDestination(value) == None <==> forall name :: NamesGroup(value, name) ==> name == ""
  {
    var text := Strip(value);
    var body := if StartsWith(text, "+") then text[1..] else text;
    var name := Split(body, '/')[0];
    GroupNamed(value);
    var rest := FirstPartIsPrefix(body, '/');
    SlashFreeEnd(name);
    assert NamesGroup(value, name);
  }

  datatype ScanError = HostFailed | BadDestination | ScopeFailed(error: ScopeError) | AllPathsFailed(paths: seq<string>)

  /** What connecting and discovery report of the host. */
  datatype Host = Host(diskGroups: seq<string>, databases: seq<DatabaseDetails>)

  /** Scripts per database, or none when there was nothing to move. */
  datatype ScanResult = ScanResult(records: seq<AliasRecord>, scripts: Option<Scripts>)

  /** The aliases a scan works with: none when the scope resolves to no path. */
  function ScanWalked(matcher: RowMatcher, walk: PathWalk, paths: Result<seq<string>, ScopeError>): seq<AliasRecord> {
    match paths
    case Ok(ps) => Dedup(AliasKey, Flatten(Map(AliasesOf(matcher), Walked(walk, ps))))
    case Err(_) => []
  }

  function DatabaseName(db: DatabaseDetails): string {
    db.name
  }

  function ScanScope(host: Host): ScopeConfig {
    ScopeConfig(host.diskGroups, Map(DatabaseName, host.databases), [], [], None)
  }

  /** A scan's scope excludes no path. */
  const NoGlob: Glob := (path: string, pattern: string) => false

  function ScanPaths(host: Host, listing: GroupListing): Result<seq<string>, ScopeError> {
    Resolved(NoGlob, ScanScope(host), {}, Asked(Some(listing), 0), None)
  }

  /** A record as the program makes it: from a walked alias, or from a catalog file. */
  ghost predicate MadeIn(walked: seq<AliasRecord>, dbs: seq<DatabaseDetails>, destination: string, r: AliasRecord) {
    || (exists alias :: alias in walked && MadeOfAlias(CatalogOf(dbs), alias, r))
    || MadeOfSomeFile(CatalogOf(dbs), destination, r)
  }

  /** A move of a scan: of a record that the scan made, with that record's type and source, to the disk group that the
      destination text names, in the mode asked for. */
  ghost predicate ScanMove(walked: seq<AliasRecord>, dbs: seq<DatabaseDetails>, destination: string, online: bool,
                           m: Executed)
  {
    && (exists r :: MadeIn(walked, dbs, destination, r) && m.kind == r.fileType && m.source == r.sourcePath)
    && m.online == online && GoesTo(destination, m.destination)
  }

  lemma RecordMadeIn(walked: seq<AliasRecord>, dbs: seq<DatabaseDetails>, destination: string, r: AliasRecord)
    requires r in EnrichedRecords(walked, CatalogOf(dbs), destination)
    ensures MadeIn(walked, dbs, destination, r)
  {
    var records := EnrichedRecords(walked, CatalogOf(dbs), destination);
    var i :| 0 <= i < |records| && records[i] == r;
    DetailsWellFormed(dbs);
    EnrichedExactly(walked, CatalogOf(dbs), destination, i);
    if i < |walked| { assert walked[i] in walked; }
  }

  /** Whatever the scripts of a scan execute is such a move. */
  lemma ScriptsMakeScanMoves(walked: seq<AliasRecord>, dbs: seq<DatabaseDetails>, destination: string, dest: string,
                             online: bool, records: seq<AliasRecord>, m: Executed)
    requires NormalizeDestination(destination) == Some(dest)
    requires records == EnrichedRecords(walked, CatalogOf(dbs), destination)
    requires var policy := ScanPolicy(dest, online, GuidPdbMapOf(dbs), records);
             ByDatabase(policy, records, false).Ok? && m in RunAll(ByDatabase(policy, records, false).value)
    ensures ScanMove(walked, dbs, destination, online, m)
  {
    var policy := ScanPolicy(dest, online, GuidPdbMapOf(dbs), records);
    var r := MoveOfRecord(policy, records, false, m);
    RecordMadeIn(walked, dbs, destination, r);
    DestinationExact(destination);
  }

  /** Why walking the scope fails; a scope that merely resolves to no path does not make it fail. */
  function ScopeFailure(walk: PathWalk, paths: Result<seq<string>, ScopeError>): Option<ScanError> {
    match paths
    case Err(e) => if e.NoPort? || e.ListingFailed? then Some(ScopeFailed(e)) else None
    case Ok(ps) =>
      if ps != [] && |FailedPaths(walk, ps)| == |ps| then Some(AllPathsFailed(FailedPaths(walk, ps))) else None
  }

  /** Walking fails altogether when there are paths and every single one fails. */
  lemma AllFailExactly(walk: PathWalk, paths: seq<string>)
    ensures ScopeFailure(walk, Ok(paths)).Some? <==> paths != [] && forall p :: p in paths ==> walk(p).None?
    ensures ScopeFailure(walk, Ok(paths)).Some? ==> ScopeFailure(walk, Ok(paths)).value == AllPathsFailed(paths)
  {
    FilterDropsNothing(Fails(walk), paths);
  }

  function ScanFails(walk: PathWalk, host: Option<Host>, listing: GroupListing, destination: string)
    : Option<ScanError>
  {
    if host.None? then Some(HostFailed)
    else if NormalizeDestination(destination).None? then Some(BadDestination)
    else ScopeFailure(walk, ScanPaths(host.value, listing))
  }

  lemma LenientNeverFails(policy: MovePolicy, records: seq<AliasRecord>)
    ensures ByDatabase(policy, records, false).Ok?
  {
    SplitRaisesExactlyWhenWholeDoes(policy, records, false);
  }

  /** `_walk_asm_aliases`: the aliases of the scope's paths. */
  method WalkScope(matcher: RowMatcher, walk: PathWalk, host: Host, listing: GroupListing)
    returns (r: Result<seq<AliasRecord>, ScanError>)
    ensures var paths := ScanPaths(host, listing);
            r == match ScopeFailure(walk, paths)
                 case Some(e) => Err(e)
                 case None => Ok(ScanWalked(matcher, walk, paths))
  {
    var resolver := new WalkScopeResolver(ScanScope(host), {}, Some(listing));
    var paths := resolver.ResolvePaths(NoGlob, None);
    if paths.Err? {
      return if paths.error.NoPort? || paths.error.ListingFailed? then Err(ScopeFailed(paths.error)) else Ok([]);
    }
    var outcome := WalkAsmAliases(matcher, walk, paths.value);
    if outcome.pathsAttempted > 0 && |outcome.failedPaths| == outcome.pathsAttempted {
      return Err(AllPathsFailed(outcome.failedPaths));
    }
    r := Ok(outcome.records);
  }

  method RunScan(session: Session, matcher: RowMatcher, walk: PathWalk, host: Option<Host>, listing: GroupListing,
                 destination: string, online: bool)
    returns (r: Result<ScanResult, ScanError>)
    modifies session
    ensures var failure := ScanFails(walk, host, listing, destination);
            && (failure.Some? ==> r == Err(failure.value) && session.added == old(session.added))
            && (failure.None? ==>
                 var dbs := host.value.databases;
                 var walked := ScanWalked(matcher, walk, ScanPaths(host.value, listing));
                 var records := EnrichedRecords(walked, CatalogOf(dbs), destination);
                 && r.Ok? && r.value.records == records
                 && session.added
                    == old(session.added) + EnrichedRows(walked, CatalogOf(dbs), GuidPdbMapOf(dbs), destination)
                 && (records == [] ==> r.value.scripts == None)
                 && (records != [] ==>
                      var policy := ScanPolicy(NormalizeDestination(destination).value, online, GuidPdbMapOf(dbs),
                                               records);
                      ByDatabase(policy, records, false).Ok?
                        && r.value.scripts == Some(ByDatabase(policy, records, false).value)))
    ensures r == Err(BadDestination) <==> host.Some? && forall name :: NamesGroup(destination, name) ==> name == ""
    ensures (exists paths :: r == Err(AllPathsFailed(paths))) <==>
              && host.Some? && (exists name :: NamesGroup(destination, name) && name != "")
              && ScanPaths(host.value, listing).Ok? && ScanPaths(host.value, listing).value != []
              && forall p :: p in ScanPaths(host.value, listing).value ==> walk(p).None?
    ensures r.Ok? && r.value.scripts.Some? ==>
              forall m :: m in RunAll(r.value.scripts.value) ==>
                ScanMove(ScanWalked(matcher, walk, ScanPaths(host.value, listing)), host.value.databases, destination,
                         online, m)
  {
    DestinationExact(destination);
    if host.None? { return Err(HostFailed); }
    if ScanPaths(host.value, listing).Ok? { AllFailExactly(walk, ScanPaths(host.value, listing).value); }
    var catalog, guidPdbMap := CollectDetails(host.value.databases);
    var dest := NormalizeDestination(destination);
    if dest.None? { return Err(BadDestination); }
    var walked := WalkScope(matcher, walk, host.value, listing);
    if walked.Err? { return Err(walked.error); }
    var records := EnrichAndPersist(session, walked.value, catalog, guidPdbMap, destination);
    if records == [] { return Ok(ScanResult(records, None)); }
    var emitMap := BuildEmitMap(guidPdbMap, records);
    var policy := MovePolicy(dest.value, emitMap, false, online, None, None, None);
    LenientNeverFails(policy, records);
    var scripts := EmitByDatabase(policy, records, false);
    forall m | m in RunAll(scripts.value) ensures ScanMove(walked.value, host.value.databases, destination, online, m) {
      ScriptsMakeScanMoves(walked.value, host.value.databases, destination, dest.value, online, records, m);
    }
    r := Ok(ScanResult(records, Some(scripts.value)));
  }

  ghost predicate NoPdbCalledSentinel(dbs: seq<DatabaseDetails>) {
    forall db, pdb :: db in dbs && pdb in db.pdbs ==> pdb.0 != SENTINEL
  }

  lemma EmitMapAvoidsSentinel(dbs: seq<DatabaseDetails>, records: seq<AliasRecord>, dest: string, online: bool)
    requires NoPdbCalledSentinel(dbs)
    ensures NoPdbNamedSentinel(ScanPolicy(dest, online, GuidPdbMapOf(dbs), records))
  {
    var m, e := GuidPdbMapOf(dbs), EmitMap(GuidPdbMapOf(dbs), records);
    DetailsWellFormed(dbs);
    EmitMapExact(m, records, "");
    forall i | 0 <= i < |e| ensures e[i].1 != SENTINEL {
      GetAt(e, i);
      EmitMapExact(m, records, e[i].0);
      if HasKey(m, e[i].0) {
        LastValueIsAnItem(PdbItems(dbs), e[i].0);
        PdbItemsUpper(dbs);
        var db, pdb :| db in dbs && pdb in db.pdbs && e[i] == PdbItem(pdb);
      } else {
        assert Placeholder(e[i].0)[0] == 'P';
      }
    }
  }

  /** End to end: the scripts of a scan together perform exactly one move per enriched record, each in the
      container of its GUID under the discovered map, or the GUID's placeholder, or the root. */
  lemma ScanMovesEveryRecordOnce(matcher: RowMatcher, walk: PathWalk, paths: Result<seq<string>, ScopeError>,
                                 dbs: seq<DatabaseDetails>, raw: string, dest: string, online: bool)
    requires NoPdbCalledSentinel(dbs)
    ensures var records := EnrichedRecords(ScanWalked(matcher, walk, paths), CatalogOf(dbs), raw);
            var policy := ScanPolicy(dest, online, GuidPdbMapOf(dbs), records);
            && ByDatabase(policy, records, true).Ok? && ByDatabase(policy, records, false).Ok?
            && multiset(RunAll(ByDatabase(policy, records, false).value))
               == multiset(LabelledMoves(policy, SortAliasRecords(records)))
            && multiset(SortAliasRecords(records)) == multiset(records)
            && forall r :: r in records ==> PolicyLabel(policy, r) == ContainerOf(GuidPdbMapOf(dbs), r.pdbGuid)
  {
    var walked := ScanWalked(matcher, walk, paths);
    var records := EnrichedRecords(walked, CatalogOf(dbs), raw);
    var policy := ScanPolicy(dest, online, GuidPdbMapOf(dbs), records);
    if paths.Ok? { WalkedGuidsAreUpper(matcher, Walked(walk, paths.value)); }
    DetailsWellFormed(dbs);
    EnrichedUpper(walked, CatalogOf(dbs), raw);
    InjectionMapsEverything(dest, online, GuidPdbMapOf(dbs), records);
    SplitRaisesExactlyWhenWholeDoes(policy, records, true);
    LenientNeverFails(policy, records);
    EmitMapAvoidsSentinel(dbs, records, dest, online);
    ScriptsAreProjections(policy, records, false);
    ScriptsConserveMoves(policy, records, false);
    SortContents(SortKey, records);
    forall r | r in records
      ensures PolicyLabel(policy, r) == ContainerOf(GuidPdbMapOf(dbs), r.pdbGuid)
    {
      InjectedLabel(dest, online, GuidPdbMapOf(dbs), records, r);
    }
  }

  // ---------------------------------------------------------------- how often the scripts move a file

  function FileOfMove(m: Executed): Key {
    [NormPath(m.source)]
  }

  function FileOfRecord(r: AliasRecord): Key {
    [NormPath(r.sourcePath)]
  }

  lemma MovesDistinctLikeRecords(policy: MovePolicy, rs: seq<AliasRecord>)
    ensures DistinctKeys(FileOfMove, LabelledMoves(policy, rs)) <==> DistinctKeys(FileOfRecord, rs)
  {
    var moves := LabelledMoves(policy, rs);
    assert forall i :: 0 <= i < |rs| ==> FileOfMove(moves[i]) == FileOfRecord(rs[i]);
  }

  lemma RecordsDistinctLikeKeys(rs: seq<AliasRecord>)
    ensures DistinctKeys(FileOfRecord, rs) <==> Distinct(SourceKeys(rs))
  {
    var keys := SourceKeys(rs);
    assert forall i :: 0 <= i < |rs| ==> FileOfRecord(rs[i]) == [keys[i]];
    if DistinctKeys(FileOfRecord, rs) {
      forall i, j | 0 <= i < j < |keys| ensures keys[i] != keys[j] {
        assert FileOfRecord(rs[i]) != FileOfRecord(rs[j]);
      }
    }
    if Distinct(keys) {
      forall i, j | 0 <= i < j < |rs| ensures FileOfRecord(rs[i]) != FileOfRecord(rs[j]) {
        assert FileOfRecord(rs[i])[0] != FileOfRecord(rs[j])[0];
      }
    }
  }

  lemma PermutedDistinct<T>(key: T -> Key, xs: seq<T>, ys: seq<T>)
    requires multiset(xs) == multiset(ys)
    ensures DistinctKeys(key, xs) <==> DistinctKeys(key, ys)
  {
    if DistinctKeys(key, xs) { DistinctKeysOfPermutation(key, xs, ys); }
    if DistinctKeys(key, ys) { DistinctKeysOfPermutation(key, ys, xs); }
  }

  /** End to end: the scripts of a scan move no file twice, up to case and outer space, if and only if no two walked
      aliases stand for the same file. */
  lemma ScanMovesEachFileOnceExactly(matcher: RowMatcher, walk: PathWalk, paths: Result<seq<string>, ScopeError>,
                                     dbs: seq<DatabaseDetails>, raw: string, dest: string, online: bool)
    requires NoPdbCalledSentinel(dbs)
    ensures var walked := ScanWalked(matcher, walk, paths);
            var records := EnrichedRecords(walked, CatalogOf(dbs), raw);
            var scripts := ByDatabase(ScanPolicy(dest, online, GuidPdbMapOf(dbs), records), records, false);
            scripts.Ok? && (DistinctKeys(FileOfMove, RunAll(scripts.value)) <==> DifferentFiles(walked, CatalogOf(dbs)))
  {
    var walked := ScanWalked(matcher, walk, paths);
    var records := EnrichedRecords(walked, CatalogOf(dbs), raw);
    var policy := ScanPolicy(dest, online, GuidPdbMapOf(dbs), records);
    var sorted := SortAliasRecords(records);
    ScanMovesEveryRecordOnce(matcher, walk, paths, dbs, raw, dest, online);
    PermutedDistinct(FileOfMove, RunAll(ByDatabase(policy, records, false).value), LabelledMoves(policy, sorted));
    MovesDistinctLikeRecords(policy, sorted);
    PermutedDistinct(FileOfRecord, sorted, records);
    RecordsDistinctLikeKeys(records);
    DetailsWellFormed(dbs);
    SourcesDistinctExactly(walked, CatalogOf(dbs), raw);
  }
}
