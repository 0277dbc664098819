/** From scope to record to script: the database and the disk group of an alias are those of the walk root under which
    it was found, and that database's script moves it. Joins scope expansion, the walker, the listing parser, the
    path helpers and the scan. */
module Attribution {
  import opened Wrappers
  import opened Sequences
  import opened Text
  import opened AliasRecords
  import opened Paths
  import opened Transcript
  import opened Traversal
  import opened Walker
  import opened Inventories
  import opened FirstOccurrence
  import opened Ordering
  import opened MoveSql
  import opened ScriptsByDatabase
  import opened Scope
  import opened PathWalks
  import opened Enrichment
  import opened Scan

  /** A database name that a path segment can be recognised by. */
  predicate PlainDatabase(db: string) {
    db != "" && Trimmed(db) && '/' !in db && !HasFileSuffix(db) && !IsTypeSegment(db) && !MatchesGuid(db)
  }

  /** A normalized disk group without slashes or outer spaces. */
  predicate PlainGroup(dg: string) {
    StartsWith(dg, "+") && '/' !in dg && IsUpper(dg) && Trimmed(dg)
  }

  /** A disk group is plain as soon as normalizing leaves no space at its end. */
  lemma NormalizedGroupIsPlain(dg: string)
    ensures PlainGroup(NormalizeDiskGroupToken(dg)) <==> Trimmed(NormalizeDiskGroupToken(dg))
  {
    var token := Strip(dg);
    var plus := RStripSlashes(if StartsWith(token, "+") then token else "+" + token);
    var parts := Split(Tail(plus), '/');
    SplitParts(Tail(plus), '/');
    assert parts[0] in parts;
    UpperKeepsSlashFree(parts[0]);
    UpperTwice(parts[0]);
    CaseConcat("+", Upper(parts[0]));
    assert Upper("+") == "+";
  }

  /** The root of a plain pair is spelled as it is walked. */
  lemma PlainWalkRoot(dg: string, db: string)
    requires PlainGroup(NormalizeDiskGroupToken(dg)) && PlainDatabase(db)
    ensures WalkRoot(dg, db) == NormalizeDiskGroupToken(dg) + "/" + db
  {
    var ndg := NormalizeDiskGroupToken(dg);
    var path := ndg + "/" + db;
    assert Join('/', [ndg, db]) == ndg + ['/'] + Join('/', [ndg, db][1..]);
    assert [ndg, db][1..] == [db];
    SplitJoin([ndg, db], '/');
    assert Split(path, '/') == [ndg, db];
    assert UpperAllButLast([ndg, db]) == [ndg, db];
  }

  // ---------------------------------------------------------------- segments of a path below the root

  predicate NoDoubleSlash(s: string) {
    forall i :: 0 < i < |s| ==> !(s[i - 1] == '/' && s[i] == '/')
  }

  lemma {:induction false} MergeKeepsCleanPrefix(a: string, b: string)
    requires NoDoubleSlash(a) && (a != [] ==> a[|a| - 1] != '/')
    ensures MergeSlashes(a + b) == a + MergeSlashes(b)
  {
    if a == [] {
      assert a + b == b;
    } else {
      assert (a + b)[0] == a[0] && (a + b)[1..] == a[1..] + b;
      if |a| > 1 {
        assert (a + b)[1] == a[1] && a[1 - 1] == a[0];
        forall i | 0 < i < |a[1..]| ensures !(a[1..][i - 1] == '/' && a[1..][i] == '/') {
          assert a[1..][i] == a[i + 1] && a[1..][i - 1] == a[i + 1 - 1];
        }
      }
      MergeKeepsCleanPrefix(a[1..], b);
      assert [a[0]] + (a[1..] + MergeSlashes(b)) == a + MergeSlashes(b);
    }
  }

  lemma MergedStartsWithSlash(t: string)
    ensures MergeSlashes("/" + t) != [] && MergeSlashes("/" + t)[0] == '/'
  {
  }

  /** The root itself, or something below it. */
  predicate AtOrBelow(root: string, s: string) {
    root <= s && (|s| == |root| || s[|root|] == '/')
  }

  lemma {:induction false} RStripStaysBelow(root: string, s: string)
    requires root != [] && root[|root| - 1] != '/' && AtOrBelow(root, s)
    ensures AtOrBelow(root, RStripSlashes(s))
    decreases |s|
  {
    if s[|s| - 1] == '/' {
      assert |s| > |root|;
      RStripStaysBelow(root, s[..|s| - 1]);
    }
  }

  lemma JoinStaysBelow(root: string, s: string, filename: string) returns (t: string)
    requires AtOrBelow(root, s)
    ensures s + "/" + filename == root + ("/" + t)
  {
    if |s| == |root| {
      t := filename;
      assert s == root;
    } else {
      t := s[|root| + 1..] + "/" + filename;
      assert s == root + "/" + s[|root| + 1..];
    }
  }

  /** What is below a clean root stays below it when the listing parser builds the source path. */
  lemma SourceBelowRoot(root: string, base: string, filename: string) returns (rest: string)
    requires root != [] && root[|root| - 1] != '/' && NoDoubleSlash(root) && AtOrBelow(root, base)
    ensures MergeSlashes(RStripSlashes(RStripSlashes(base)) + "/" + filename) == root + "/" + rest
  {
    RStripStaysBelow(root, base);
    RStripStaysBelow(root, RStripSlashes(base));
    var t := JoinStaysBelow(root, RStripSlashes(RStripSlashes(base)), filename);
    MergeKeepsCleanPrefix(root, "/" + t);
    MergedStartsWithSlash(t);
    rest := MergeSlashes("/" + t)[1..];
    assert MergeSlashes("/" + t) == "/" + rest;
    Associative(root, "/", rest);
  }

  lemma NoSlashNoDouble(ndg: string, db: string)
    requires '/' !in ndg && '/' !in db
    ensures NoDoubleSlash(ndg + "/" + db)
  {
    var root := ndg + "/" + db;
    forall i | 0 < i < |root| ensures !(root[i - 1] == '/' && root[i] == '/') {
      if i <= |ndg| {
        assert root[i - 1] == ndg[i - 1] && ndg[i - 1] in ndg;
      } else {
        assert root[i] == db[i - |ndg| - 1] && db[i - |ndg| - 1] in db;
      }
    }
  }

  lemma RootSegments(ndg: string, db: string)
    requires PlainGroup(ndg) && PlainDatabase(db)
    ensures Split(ndg + "/" + db, '/') == [ndg, db]
  {
    SplitConcat(ndg, db, '/');
    SplitWithout(ndg, '/');
    SplitWithout(db, '/');
  }

  lemma RootParts(ndg: string, db: string)
    requires PlainGroup(ndg) && PlainDatabase(db)
    ensures var root := ndg + "/" + db;
            root != [] && root[|root| - 1] != '/' && NoDoubleSlash(root)
  {
    var root := ndg + "/" + db;
    NoSlashNoDouble(ndg, db);
    assert root[|root| - 1] == db[|db| - 1] && db[|db| - 1] in db;
  }

  lemma SourceSegments(ndg: string, db: string, rest: string)
    requires PlainGroup(ndg) && PlainDatabase(db)
    ensures Segments(ndg + "/" + db + "/" + rest) == [ndg, db] + Filter(NonBlank, Split(rest, '/'))
  {
    RootSegments(ndg, db);
    SplitConcat(ndg + "/" + db, rest, '/');
    FilterConcat(NonBlank, [ndg, db], Split(rest, '/'));
    FilterAll(NonBlank, [ndg, db]);
  }

  lemma DatabaseOfSource(ndg: string, db: string, rest: string)
    requires PlainGroup(ndg) && PlainDatabase(db)
    ensures DatabaseNameFromPath(ndg + "/" + db + "/" + rest) == Some(db)
  {
    SourceSegments(ndg, db, rest);
  }

  /** Trimming a path that starts with a plain group leaves the group as its first segment. */
  lemma FirstSegmentSurvives(ndg: string, rest: string)
    requires PlainGroup(ndg)
    ensures StartsWith(Strip(ndg + "/" + rest), "+")
    ensures Split(Strip(ndg + "/" + rest), '/')[0] == ndg
  {
    var whole := ndg + "/" + rest;
    assert whole[0] == '+' && LStrip(whole) == whole;
    RStripParts(whole);
    assert whole[|ndg|] == '/';
    RStripStops(whole, |ndg|);
    var kept := RStrip(whole)[|ndg| + 1..];
    assert RStrip(whole) == ndg + ['/'] + kept;
    SplitConcat(ndg, kept, '/');
    SplitWithout(ndg, '/');
  }

  lemma NoSlashToStrip(s: string)
    requires '/' !in s
    ensures RStripSlashes(s) == s
  {
    if s != [] { assert s[|s| - 1] in s; }
  }

  lemma DiskGroupOfSource(ndg: string, rest: string)
    requires PlainGroup(ndg)
    ensures DiskGroupFromAsmPath(ndg + "/" + rest) == ndg
  {
    FirstSegmentSurvives(ndg, rest);
    StripTrimmed(ndg);
    var name := ndg[1..];
    assert forall c :: c in name ==> c in ndg;
    NoSlashToStrip(name);
    SplitWithout(name, '/');
    assert ndg == ['+'] + name;
    assert Upper(ndg)[1..] == Upper(name);
  }

  // ---------------------------------------------------------------- attribution

  predicate Attributed(ndg: string, db: string, r: AliasRecord) {
    r.databaseName == Some(db) && r.diskGroup == ndg && (ndg + "/" + db + "/") <= r.sourcePath
  }

  lemma Reassociate(a: string, b: string, c: string)
    ensures a + "/" + b + "/" + c == a + "/" + (b + "/" + c)
  {
  }

  lemma SourceNamesRoot(ndg: string, db: string, rest: string, source: string)
    requires PlainGroup(ndg) && PlainDatabase(db)
    requires source == ndg + "/" + db + "/" + rest
    ensures DatabaseNameFromPath(source) == Some(db) && DiskGroupFromAsmPath(source) == ndg
    ensures (ndg + "/" + db + "/") <= source
  {
    DatabaseOfSource(ndg, db, rest);
    Reassociate(ndg, db, rest);
    DiskGroupOfSource(ndg, db + "/" + rest);
  }

  lemma AttributedBySource(ndg: string, db: string, rest: string, other: Option<string>, r: AliasRecord)
    requires PlainGroup(ndg) && PlainDatabase(db)
    requires r.sourcePath == ndg + "/" + db + "/" + rest
    requires r.databaseName == Either(DatabaseNameFromPath(r.sourcePath), other)
    requires r.diskGroup == DiskGroupFromAsmPath(r.sourcePath)
    ensures Attributed(ndg, db, r)
  {
    SourceNamesRoot(ndg, db, rest, r.sourcePath);
  }

  lemma ListingLineParts(matcher: RowMatcher, base: string, row: string)
    requires FromListingLine(matcher, base, row).Some?
    ensures var m, r := matcher(Strip(row)), FromListingLine(matcher, base, row).value;
            && m.Some? && r.sourcePath == MergeSlashes(RStripSlashes(base) + "/" + m.value.filename)
            && r.databaseName == Either(DatabaseNameFromPath(r.sourcePath), DatabaseNameFromPath(Strip(m.value.target)))
            && r.diskGroup == DiskGroupFromAsmPath(r.sourcePath)
  {
  }

  lemma RowAttributed(matcher: RowMatcher, ndg: string, db: string, d: Listing, row: string)
    requires PlainGroup(ndg) && PlainDatabase(db) && AtOrBelow(ndg + "/" + db, d.path)
    ensures var r := FromListingLine(matcher, RStripSlashes(d.path), row);
            r.Some? ==> Attributed(ndg, db, r.value)
  {
    var r := FromListingLine(matcher, RStripSlashes(d.path), row);
    if r.Some? {
      var m := matcher(Strip(row)).value;
      ListingLineParts(matcher, RStripSlashes(d.path), row);
      RootParts(ndg, db);
      var rest := SourceBelowRoot(ndg + "/" + db, d.path, m.filename);
      AttributedBySource(ndg, db, rest, DatabaseNameFromPath(Strip(m.target)), r.value);
    }
  }

  ghost predicate AllAttributed(ndg: string, db: string, rs: seq<AliasRecord>) {
    forall r :: r in rs ==> Attributed(ndg, db, r)
  }

  lemma ListingsAttributed(matcher: RowMatcher, ndg: string, db: string, dirs: seq<Listing>)
    requires PlainGroup(ndg) && PlainDatabase(db)
    requires forall d :: d in dirs ==> AtOrBelow(ndg + "/" + db, d.path)
    ensures AllAttributed(ndg, db, RawAliases(matcher, dirs))
  {
    forall r | r in RawAliases(matcher, dirs) ensures Attributed(ndg, db, r) {
      RawAliasesExact(matcher, dirs, r);
      var d :| d in dirs && Yields(matcher, d, r);
      var row :| row in d.longLines && AliasIn(matcher, d)(row) == Some(r);
      RowAttributed(matcher, ndg, db, d, row);
    }
  }

  lemma RootIsWalkedAsIs(dg: string, db: string)
    requires PlainGroup(NormalizeDiskGroupToken(dg)) && PlainDatabase(db)
    ensures WalkedRoot(WalkRoot(dg, db)) == NormalizeDiskGroupToken(dg) + "/" + db
  {
    var ndg := NormalizeDiskGroupToken(dg);
    var root := ndg + "/" + db;
    PlainWalkRoot(dg, db);
    assert root[0] == ndg[0] && root[|root| - 1] == db[|db| - 1];
    StripTrimmed(root);
    NormalizeIdempotent(ndg + "/" + db);
  }

  lemma ListingsBelowRoot(port: Port, root: string, left: nat)
    ensures var inv := InventoryFrom(port, root, left);
            inv.Some? ==> forall d :: d in inv.value.directories ==> AtOrBelow(root, d.path)
  {
    var visits := PreOrder(AsmTree(port), root, 0, left);
    WalkStaysUnder(AsmTree(port), root, 0, left);
    forall d | d in Listings(visits) ensures AtOrBelow(root, d.path) {
      var i :| 0 <= i < |visits| && d == ListingOf(visits[i]);
      assert visits[i] in visits;
    }
  }

  lemma AliasesAttributed(matcher: RowMatcher, ndg: string, db: string, inv: Inventory)
    requires PlainGroup(ndg) && PlainDatabase(db)
    requires forall d :: d in inv.directories ==> AtOrBelow(ndg + "/" + db, d.path)
    ensures AllAttributed(ndg, db, Aliases(matcher, inv))
  {
    ListingsAttributed(matcher, ndg, db, inv.directories);
    DedupKeepsFirsts(AliasKey, RawAliases(matcher, inv.directories));
  }

  lemma InventoryAttributed(matcher: RowMatcher, port: Port, ndg: string, db: string, left: nat, inv: Option<Inventory>)
    requires PlainGroup(ndg) && PlainDatabase(db)
    requires inv == InventoryFrom(port, ndg + "/" + db, left)
    ensures inv.Some? ==> AllAttributed(ndg, db, Aliases(matcher, inv.value))
  {
    ListingsBelowRoot(port, ndg + "/" + db, left);
    if inv.Some? { AliasesAttributed(matcher, ndg, db, inv.value); }
  }

  /** Every alias extracted from a walk of the root of a disk group and a database names that database and
      that disk group, at any depth and for any rows. */
  lemma WalkedAliasesNameTheirRoot(matcher: RowMatcher, port: Port, dg: string, db: string, maxDepth: Option<int>,
                                   height: nat)
    requires Trimmed(NormalizeDiskGroupToken(dg)) && PlainDatabase(db)
    ensures var inv := WalkThrough(port, maxDepth, height)(WalkRoot(dg, db));
            inv.Some? ==> AllAttributed(NormalizeDiskGroupToken(dg), db, Aliases(matcher, inv.value))
  {
    NormalizedGroupIsPlain(dg);
    RootIsWalkedAsIs(dg, db);
    var inv := WalkThrough(port, maxDepth, height)(WalkRoot(dg, db));
    WalkThroughFrom(port, maxDepth, height, WalkRoot(dg, db), NormalizeDiskGroupToken(dg) + "/" + db);
    InventoryAttributed(matcher, port, NormalizeDiskGroupToken(dg), db, Levels(maxDepth, height), inv);
  }

  // ---------------------------------------------------------------- through the scan

  lemma {:induction false} FlatMember(rss: seq<seq<AliasRecord>>, r: AliasRecord) returns (i: nat)
    requires r in Flatten(rss)
    ensures i < |rss| && r in rss[i]
  {
    if r in rss[0] {
      i := 0;
    } else {
      i := FlatMember(rss[1..], r);
      i := i + 1;
    }
  }

  lemma ScannedFrom(matcher: RowMatcher, walk: PathWalk, paths: seq<string>, alias: AliasRecord) returns (p: string)
    requires alias in ScanWalked(matcher, walk, Ok(paths))
    ensures p in paths && walk(p).Some? && alias in Aliases(matcher, walk(p).value)
  {
    var walked := Walked(walk, paths);
    var rss := Map(AliasesOf(matcher), walked);
    DedupKeepsFirsts(AliasKey, Flatten(rss));
    var i := FlatMember(rss, alias);
    assert walked[i] in walked;
    CollectMembers(walk, paths, walked[i]);
    p :| p in paths && walk(p) == Some(walked[i]);
  }

  /** The disk groups that a scan walks: what discovery reported, else what the port lists. */
  function ScanGroups(host: Host, listing: GroupListing): seq<string> {
    match DiskGroups(ScanScope(host), Asked(Some(listing), 0)) case Ok(groups) => groups case Err(_) => []
  }

  function ScanDatabases(host: Host): seq<string> {
    Map(DatabaseName, host.databases)
  }

  lemma ScanPathIsRoot(host: Host, listing: GroupListing, p: string) returns (dg: string, db: string)
    requires ScanPaths(host, listing).Ok? && p in ScanPaths(host, listing).value
    ensures dg in ScanGroups(host, listing) && db in ScanDatabases(host) && p == WalkRoot(dg, db)
  {
    var groups, dbs := ScanGroups(host, listing), ScanDatabases(host);
    var scope := ScanScope(host);
    assert Strip("") == "";
    ResolvedExactly(NoGlob, scope, {}, Asked(Some(listing), 0), None);
    var kept := Databases(scope, {}).value;
    FilterMembers(NotExcludedDatabase(scope), dbs);
    var roots := AllRoots(groups, kept);
    var free := Filter(NotExcluded(NoGlob, scope), roots);
    FilterMembers(NotExcluded(NoGlob, scope), roots);
    DedupKeepsFirsts(Casefold, free);
    assert p in roots;
    RootsAreFixedPoints(groups, kept);
    dg, db :| dg in groups && db in kept && p == WalkRoot(dg, db);
  }

  ghost predicate PlainScan(host: Host, listing: GroupListing) {
    && (forall dg :: dg in ScanGroups(host, listing) ==> Trimmed(NormalizeDiskGroupToken(dg)))
    && (forall db :: db in ScanDatabases(host) ==> PlainDatabase(db))
  }

  lemma EmptyScanWalk(matcher: RowMatcher, walk: PathWalk, paths: Result<seq<string>, ScopeError>, alias: AliasRecord)
    requires alias in ScanWalked(matcher, walk, paths)
    ensures paths.Ok? && paths == Ok(paths.value)
  {
  }

  /** Every alias that a scan works with is attributed to one of the scan's disk groups and databases. */
  lemma ScannedAliasIsAttributed(matcher: RowMatcher, port: Port, height: nat, host: Host, listing: GroupListing,
                                 alias: AliasRecord)
    returns (dg: string, db: string)
    requires PlainScan(host, listing)
    requires alias in ScanWalked(matcher, WalkThrough(port, None, height), ScanPaths(host, listing))
    ensures dg in ScanGroups(host, listing) && db in ScanDatabases(host)
    ensures Attributed(NormalizeDiskGroupToken(dg), db, alias)
  {
    var walk, paths := WalkThrough(port, None, height), ScanPaths(host, listing);
    EmptyScanWalk(matcher, walk, paths, alias);
    var p := ScannedFrom(matcher, walk, paths.value, alias);
    dg, db := ScanPathIsRoot(host, listing, p);
    WalkedAliasesNameTheirRoot(matcher, port, dg, db, None, height);
  }

  /** The database that a walked alias is filed under: the one that reports its file, else the one whose root it was
      found under. */
  function FiledUnder(catalog: Catalog, db: string, alias: AliasRecord): string {
    match CatalogEntry(catalog, alias)
    case Some(info) => OrUnknown(Some(info.database))
    case None => db
  }

  lemma AttributedDatabase(catalog: Catalog, ndg: string, db: string, alias: AliasRecord)
    requires PlainGroup(ndg) && PlainDatabase(db) && Attributed(ndg, db, alias)
    ensures DatabaseOf(WalkedRecord(catalog, alias)) == FiledUnder(catalog, db, alias)
  {
    var root := ndg + "/" + db + "/";
    var rest := alias.sourcePath[|root|..];
    assert alias.sourcePath == root + rest;
    DatabaseOfSource(ndg, db, rest);
    WalkedRowDescribes(catalog, [], alias);
  }

  ghost predicate Moves(scripts: Scripts, name: string, m: Executed) {
    exists s :: s in scripts && s.0 == name && m in Run(s.1, CDB_ROOT)
  }

  lemma MoveInPart(policy: MovePolicy, ordered: seq<AliasRecord>, r: AliasRecord)
    requires r in ordered
    ensures ExecutedIn(policy, PolicyLabel(policy, r), r)
            in LabelledMoves(policy, Filter(InDatabase(DatabaseOf(r)), ordered))
  {
    FilterMembers(InDatabase(DatabaseOf(r)), ordered);
    var mine := Filter(InDatabase(DatabaseOf(r)), ordered);
    assert r in mine;
    var k :| 0 <= k < |mine| && mine[k] == r;
    assert LabelledMoves(policy, mine)[k] == ExecutedIn(policy, PolicyLabel(policy, r), r);
  }

  lemma RecordMovedByItsDatabase(policy: MovePolicy, records: seq<AliasRecord>, r: AliasRecord)
    requires NoPdbNamedSentinel(policy) && ByDatabase(policy, records, false).Ok? && r in records
    ensures Moves(ByDatabase(policy, records, false).value, DatabaseOf(r),
                  ExecutedIn(policy, PolicyLabel(policy, r), r))
  {
    var scripts, ordered := ByDatabase(policy, records, false).value, SortAliasRecords(records);
    ScriptsAreProjections(policy, records, false);
    SortMembers(SortKey, records);
    MoveInPart(policy, ordered, r);
    var i :| 0 <= i < |scripts| && scripts[i].0 == DatabaseOf(r);
    assert scripts[i] in scripts;
  }

  /** The scan's script of that name moves the record, in the container of its GUID. */
  ghost predicate ScanMoves(dbs: seq<DatabaseDetails>, records: seq<AliasRecord>, dest: string, online: bool,
                            name: string, r: AliasRecord)
  {
    var policy := ScanPolicy(dest, online, GuidPdbMapOf(dbs), records);
    ByDatabase(policy, records, false).Ok?
    && Moves(ByDatabase(policy, records, false).value, name,
             ExecutedIn(policy, ContainerOf(GuidPdbMapOf(dbs), r.pdbGuid), r))
  }

  /** Every enriched record of a scan is moved by its database's script, in the container of its GUID. */
  lemma ScanRecordMoved(matcher: RowMatcher, walk: PathWalk, paths: Result<seq<string>, ScopeError>,
                        dbs: seq<DatabaseDetails>, raw: string, dest: string, online: bool,
                        records: seq<AliasRecord>, r: AliasRecord)
    requires NoPdbCalledSentinel(dbs)
    requires records == EnrichedRecords(ScanWalked(matcher, walk, paths), CatalogOf(dbs), raw) && r in records
    ensures ScanMoves(dbs, records, dest, online, DatabaseOf(r), r)
  {
    ScanMovesEveryRecordOnce(matcher, walk, paths, dbs, raw, dest, online);
    EmitMapAvoidsSentinel(dbs, records, dest, online);
    RecordMovedByItsDatabase(ScanPolicy(dest, online, GuidPdbMapOf(dbs), records), records, r);
  }

  lemma WalkedRecordAmong(walked: seq<AliasRecord>, catalog: Catalog, raw: string, alias: AliasRecord)
    requires alias in walked
    ensures WalkedRecord(catalog, alias) in EnrichedRecords(walked, catalog, raw)
  {
    var i :| 0 <= i < |walked| && walked[i] == alias;
    assert EnrichedRecords(walked, catalog, raw)[i] == WalkedRecord(catalog, alias);
  }

  lemma ScannedAliasMoved(matcher: RowMatcher, walk: PathWalk, paths: Result<seq<string>, ScopeError>,
                          dbs: seq<DatabaseDetails>, raw: string, dest: string, online: bool,
                          walked: seq<AliasRecord>, alias: AliasRecord, name: string)
    requires NoPdbCalledSentinel(dbs) && walked == ScanWalked(matcher, walk, paths) && alias in walked
    requires DatabaseOf(WalkedRecord(CatalogOf(dbs), alias)) == name
    ensures ScanMoves(dbs, EnrichedRecords(walked, CatalogOf(dbs), raw), dest, online, name,
                      WalkedRecord(CatalogOf(dbs), alias))
  {
    WalkedRecordAmong(walked, CatalogOf(dbs), raw, alias);
    ScanRecordMoved(matcher, walk, paths, dbs, raw, dest, online,
                    EnrichedRecords(walked, CatalogOf(dbs), raw), WalkedRecord(CatalogOf(dbs), alias));
  }

  lemma ScannedAliasFiled(matcher: RowMatcher, port: Port, height: nat, host: Host, listing: GroupListing,
                          catalog: Catalog, alias: AliasRecord)
    returns (dg: string, db: string)
    requires PlainScan(host, listing)
    requires alias in ScanWalked(matcher, WalkThrough(port, None, height), ScanPaths(host, listing))
    ensures dg in ScanGroups(host, listing) && db in ScanDatabases(host)
            && Attributed(NormalizeDiskGroupToken(dg), db, alias)
    ensures DatabaseOf(WalkedRecord(catalog, alias)) == FiledUnder(catalog, db, alias)
  {
    dg, db := ScannedAliasIsAttributed(matcher, port, height, host, listing, alias);
    NormalizedGroupIsPlain(dg);
    AttributedDatabase(catalog, NormalizeDiskGroupToken(dg), db, alias);
  }

  /** End to end: every alias that a scan finds under the root of a database is moved by the script of that database,
      unless the catalog says that another database uses the file; then by that one's script. */
  lemma ScannedAliasMovedByItsDatabase(matcher: RowMatcher, port: Port, height: nat, host: Host, listing: GroupListing,
                                       raw: string, dest: string, online: bool, walked: seq<AliasRecord>,
                                       alias: AliasRecord)
    returns (dg: string, db: string)
    requires PlainScan(host, listing) && NoPdbCalledSentinel(host.databases)
    requires walked == ScanWalked(matcher, WalkThrough(port, None, height), ScanPaths(host, listing)) && alias in walked
    ensures dg in ScanGroups(host, listing) && db in ScanDatabases(host)
            && Attributed(NormalizeDiskGroupToken(dg), db, alias)
    ensures var catalog := CatalogOf(host.databases);
            ScanMoves(host.databases, EnrichedRecords(walked, catalog, raw), dest, online,
                      FiledUnder(catalog, db, alias), WalkedRecord(catalog, alias))
  {
    var catalog := CatalogOf(host.databases);
    dg, db := ScannedAliasFiled(matcher, port, height, host, listing, catalog, alias);
    ScannedAliasMoved(matcher, WalkThrough(port, None, height), ScanPaths(host, listing), host.databases, raw, dest,
                      online, walked, alias, FiledUnder(catalog, db, alias));
  }
}
