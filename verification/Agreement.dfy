/** Persisted rows against the script: in which container a row says its file lives, and in which container the
    scripts of the scan move it (asm_cleanup/services/alias_enrichment.py and asm_cleanup/services/scan_service.py). */
module Agreement {
  import opened Wrappers
  import opened Sequences
  import opened Text
  import opened Dicts
  import opened AliasRecords
  import opened Ordering
  import opened MoveSql
  import opened ScriptsByDatabase
  import opened Scope
  import opened Inventories
  import opened Enrichment
  import opened Scan

  // ---------------------------------------------------------------- row by row

  /** The row names the container that the emitter selects for the record. What is executed there is another matter
      when a PDB is named like the emitter's start marker. */
  predicate RowAgrees(row: ScanAlias, policy: MovePolicy, r: AliasRecord) {
    row.containerName == PolicyLabel(policy, r)
  }

  /** First loop: a GUID decides both sides; without one the emitter selects the root. */
  predicate AliasAgrees(catalog: Catalog, alias: AliasRecord) {
    Truthy(EnrichedGuid(catalog, alias)) || CatalogEntry(catalog, alias).None?
    || CatalogEntry(catalog, alias).value.conName == CDB_ROOT
  }

  /** Second loop: the row repeats the catalog, the emitter goes by the GUID in the path. */
  predicate FileAgrees(guidPdbMap: Dict<string>, info: FileInfo) {
    info.conName == ContainerOf(guidPdbMap, PdbGuidFromPath(info.rawPath))
  }

  lemma AliasContainer(catalog: Catalog, guidPdbMap: Dict<string>, alias: AliasRecord)
    requires UpperGuid(alias)
    ensures EnrichedContainer(catalog, guidPdbMap, alias) == ContainerOf(guidPdbMap, EnrichedGuid(catalog, alias))
            <==> AliasAgrees(catalog, alias)
  {
    EnrichedGuidUpper(catalog, alias);
  }

  /** For a walked alias: the persisted container is the one that the emitter selects if and only if the row
      carries a GUID, or the catalog does not know the file, or the catalog puts it in the root. */
  lemma WalkedRowAgreesExactly(walked: seq<AliasRecord>, catalog: Catalog, guidPdbMap: Dict<string>, raw: string,
                               dest: string, online: bool, i: nat)
    requires IsDict(guidPdbMap) && UpperKeys(guidPdbMap) && UpperGuids(walked) && i < |walked|
    ensures var records, rows := EnrichedRecords(walked, catalog, raw), EnrichedRows(walked, catalog, guidPdbMap, raw);
            RowAgrees(rows[i], ScanPolicy(dest, online, guidPdbMap, records), records[i])
            <==> AliasAgrees(catalog, walked[i])
  {
    var records := EnrichedRecords(walked, catalog, raw);
    EnrichedUpper(walked, catalog, raw);
    assert walked[i] in walked && records[i] in records;
    InjectedLabel(dest, online, guidPdbMap, records, records[i]);
    AliasContainer(catalog, guidPdbMap, walked[i]);
  }

  lemma StandaloneAtEnd(walked: seq<AliasRecord>, catalog: Catalog, guidPdbMap: Dict<string>, raw: string, j: nat)
    requires j < |StandaloneFiles(walked, catalog)|
    ensures var records, rows := EnrichedRecords(walked, catalog, raw), EnrichedRows(walked, catalog, guidPdbMap, raw);
            var info := StandaloneFiles(walked, catalog)[j].1;
            && |walked| + j < |records| && records[|walked| + j] == FileRecord(raw, info)
               && records[|walked| + j] in records
            && |walked| + j < |rows| && rows[|walked| + j] == FileRow(raw, info)
  {
  }

  /** For a standalone file: the two agree if and only if the catalog names the container that the GUID in the file's
      path stands for, or the root when there is none. */
  lemma StandaloneRowAgreesExactly(walked: seq<AliasRecord>, catalog: Catalog, guidPdbMap: Dict<string>, raw: string,
                                   dest: string, online: bool, j: nat)
    requires IsDict(guidPdbMap) && UpperKeys(guidPdbMap) && UpperGuids(walked) && j < |StandaloneFiles(walked, catalog)|
    ensures var records, rows := EnrichedRecords(walked, catalog, raw), EnrichedRows(walked, catalog, guidPdbMap, raw);
            RowAgrees(rows[|walked| + j], ScanPolicy(dest, online, guidPdbMap, records), records[|walked| + j])
            <==> FileAgrees(guidPdbMap, StandaloneFiles(walked, catalog)[j].1)
  {
    var records := EnrichedRecords(walked, catalog, raw);
    StandaloneAtEnd(walked, catalog, guidPdbMap, raw, j);
    EnrichedUpper(walked, catalog, raw);
    InjectedLabel(dest, online, guidPdbMap, records, records[|walked| + j]);
  }

  // ---------------------------------------------------------------- a whole scan

  ghost predicate AllRowsAgree(rows: seq<ScanAlias>, policy: MovePolicy, records: seq<AliasRecord>) {
    |rows| == |records| && forall i :: 0 <= i < |rows| ==> RowAgrees(rows[i], policy, records[i])
  }

  /** What would have to hold of the walked aliases and of what discovery reports. */
  ghost predicate HostAgrees(walked: seq<AliasRecord>, dbs: seq<DatabaseDetails>) {
    && (forall alias :: alias in walked ==> AliasAgrees(CatalogOf(dbs), alias))
    && (forall file :: file in StandaloneFiles(walked, CatalogOf(dbs)) ==> FileAgrees(GuidPdbMapOf(dbs), file.1))
  }

  lemma TwoPartsAgree(walked: seq<AliasRecord>, files: Catalog, rows: seq<ScanAlias>, policy: MovePolicy,
                      records: seq<AliasRecord>, catalog: Catalog, m: Dict<string>)
    requires |rows| == |records| == |walked| + |files|
    requires forall i :: 0 <= i < |walked| ==>
               (RowAgrees(rows[i], policy, records[i]) <==> AliasAgrees(catalog, walked[i]))
    requires forall j :: 0 <= j < |files| ==>
               (RowAgrees(rows[|walked| + j], policy, records[|walked| + j]) <==> FileAgrees(m, files[j].1))
    ensures AllRowsAgree(rows, policy, records) <==>
            (forall alias :: alias in walked ==> AliasAgrees(catalog, alias))
              && (forall file :: file in files ==> FileAgrees(m, file.1))
  {
    if AllRowsAgree(rows, policy, records) {
      forall i | 0 <= i < |walked| ensures AliasAgrees(catalog, walked[i]) {
        assert RowAgrees(rows[i], policy, records[i]);
      }
      forall j | 0 <= j < |files| ensures FileAgrees(m, files[j].1) {
        assert RowAgrees(rows[|walked| + j], policy, records[|walked| + j]);
      }
    }
    if (forall alias :: alias in walked ==> AliasAgrees(catalog, alias))
       && (forall file :: file in files ==> FileAgrees(m, file.1))
    {
      forall i | 0 <= i < |rows| ensures RowAgrees(rows[i], policy, records[i]) {
        if i < |walked| {
          assert walked[i] in walked;
        } else {
          var j := i - |walked|;
          assert files[j] in files && i == |walked| + j;
        }
      }
    }
  }

  lemma RowsAgreeExactly(walked: seq<AliasRecord>, dbs: seq<DatabaseDetails>, raw: string, dest: string, online: bool)
    requires UpperGuids(walked)
    ensures var records := EnrichedRecords(walked, CatalogOf(dbs), raw);
            var rows := EnrichedRows(walked, CatalogOf(dbs), GuidPdbMapOf(dbs), raw);
            AllRowsAgree(rows, ScanPolicy(dest, online, GuidPdbMapOf(dbs), records), records)
            <==> HostAgrees(walked, dbs)
  {
    var catalog, m := CatalogOf(dbs), GuidPdbMapOf(dbs);
    var files := StandaloneFiles(walked, catalog);
    var records, rows := EnrichedRecords(walked, catalog, raw), EnrichedRows(walked, catalog, m, raw);
    var policy := ScanPolicy(dest, online, m, records);
    DetailsWellFormed(dbs);
    forall i | 0 <= i < |walked| ensures RowAgrees(rows[i], policy, records[i]) <==> AliasAgrees(catalog, walked[i]) {
      WalkedRowAgreesExactly(walked, catalog, m, raw, dest, online, i);
    }
    forall j | 0 <= j < |files|
      ensures RowAgrees(rows[|walked| + j], policy, records[|walked| + j]) <==> FileAgrees(m, files[j].1)
    {
      StandaloneRowAgreesExactly(walked, catalog, m, raw, dest, online, j);
    }
    TwoPartsAgree(walked, files, rows, policy, records, catalog, m);
  }

  // ---------------------------------------------------------------- what the scripts execute

  /** A record with the row that was persisted for it. */
  type Pair = (ScanAlias, AliasRecord)

  function Pairs(rows: seq<ScanAlias>, records: seq<AliasRecord>): seq<Pair>
    requires |rows| == |records|
  {
    seq(|rows|, i requires 0 <= i < |rows| => (rows[i], records[i]))
  }

  function RecordOfPair(p: Pair): AliasRecord {
    p.1
  }

  function PairKey(p: Pair): Key {
    SortKey(p.1)
  }

  function PairInDatabase(name: string): Pair -> bool {
    (p: Pair) => InDatabase(name)(p.1)
  }

  /** The record's move in the container that its row names. */
  function SaidMove(policy: MovePolicy): Pair -> Executed {
    (p: Pair) => ExecutedIn(policy, p.0.containerName, p.1)
  }

  function SortedPairs(rows: seq<ScanAlias>, records: seq<AliasRecord>): seq<Pair>
    requires |rows| == |records|
  {
    Sort(PairKey, Pairs(rows, records))
  }

  /** Every script executes the moves of its database's records, in sorted order, each in the container that the
      record's row names. */
  ghost predicate RunAsSaid(scripts: Scripts, policy: MovePolicy, rows: seq<ScanAlias>, records: seq<AliasRecord>)
    requires |rows| == |records|
  {
    forall s :: s in scripts ==>
      Run(s.1, CDB_ROOT) == Map(SaidMove(policy), Filter(PairInDatabase(s.0), SortedPairs(rows, records)))
  }

  lemma PairedMoves(policy: MovePolicy, rows: seq<ScanAlias>, records: seq<AliasRecord>, name: string)
    requires |rows| == |records|
    ensures Filter(InDatabase(name), SortAliasRecords(records))
            == Map(RecordOfPair, Filter(PairInDatabase(name), SortedPairs(rows, records)))
  {
    assert Map(RecordOfPair, Pairs(rows, records)) == records;
    SortMap(RecordOfPair, SortKey, PairKey, Pairs(rows, records));
    FilterMap(RecordOfPair, InDatabase(name), PairInDatabase(name), SortedPairs(rows, records));
  }

  predicate PairAgrees(policy: MovePolicy, p: Pair) {
    RowAgrees(p.0, policy, p.1)
  }

  lemma SaidAndLabelled(policy: MovePolicy, p: Pair)
    ensures SaidMove(policy)(p) == ExecutedIn(policy, PolicyLabel(policy, p.1), p.1) <==> PairAgrees(policy, p)
  {
    assert SaidMove(policy)(p) == ExecutedIn(policy, p.0.containerName, p.1);
  }

  lemma PairsExecuted(policy: MovePolicy, pairs: seq<Pair>)
    ensures LabelledMoves(policy, Map(RecordOfPair, pairs)) == Map(SaidMove(policy), pairs)
            <==> forall p :: p in pairs ==> PairAgrees(policy, p)
  {
    var labelled, said := LabelledMoves(policy, Map(RecordOfPair, pairs)), Map(SaidMove(policy), pairs);
    forall i | 0 <= i < |pairs| ensures labelled[i] == said[i] <==> PairAgrees(policy, pairs[i]) {
      SaidAndLabelled(policy, pairs[i]);
      assert said[i] == SaidMove(policy)(pairs[i]);
      assert labelled[i] == ExecutedIn(policy, PolicyLabel(policy, pairs[i].1), pairs[i].1);
    }
    if labelled == said {
      forall p | p in pairs ensures PairAgrees(policy, p) {
        var i :| 0 <= i < |pairs| && pairs[i] == p;
        assert labelled[i] == said[i];
      }
    }
    if forall p :: p in pairs ==> PairAgrees(policy, p) {
      forall i | 0 <= i < |pairs| ensures labelled[i] == said[i] {
        assert pairs[i] in pairs;
      }
    }
  }

  lemma PairsAgree(policy: MovePolicy, rows: seq<ScanAlias>, records: seq<AliasRecord>)
    requires |rows| == |records|
    ensures AllRowsAgree(rows, policy, records)
            <==> forall p :: p in SortedPairs(rows, records) ==> PairAgrees(policy, p)
  {
    var pairs := Pairs(rows, records);
    SortMembers(PairKey, pairs);
    if forall p :: p in SortedPairs(rows, records) ==> PairAgrees(policy, p) {
      forall i | 0 <= i < |rows| ensures RowAgrees(rows[i], policy, records[i]) {
        assert pairs[i] in pairs;
        assert PairAgrees(policy, pairs[i]);
      }
    }
    if AllRowsAgree(rows, policy, records) {
      forall p | p in SortedPairs(rows, records) ensures PairAgrees(policy, p) {
        assert p in pairs;
        var i :| 0 <= i < |pairs| && pairs[i] == p;
        assert RowAgrees(rows[i], policy, records[i]);
      }
    }
  }

  lemma ScriptRunsAsSaid(policy: MovePolicy, rows: seq<ScanAlias>, records: seq<AliasRecord>, s: (string, Script))
    requires |rows| == |records|
    requires Run(s.1, CDB_ROOT) == LabelledMoves(policy, Filter(InDatabase(s.0), SortAliasRecords(records)))
    ensures Run(s.1, CDB_ROOT) == Map(SaidMove(policy), Filter(PairInDatabase(s.0), SortedPairs(rows, records)))
            <==> forall p :: p in SortedPairs(rows, records) && DatabaseOf(p.1) == s.0 ==> PairAgrees(policy, p)
  {
    PairedMoves(policy, rows, records, s.0);
    PairsExecuted(policy, Filter(PairInDatabase(s.0), SortedPairs(rows, records)));
    FilterMembers(PairInDatabase(s.0), SortedPairs(rows, records));
    assert forall p: Pair :: PairInDatabase(s.0)(p) <==> DatabaseOf(p.1) == s.0;
  }

  lemma PairHasScript(scripts: Scripts, rows: seq<ScanAlias>, records: seq<AliasRecord>, p: Pair)
    requires |rows| == |records| && p in SortedPairs(rows, records)
    requires forall r :: r in records ==> HasKey(scripts, DatabaseOf(r))
    ensures exists s :: s in scripts && s.0 == DatabaseOf(p.1)
  {
    var pairs := Pairs(rows, records);
    SortMembers(PairKey, pairs);
    var i :| 0 <= i < |pairs| && pairs[i] == p;
    assert records[i] in records;
    var k :| 0 <= k < |scripts| && scripts[k].0 == DatabaseOf(p.1);
    assert scripts[k] in scripts;
  }

  /** With no PDB named like the emitter's start marker, agreement with the labels is agreement with what is
      executed. */
  lemma RunAsSaidExactly(policy: MovePolicy, rows: seq<ScanAlias>, records: seq<AliasRecord>)
    requires |rows| == |records| && NoPdbNamedSentinel(policy) && ByDatabase(policy, records, false).Ok?
    ensures RunAsSaid(ByDatabase(policy, records, false).value, policy, rows, records)
            <==> AllRowsAgree(rows, policy, records)
  {
    var scripts, sorted := ByDatabase(policy, records, false).value, SortedPairs(rows, records);
    ScriptsAreProjections(policy, records, false);
    PairsAgree(policy, rows, records);
    forall s | s in scripts
      ensures Run(s.1, CDB_ROOT) == Map(SaidMove(policy), Filter(PairInDatabase(s.0), sorted))
              <==> forall p :: p in sorted && DatabaseOf(p.1) == s.0 ==> PairAgrees(policy, p)
    {
      ScriptRunsAsSaid(policy, rows, records, s);
    }
    if RunAsSaid(scripts, policy, rows, records) {
      forall p | p in sorted ensures PairAgrees(policy, p) {
        PairHasScript(scripts, rows, records, p);
      }
    }
  }

  lemma RowsRunExactly(walked: seq<AliasRecord>, dbs: seq<DatabaseDetails>, raw: string, dest: string, online: bool)
    requires UpperGuids(walked)
    ensures var records := EnrichedRecords(walked, CatalogOf(dbs), raw);
            var rows := EnrichedRows(walked, CatalogOf(dbs), GuidPdbMapOf(dbs), raw);
            var policy := ScanPolicy(dest, online, GuidPdbMapOf(dbs), records);
            && |rows| == |records| && ByDatabase(policy, records, false).Ok?
            && (AllRowsAgree(rows, policy, records) <==> HostAgrees(walked, dbs))
            && (NoPdbCalledSentinel(dbs) ==>
                 (RunAsSaid(ByDatabase(policy, records, false).value, policy, rows, records)
                  <==> HostAgrees(walked, dbs)))
  {
    var records := EnrichedRecords(walked, CatalogOf(dbs), raw);
    var policy := ScanPolicy(dest, online, GuidPdbMapOf(dbs), records);
    LenientNeverFails(policy, records);
    RowsAgreeExactly(walked, dbs, raw, dest, online);
    RowsDescribeRecords(walked, CatalogOf(dbs), GuidPdbMapOf(dbs), raw);
    if NoPdbCalledSentinel(dbs) {
      EmitMapAvoidsSentinel(dbs, records, dest, online);
      RunAsSaidExactly(policy, EnrichedRows(walked, CatalogOf(dbs), GuidPdbMapOf(dbs), raw), records);
    }
  }

  /** All rows of a scan, from both loops: every row names the container that the emitter selects for its record if and
      only if every walked alias and every standalone file agrees. With no PDB named like the emitter's start marker the
      same condition decides whether running the scripts moves every record in the container that its row names. */
  lemma ScanRowsAgreeExactly(matcher: RowMatcher, walk: PathWalk, host: Host, listing: GroupListing,
                             raw: string, dest: string, online: bool)
    ensures var dbs := host.databases;
            var walked := ScanWalked(matcher, walk, ScanPaths(host, listing));
            var records := EnrichedRecords(walked, CatalogOf(dbs), raw);
            var rows := EnrichedRows(walked, CatalogOf(dbs), GuidPdbMapOf(dbs), raw);
            var policy := ScanPolicy(dest, online, GuidPdbMapOf(dbs), records);
            && |rows| == |records| && ByDatabase(policy, records, false).Ok?
            && (AllRowsAgree(rows, policy, records) <==> HostAgrees(walked, dbs))
            && (NoPdbCalledSentinel(dbs) ==>
                 (RunAsSaid(ByDatabase(policy, records, false).value, policy, rows, records)
                  <==> HostAgrees(walked, dbs)))
  {
    var paths := ScanPaths(host, listing);
    if paths.Ok? { WalkedGuidsAreUpper(matcher, Walked(walk, paths.value)); }
    RowsRunExactly(ScanWalked(matcher, walk, paths), host.databases, raw, dest, online);
  }

  // ---------------------------------------------------------------- both loops can disagree

  function OneFile(path: string, conName: string): seq<DatabaseDetails> {
    [DatabaseDetails("D", [], [DatabaseFile(path, conName, "DATAFILE")])]
  }

  lemma OneFileCatalog(path: string, conName: string)
    ensures CatalogOf(OneFile(path, conName)) == [(NormPath(path), FileInfo(conName, "DATAFILE", "D", path))]
    ensures GuidPdbMapOf(OneFile(path, conName)) == []
  {
    var dbs := OneFile(path, conName);
    var f := DatabaseFile(path, conName, "DATAFILE");
    assert FileItems(dbs[..0]) == [] && PdbItems(dbs[..0]) == [];
    assert FileItems(dbs) == [FileItem("D", f)];
    assert PdbItems(dbs) == [];
    assert FromItems([FileItem("D", f)][..0]) == [];
  }

  lemma SegmentWithoutGuid()
    ensures PdbGuidFromPath("+D/x") == None
  {
    StripTrimmed("+D/x");
    SplitWithout("+D", '/');
    SplitWithout("x", '/');
    SplitConcat("+D", "x", '/');
    assert "+D/x" == "+D" + ['/'] + "x";
    assert |Upper("x")| == 1 && |"DATAFILE"| == 8 && |"TEMPFILE"| == 8;
    assert !IsTypeSegment("x");
    assert GuidBefore(["+D", "x"], 1) == None;
  }

  function PlainAlias(source: string, target: string): AliasRecord {
    AliasRecord(DATAFILE, source, target, None, "+D", Some("D"))
  }

  /** First loop: an alias without a GUID whose file the catalog puts in a PDB. The row names the PDB, the script moves
      the file in the root. */
  lemma GuidlessRowDisagrees(raw: string, dest: string, online: bool)
    ensures var dbs, walked := OneFile("+D/x", "SALES"), [PlainAlias("+D/x", "+D/y")];
            var records := EnrichedRecords(walked, CatalogOf(dbs), raw);
            && EnrichedRows(walked, CatalogOf(dbs), GuidPdbMapOf(dbs), raw)[0].containerName == "SALES"
            && PolicyLabel(ScanPolicy(dest, online, GuidPdbMapOf(dbs), records), records[0]) == CDB_ROOT
  {
    var dbs, walked := OneFile("+D/x", "SALES"), [PlainAlias("+D/x", "+D/y")];
    var catalog := CatalogOf(dbs);
    OneFileCatalog("+D/x", "SALES");
    SegmentWithoutGuid();
    assert CatalogEntry(catalog, walked[0]) == Some(catalog[0].1);
    assert EnrichedGuid(catalog, walked[0]) == None;
  }

  function SomeGuid(): string {
    seq(32, i => 'A')
  }

  function FourParts(a: string, b: string, c: string, d: string): string {
    a + "/" + b + "/" + c + "/" + d
  }

  lemma SegmentsOfFour(a: string, b: string, c: string, d: string)
    requires '/' !in a && '/' !in b && '/' !in c && '/' !in d
    ensures Split(FourParts(a, b, c, d), '/') == [a, b, c, d]
  {
    SplitWithout(a, '/');
    SplitWithout(b, '/');
    SplitWithout(c, '/');
    SplitWithout(d, '/');
    SplitConcat(a, b, '/');
    SplitConcat(a + "/" + b, c, '/');
    SplitConcat(a + "/" + b + "/" + c, d, '/');
  }

  lemma FourTrimmed(a: string, b: string, c: string, d: string)
    requires a != "" && !IsSpace(a[0]) && d != "" && !IsSpace(d[|d| - 1])
    ensures Strip(FourParts(a, b, c, d)) == FourParts(a, b, c, d)
  {
    var s := FourParts(a, b, c, d);
    assert s[0] == a[0] && s[|s| - 1] == d[|d| - 1];
    StripTrimmed(s);
  }

  lemma GuidOfFour(a: string, guid: string, kind: string, d: string)
    requires !IsTypeSegment(guid) && MatchesGuid(guid) && IsTypeSegment(kind)
    ensures GuidBefore([a, guid, kind, d], 1) == Some(Upper(guid))
  {
    var parts := [a, guid, kind, d];
    assert GuidBefore(parts, 2) == Some(Upper(guid));
  }

  lemma GuidOfFourParts(a: string, guid: string, kind: string, d: string)
    requires '/' !in a && '/' !in guid && '/' !in kind && '/' !in d
    requires a != "" && !IsSpace(a[0]) && d != "" && !IsSpace(d[|d| - 1])
    requires !IsTypeSegment(guid) && MatchesGuid(guid) && IsTypeSegment(kind) && IsUpper(guid)
    ensures Strip(FourParts(a, guid, kind, d)) == FourParts(a, guid, kind, d)
    ensures Split(FourParts(a, guid, kind, d), '/') == [a, guid, kind, d]
    ensures PdbGuidFromPath(FourParts(a, guid, kind, d)) == Some(guid)
  {
    SegmentsOfFour(a, guid, kind, d);
    FourTrimmed(a, guid, kind, d);
    GuidOfFour(a, guid, kind, d);
  }

  lemma SomeGuidMatches()
    ensures MatchesGuid(SomeGuid()) && !IsTypeSegment(SomeGuid()) && IsUpper(SomeGuid()) && '/' !in SomeGuid()
  {
    assert |Upper(SomeGuid())| == 32;
    assert SomeGuid()[..32] == SomeGuid();
  }

  lemma DatafileIsType()
    ensures IsTypeSegment("DATAFILE") && '/' !in "DATAFILE"
  {
    assert Upper("DATAFILE") == "DATAFILE";
  }

  function PathWithGuid(): string {
    FourParts("+D", SomeGuid(), "DATAFILE", "x")
  }

  lemma SegmentsWithGuid()
    ensures Strip(PathWithGuid()) == PathWithGuid()
    ensures Split(PathWithGuid(), '/') == ["+D", SomeGuid(), "DATAFILE", "x"]
    ensures PdbGuidFromPath(PathWithGuid()) == Some(SomeGuid()) && IsUpper(SomeGuid())
  {
    SomeGuidMatches();
    DatafileIsType();
    GuidOfFourParts("+D", SomeGuid(), "DATAFILE", "x");
  }

  lemma ShortNameIsNotOmf()
    ensures !OmfPath(PathWithGuid())
  {
    SegmentsWithGuid();
    assert DigitTail("x") == 0;
  }

  /** Second loop: a file whose path carries a GUID that discovery does not report. The row names the PDB, the script
      switches to a placeholder. */
  lemma UnknownGuidRowDisagrees(raw: string, dest: string, online: bool)
    ensures var dbs := OneFile(PathWithGuid(), "SALES");
            var records := EnrichedRecords([], CatalogOf(dbs), raw);
            var rows := EnrichedRows([], CatalogOf(dbs), GuidPdbMapOf(dbs), raw);
            && |rows| == |records| == 1 && rows[0].containerName == "SALES" && rows[0].pdbGuid == Some(SomeGuid())
            && PolicyLabel(ScanPolicy(dest, online, GuidPdbMapOf(dbs), records), records[0])
               == Placeholder(SomeGuid()) != "SALES"
  {
    var dbs := OneFile(PathWithGuid(), "SALES");
    var catalog := CatalogOf(dbs);
    OneFileCatalog(PathWithGuid(), "SALES");
    SegmentsWithGuid();
    ShortNameIsNotOmf();
    assert Standalone(MatchedKeys([]))(catalog[0]);
    FilterAll(Standalone(MatchedKeys([])), catalog);
    assert StandaloneFiles([], catalog) == catalog;
    EnrichedUpper([], catalog, raw);
    StandaloneAtEnd([], catalog, GuidPdbMapOf(dbs), raw, 0);
    var records := EnrichedRecords([], catalog, raw);
    InjectedLabel(dest, online, [], records, records[0]);
    assert Placeholder(SomeGuid())[0] == 'P';
  }

  function AliasWithGuid(): AliasRecord {
    AliasRecord(DATAFILE, "+D/x", "+D/y", Some(SomeGuid()), "+D", Some("D"))
  }

  lemma OnePdb(name: string, guid: string)
    requires IsUpper(guid)
    ensures CatalogOf([DatabaseDetails("D", [(name, guid)], [])]) == []
    ensures GuidPdbMapOf([DatabaseDetails("D", [(name, guid)], [])]) == [(guid, name)]
  {
    var dbs := [DatabaseDetails("D", [(name, guid)], [])];
    assert FileItems(dbs[..0]) == [] && PdbItems(dbs[..0]) == [];
    assert FileItems(dbs) == [];
    assert PdbItems(dbs) == [PdbItem((name, guid))];
    assert FromItems([PdbItem((name, guid))][..0]) == [];
  }

  /** Why the marker's name is excluded: of a PDB that bears it, the row names the PDB and so does the label, and still
      the script moves the record in the root. */
  lemma MarkerRowMisleads(raw: string, dest: string, online: bool)
    ensures var dbs, walked := [DatabaseDetails("D", [(SENTINEL, SomeGuid())], [])], [AliasWithGuid()];
            var records := EnrichedRecords(walked, CatalogOf(dbs), raw);
            var rows := EnrichedRows(walked, CatalogOf(dbs), GuidPdbMapOf(dbs), raw);
            var policy := ScanPolicy(dest, online, GuidPdbMapOf(dbs), records);
            && |rows| == |records| == 1 && RowAgrees(rows[0], policy, records[0]) && rows[0].containerName == SENTINEL
            && Run(Emitted(policy, records, false).value, CDB_ROOT) == [ExecutedIn(policy, CDB_ROOT, records[0])]
  {
    var dbs, walked := [DatabaseDetails("D", [(SENTINEL, SomeGuid())], [])], [AliasWithGuid()];
    SomeGuidMatches();
    OnePdb(SENTINEL, SomeGuid());
    var m: Dict<string> := [(SomeGuid(), SENTINEL)];
    var records := EnrichedRecords(walked, [], raw);
    var r := WalkedRecord([], AliasWithGuid());
    assert StandaloneFiles(walked, []) == [];
    assert records == [r];
    assert EnrichedGuid([], AliasWithGuid()) == Some(SomeGuid());
    assert Get(m, SomeGuid()) == Some(SENTINEL);
    InjectedLabel(dest, online, m, records, r);
    LoneSentinelStays(ScanPolicy(dest, online, m, records), r, false);
  }
}
