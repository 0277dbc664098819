/** Reconciling walked aliases with the database catalog (asm_cleanup/services/alias_enrichment.py). */
module Enrichment {
  import opened Wrappers
  import opened Sequences
  import opened Text
  import opened Dicts
  import opened AliasRecords
  import opened MoveSql

  /** What the catalog knows of one file. */
  datatype FileInfo = FileInfo(conName: string, fileType: string, database: string, rawPath: string)

  type Catalog = Dict<FileInfo>

  /** A persisted row. */
  datatype ScanAlias = ScanAlias(
    databaseName: string,
    containerName: string,
    fileType: FileType,
    sourcePath: string,
    targetPath: string,
    pdbGuid: Option<string>)

  function NormPath(path: string): string {
    Casefold(Strip(path))
  }

  /** Files are told apart by trimmed path, without case. */
  lemma NormPathIgnores(before: string, path: string, after: string)
    requires AllSpace(before) && AllSpace(after)
    ensures NormPath(before + path + after) == NormPath(path)
    ensures NormPath(path) == Casefold(Strip(path)) && Upper(NormPath(path)) == Upper(Strip(path))
  {
    StripIgnores(before, path, after);
    UpperTwice(Strip(path));
    FoldsAgree(NormPath(path), Strip(path));
  }

  /** As the catalog is built: each file under its trimmed, folded path. */
  ghost predicate WellKeyed(catalog: Catalog) {
    IsDict(catalog) && forall i :: 0 <= i < |catalog| ==> catalog[i].0 == NormPath(catalog[i].1.rawPath)
  }

  // ---------------------------------------------------------------- `\.[0-9]+\.[0-9]+$`

  predicate AllDigits(s: string) {
    forall c :: c in s ==> IsDigit(c)
  }

  ghost predicate OmfParts(s: string, stem: string, file: string, incarnation: string) {
    && file != "" && AllDigits(file) && incarnation != "" && AllDigits(incarnation)
    && s == stem + "." + file + "." + incarnation
  }

  /** Number of digits at the end. */
  function DigitTail(s: string): (n: nat)
    ensures n <= |s|
  {
    if s == [] || !IsDigit(s[|s| - 1]) then 0 else 1 + DigitTail(s[..|s| - 1])
  }

  lemma {:induction false} DigitTailIsDigits(s: string)
    ensures AllDigits(s[|s| - DigitTail(s)..])
  {
    if s != [] && IsDigit(s[|s| - 1]) {
      var front := s[..|s| - 1];
      DigitTailIsDigits(front);
      assert s[|s| - DigitTail(s)..] == front[|front| - DigitTail(front)..] + [s[|s| - 1]];
    }
  }

  /** The text before a dot and a non-empty run of digits at the end. */
  function BeforeNumber(s: string): Option<string> {
    var n := DigitTail(s);
    if n == 0 || n == |s| || s[|s| - n - 1] != '.' then None else Some(s[..|s| - n - 1])
  }

  predicate IsOmfName(filename: string) {
    BeforeNumber(filename).Some? && BeforeNumber(BeforeNumber(filename).value).Some?
  }

  lemma {:induction false} DigitTailExact(stem: string, digits: string)
    requires AllDigits(digits)
    ensures DigitTail(stem + "." + digits) == |digits|
  {
    var s := stem + "." + digits;
    if digits == [] {
      assert s[|s| - 1] == '.';
    } else {
      var n := |digits| - 1;
      assert s[|s| - 1] == digits[n] && digits[n] in digits;
      assert s[..|s| - 1] == stem + "." + digits[..n];
      DigitTailExact(stem, digits[..n]);
    }
  }

  lemma BeforeNumberExact(s: string, stem: string)
    ensures BeforeNumber(s) == Some(stem) <==> exists d :: d != "" && AllDigits(d) && s == stem + "." + d
  {
    if BeforeNumber(s) == Some(stem) {
      var n := DigitTail(s);
      var d := s[|s| - n..];
      DigitTailIsDigits(s);
      assert s == stem + "." + d;
    }
    if d :| d != "" && AllDigits(d) && s == stem + "." + d {
      DigitTailExact(stem, d);
      assert s[..|s| - |d| - 1] == stem;
    }
  }

  /** The suffix scan accepts exactly the names the pattern describes. */
  lemma OmfNameExact(s: string)
    ensures IsOmfName(s) <==> exists stem, file, incarnation :: OmfParts(s, stem, file, incarnation)
  {
    if IsOmfName(s) {
      var front := BeforeNumber(s).value;
      var stem := BeforeNumber(front).value;
      BeforeNumberExact(s, front);
      BeforeNumberExact(front, stem);
      var i :| i != "" && AllDigits(i) && s == front + "." + i;
      var f :| f != "" && AllDigits(f) && front == stem + "." + f;
      assert OmfParts(s, stem, f, i);
    }
    if stem, file, incarnation :| OmfParts(s, stem, file, incarnation) {
      BeforeNumberExact(stem + "." + file, stem);
      BeforeNumberExact(s, stem + "." + file);
    }
  }

  predicate OmfPath(rawPath: string) {
    var parts := Split(Strip(rawPath), '/');
    IsOmfName(parts[|parts| - 1])
  }

  lemma NumbersHoldNoSlash(file: string, incarnation: string)
    requires AllDigits(file) && AllDigits(incarnation)
    ensures '/' !in "." + file + "." + incarnation
  {
    forall c | c in "." + file + "." + incarnation ensures c != '/' {
      assert c == '.' || c in file || c in incarnation;
    }
  }

  lemma SuffixOfLastPart(front: string, name: string, stem: string, tail: string)
    requires front + name == stem + tail && '/' !in tail && (front == "" || front[|front| - 1] == '/')
    ensures |tail| <= |name| && name == name[..|name| - |tail|] + tail
  {
    var s := front + name;
    assert forall k :: 0 <= k < |tail| ==> s[|stem| + k] == tail[k] && tail[k] in tail;
    assert front != "" ==> s[|front| - 1] == '/';
    assert |front| <= |stem|;
    assert name == s[|front|..];
    assert tail == s[|stem|..] == name[|stem| - |front|..];
  }

  /** A longer stem does not matter. */
  lemma OmfPartsLonger(front: string, name: string)
    requires exists stem, file, incarnation :: OmfParts(name, stem, file, incarnation)
    ensures exists stem, file, incarnation :: OmfParts(front + name, stem, file, incarnation)
  {
    var stem, file, incarnation :| OmfParts(name, stem, file, incarnation);
    assert front + name == (front + stem) + "." + file + "." + incarnation;
    assert OmfParts(front + name, front + stem, file, incarnation);
  }

  lemma OmfPartsOfLast(front: string, name: string)
    requires front == "" || front[|front| - 1] == '/'
    requires exists stem, file, incarnation :: OmfParts(front + name, stem, file, incarnation)
    ensures exists stem, file, incarnation :: OmfParts(name, stem, file, incarnation)
  {
    var stem, file, incarnation :| OmfParts(front + name, stem, file, incarnation);
    var tail := "." + file + "." + incarnation;
    assert stem + "." + file + "." + incarnation == stem + tail;
    NumbersHoldNoSlash(file, incarnation);
    SuffixOfLastPart(front, name, stem, tail);
    var rest := name[..|name| - |tail|];
    assert rest + tail == rest + "." + file + "." + incarnation;
    assert OmfParts(name, rest, file, incarnation);
  }

  /** Digits and dots hold no slash: the last segment of a path is an OMF name exactly when the trimmed path itself
      ends like one. */
  lemma OmfPathExact(rawPath: string)
    ensures OmfPath(rawPath) <==> exists stem, file, incarnation :: OmfParts(Strip(rawPath), stem, file, incarnation)
  {
    var parts := Split(Strip(rawPath), '/');
    var name := parts[|parts| - 1];
    var front := LastPartIsSuffix(Strip(rawPath), '/');
    OmfNameExact(name);
    if OmfPath(rawPath) { OmfPartsLonger(front, name); }
    if exists stem, file, incarnation :: OmfParts(Strip(rawPath), stem, file, incarnation) {
      OmfPartsOfLast(front, name);
    }
  }

  // ---------------------------------------------------------------- the two loops

  function CatalogEntry(catalog: Catalog, alias: AliasRecord): Option<FileInfo> {
    Get(catalog, NormPath(alias.sourcePath)).OrElse(Get(catalog, NormPath(alias.targetPath)))
  }

  function CatalogType(info: FileInfo): FileType {
    if info.fileType == "DATAFILE" then DATAFILE else TEMPFILE
  }

  function OrUnknown(name: Option<string>): string {
    if Truthy(name) then name.value else "UNKNOWN"
  }

  function EnrichedSource(catalog: Catalog, alias: AliasRecord): string {
    match CatalogEntry(catalog, alias)
    case Some(info) => info.rawPath
    case None => alias.sourcePath
  }

  function EnrichedGuid(catalog: Catalog, alias: AliasRecord): Option<string> {
    Either(alias.pdbGuid, PdbGuidFromPath(EnrichedSource(catalog, alias)))
  }

  function EnrichedDatabase(catalog: Catalog, alias: AliasRecord): string {
    match CatalogEntry(catalog, alias)
    case Some(info) => OrUnknown(Some(info.database))
    case None =>
      OrUnknown(Either(Either(DatabaseNameFromPath(alias.sourcePath), DatabaseNameFromPath(alias.targetPath)),
                       alias.databaseName))
  }

  function EnrichedType(catalog: Catalog, alias: AliasRecord): FileType {
    match CatalogEntry(catalog, alias)
    case Some(info) => CatalogType(info)
    case None => alias.fileType
  }

  function EnrichedContainer(catalog: Catalog, guidPdbMap: Dict<string>, alias: AliasRecord): string {
    var guid := EnrichedGuid(catalog, alias);
    if Truthy(guid) then Get(guidPdbMap, Upper(guid.value)).GetOr(Placeholder(Upper(guid.value)))
    else
      match CatalogEntry(catalog, alias)
      case Some(info) => info.conName
      case None => CDB_ROOT
  }

  function WalkedRecord(catalog: Catalog, alias: AliasRecord): AliasRecord {
    AliasRecord(EnrichedType(catalog, alias), EnrichedSource(catalog, alias), alias.targetPath,
                EnrichedGuid(catalog, alias), alias.diskGroup, Some(EnrichedDatabase(catalog, alias)))
  }

  function WalkedRow(catalog: Catalog, guidPdbMap: Dict<string>, alias: AliasRecord): ScanAlias {
    ScanAlias(EnrichedDatabase(catalog, alias), EnrichedContainer(catalog, guidPdbMap, alias),
              EnrichedType(catalog, alias), EnrichedSource(catalog, alias), alias.targetPath,
              EnrichedGuid(catalog, alias))
  }

  function DiskGroupOr(rawPath: string, dest: string): string {
    var parts := Segments(rawPath);
    if parts != [] && StartsWith(parts[0], "+") then parts[0] else dest
  }

  function FileRecord(dest: string, info: FileInfo): AliasRecord {
    AliasRecord(CatalogType(info), info.rawPath, dest, PdbGuidFromPath(info.rawPath),
                DiskGroupOr(info.rawPath, dest), Some(OrUnknown(Some(info.database))))
  }

  function FileRow(dest: string, info: FileInfo): ScanAlias {
    ScanAlias(OrUnknown(Some(info.database)), info.conName, CatalogType(info), info.rawPath, dest,
              PdbGuidFromPath(info.rawPath))
  }

  function MatchedKeys(walked: seq<AliasRecord>): set<string> {
    (set i | 0 <= i < |walked| :: NormPath(walked[i].sourcePath))
      + (set i | 0 <= i < |walked| :: NormPath(walked[i].targetPath))
  }

  function Standalone(matched: set<string>): ((string, FileInfo)) -> bool {
    (entry: (string, FileInfo)) => entry.0 !in matched && !OmfPath(entry.1.rawPath)
  }

  /** Catalog files that no walked alias mentions and that are not named by OMF, in catalog order. */
  function StandaloneFiles(walked: seq<AliasRecord>, catalog: Catalog): Catalog {
    Filter(Standalone(MatchedKeys(walked)), catalog)
  }

  function RecordOf(catalog: Catalog): AliasRecord -> AliasRecord {
    (alias: AliasRecord) => WalkedRecord(catalog, alias)
  }

  function RowOf(catalog: Catalog, guidPdbMap: Dict<string>): AliasRecord -> ScanAlias {
    (alias: AliasRecord) => WalkedRow(catalog, guidPdbMap, alias)
  }

  function WalkedRecords(walked: seq<AliasRecord>, catalog: Catalog): seq<AliasRecord> {
    Map(RecordOf(catalog), walked)
  }

  function WalkedRows(walked: seq<AliasRecord>, catalog: Catalog, guidPdbMap: Dict<string>): seq<ScanAlias> {
    Map(RowOf(catalog, guidPdbMap), walked)
  }

  function FileRecords(files: Catalog, dest: string): seq<AliasRecord> {
    seq(|files|, i requires 0 <= i < |files| => FileRecord(dest, files[i].1))
  }

  function FileRows(files: Catalog, dest: string): seq<ScanAlias> {
    seq(|files|, i requires 0 <= i < |files| => FileRow(dest, files[i].1))
  }

  function EnrichedRecords(walked: seq<AliasRecord>, catalog: Catalog, dest: string): seq<AliasRecord> {
    WalkedRecords(walked, catalog) + FileRecords(StandaloneFiles(walked, catalog), dest)
  }

  function EnrichedRows(walked: seq<AliasRecord>, catalog: Catalog, guidPdbMap: Dict<string>, dest: string)
    : seq<ScanAlias>
  {
    WalkedRows(walked, catalog, guidPdbMap) + FileRows(StandaloneFiles(walked, catalog), dest)
  }

  /** The rows a database session has been given. */
  class Session {
    var added: seq<ScanAlias>

    constructor ()
      ensures added == []
    {
      added := [];
    }

    method Add(row: ScanAlias)
      modifies this
      ensures added == old(added) + [row]
    {
      added := added + [row];
    }
  }

  /** The body of the first loop: one walked alias. */
  method EnrichAlias(alias: AliasRecord, catalog: Catalog, guidPdbMap: Dict<string>)
    returns (row: ScanAlias, record: AliasRecord)
    ensures row == WalkedRow(catalog, guidPdbMap, alias) && record == WalkedRecord(catalog, alias)
  {
    var dbName: Option<string> := None;
    var containerName := CDB_ROOT;
    var fileType := alias.fileType;
    var sourcePath := alias.sourcePath;
    var info := Get(catalog, NormPath(alias.sourcePath));
    if info.None? { info := Get(catalog, NormPath(alias.targetPath)); }
    if info.Some? {
      dbName := Some(info.value.database);
      containerName := info.value.conName;
      fileType := if info.value.fileType == "DATAFILE" then DATAFILE else TEMPFILE;
      sourcePath := info.value.rawPath;
    } else {
      dbName := Either(Either(DatabaseNameFromPath(alias.sourcePath), DatabaseNameFromPath(alias.targetPath)),
                       alias.databaseName);
    }
    var guid := Either(alias.pdbGuid, PdbGuidFromPath(sourcePath));
    if Truthy(guid) {
      var known := Get(guidPdbMap, Upper(guid.value));
      containerName := if known.Some? then known.value else Placeholder(Upper(guid.value));
    }
    var resolvedDb := OrUnknown(dbName);
    row := ScanAlias(resolvedDb, containerName, fileType, sourcePath, alias.targetPath, guid);
    record := AliasRecord(fileType, sourcePath, alias.targetPath, guid, alias.diskGroup, Some(resolvedDb));
  }

  lemma MatchedKeysAppend(walked: seq<AliasRecord>, i: nat)
    requires i < |walked|
    ensures MatchedKeys(walked[..i + 1])
            == MatchedKeys(walked[..i]) + {NormPath(walked[i].sourcePath)} + {NormPath(walked[i].targetPath)}
  {
    var more, less := walked[..i + 1], walked[..i];
    assert more == less + [walked[i]];
    forall k | k in MatchedKeys(less) + {NormPath(walked[i].sourcePath)} + {NormPath(walked[i].targetPath)}
      ensures k in MatchedKeys(more)
    {
      assert forall j :: 0 <= j < i ==> less[j] == more[j];
      assert more[i] == walked[i];
    }
  }

  /** The first loop: every walked alias yields a row and a record. */
  method PersistWalked(session: Session, walked: seq<AliasRecord>, catalog: Catalog, guidPdbMap: Dict<string>)
    returns (records: seq<AliasRecord>, matched: set<string>)
    modifies session
    ensures records == WalkedRecords(walked, catalog) && matched == MatchedKeys(walked)
    ensures session.added == old(session.added) + WalkedRows(walked, catalog, guidPdbMap)
  {
    records, matched := [], {};
    for i := 0 to |walked|
      invariant records == WalkedRecords(walked[..i], catalog)
      invariant matched == MatchedKeys(walked[..i])
      invariant session.added == old(session.added) + WalkedRows(walked[..i], catalog, guidPdbMap)
    {
      var row, record := EnrichAlias(walked[i], catalog, guidPdbMap);
      MatchedKeysAppend(walked, i);
      MapAppend(RecordOf(catalog), walked, i);
      MapAppend(RowOf(catalog, guidPdbMap), walked, i);
      matched := matched + {NormPath(walked[i].sourcePath)} + {NormPath(walked[i].targetPath)};
      session.Add(row);
      records := records + [record];
    }
    assert walked[..|walked|] == walked;
  }

  lemma FilesAppend(files: Catalog, entry: (string, FileInfo), dest: string)
    ensures FileRecords(files + [entry], dest) == FileRecords(files, dest) + [FileRecord(dest, entry.1)]
    ensures FileRows(files + [entry], dest) == FileRows(files, dest) + [FileRow(dest, entry.1)]
  {
  }

  /** The second loop: every unmatched catalog file that OMF did not name yields a row and a record. */
  method PersistStandalone(session: Session, matched: set<string>, catalog: Catalog, dest: string)
    returns (records: seq<AliasRecord>)
    modifies session
    ensures records == FileRecords(Filter(Standalone(matched), catalog), dest)
    ensures session.added == old(session.added) + FileRows(Filter(Standalone(matched), catalog), dest)
  {
    records := [];
    ghost var files: Catalog := [];
    for i := 0 to |catalog|
      invariant files == Filter(Standalone(matched), catalog[..i])
      invariant records == FileRecords(files, dest)
      invariant session.added == old(session.added) + FileRows(files, dest)
    {
      assert catalog[..i + 1] == catalog[..i] + [catalog[i]];
      FilterAppend(Standalone(matched), catalog[..i], catalog[i]);
      FilesAppend(files, catalog[i], dest);
      var info := catalog[i].1;
      if catalog[i].0 !in matched && !OmfPath(info.rawPath) {
        session.Add(FileRow(dest, info));
        records := records + [FileRecord(dest, info)];
        files := files + [catalog[i]];
      }
    }
    assert catalog[..|catalog|] == catalog;
  }

  /** `enrich_and_persist` */
  method EnrichAndPersist(session: Session, walked: seq<AliasRecord>, catalog: Catalog, guidPdbMap: Dict<string>,
                          dest: string)
    returns (records: seq<AliasRecord>)
    modifies session
    ensures records == EnrichedRecords(walked, catalog, dest)
    ensures session.added == old(session.added) + EnrichedRows(walked, catalog, guidPdbMap, dest)
  {
    var first, matched := PersistWalked(session, walked, catalog, guidPdbMap);
    var second := PersistStandalone(session, matched, catalog, dest);
    records := first + second;
  }

  // ---------------------------------------------------------------- which file an alias is

  predicate SameFile(a: string, b: string) {
    NormPath(a) == NormPath(b)
  }

  ghost predicate Listed(catalog: Catalog, info: FileInfo) {
    exists i :: 0 <= i < |catalog| && catalog[i].1 == info
  }

  lemma GetListed(catalog: Catalog, path: string, info: FileInfo)
    requires WellKeyed(catalog)
    ensures Get(catalog, NormPath(path)) == Some(info) <==> Listed(catalog, info) && SameFile(info.rawPath, path)
  {
    if Listed(catalog, info) && SameFile(info.rawPath, path) {
      var i :| 0 <= i < |catalog| && catalog[i].1 == info;
      GetAt(catalog, i);
    }
  }

  /** An alias is the catalog file whose path equals its source up to case and outer space; failing that, the
      one whose path equals its target. */
  lemma CatalogEntryExact(catalog: Catalog, alias: AliasRecord, info: FileInfo)
    requires WellKeyed(catalog)
    ensures CatalogEntry(catalog, alias) == Some(info) <==>
            && Listed(catalog, info)
            && (SameFile(info.rawPath, alias.sourcePath)
                || (SameFile(info.rawPath, alias.targetPath)
                    && forall other :: Listed(catalog, other) ==> !SameFile(other.rawPath, alias.sourcePath)))
  {
    GetListed(catalog, alias.sourcePath, info);
    GetListed(catalog, alias.targetPath, info);
    forall other ensures Get(catalog, NormPath(alias.sourcePath)) == Some(other)
                         <==> Listed(catalog, other) && SameFile(other.rawPath, alias.sourcePath) {
      GetListed(catalog, alias.sourcePath, other);
    }
  }

  /** The catalog file that the alias stands for: its path equals the alias's source up to case and outer space or,
      when no file's does, the alias's target. */
  ghost predicate IsFileOf(catalog: Catalog, alias: AliasRecord, info: FileInfo) {
    && Listed(catalog, info)
    && (SameFile(info.rawPath, alias.sourcePath)
        || (SameFile(info.rawPath, alias.targetPath)
            && forall other :: Listed(catalog, other) ==> !SameFile(other.rawPath, alias.sourcePath)))
  }

  function NameOrUnknown(name: string): string {
    if name == "" then "UNKNOWN" else name
  }

  /** Type, path and database as the catalog reports them. */
  predicate AsReported(info: FileInfo, r: AliasRecord) {
    && (r.fileType == DATAFILE <==> info.fileType == "DATAFILE")
    && r.sourcePath == info.rawPath && r.databaseName == Some(NameOrUnknown(info.database))
  }

  /** The database that an alias without a catalog file is filed under: from its source path, else from its target
      path, else its own, else unknown. */
  ghost predicate FiledByPath(alias: AliasRecord, database: Option<string>) {
    && (forall db :: NamesDatabase(alias.sourcePath, db) ==> database == Some(db))
    && ((forall db :: !NamesDatabase(alias.sourcePath, db)) ==>
          && (forall db :: NamesDatabase(alias.targetPath, db) ==> database == Some(db))
          && ((forall db :: !NamesDatabase(alias.targetPath, db)) ==>
                database == Some(NameOrUnknown(match alias.databaseName case Some(own) => own case None => ""))))
  }

  /** The record made of a walked alias. */
  ghost predicate MadeOfAlias(catalog: Catalog, alias: AliasRecord, r: AliasRecord) {
    && r.targetPath == alias.targetPath && r.diskGroup == alias.diskGroup
    && (forall info :: IsFileOf(catalog, alias, info) ==> AsReported(info, r))
    && ((forall info :: !IsFileOf(catalog, alias, info)) ==>
          r.fileType == alias.fileType && r.sourcePath == alias.sourcePath && FiledByPath(alias, r.databaseName))
    && (Truthy(alias.pdbGuid) ==> r.pdbGuid == alias.pdbGuid)
    && (!Truthy(alias.pdbGuid) ==> forall g :: r.pdbGuid == Some(g) <==> HoldsGuid(r.sourcePath, g))
  }

  predicate IsFirstSegment(parts: seq<string>, i: int) {
    0 <= i < |parts| && parts[i] != "" && forall k :: 0 <= k < i ==> parts[k] == ""
  }

  /** The disk group that a file's path starts in: its first non-empty segment when that starts with a plus sign, else
      the destination. */
  ghost predicate GroupOfFile(rawPath: string, dest: string, group: string) {
    var parts := Split(rawPath, '/');
    if exists i :: IsFirstSegment(parts, i) && parts[i][0] == '+'
    then exists i :: IsFirstSegment(parts, i) && group == parts[i]
    else group == dest
  }

  /** The record made of a file that no alias mentions. */
  ghost predicate MadeOfFile(dest: string, info: FileInfo, r: AliasRecord) {
    && AsReported(info, r) && r.targetPath == dest && GroupOfFile(info.rawPath, dest, r.diskGroup)
    && forall g :: r.pdbGuid == Some(g) <==> HoldsGuid(info.rawPath, g)
  }

  lemma FileIsEntry(catalog: Catalog, alias: AliasRecord)
    requires WellKeyed(catalog)
    ensures forall info :: IsFileOf(catalog, alias, info) <==> CatalogEntry(catalog, alias) == Some(info)
  {
    forall info ensures IsFileOf(catalog, alias, info) <==> CatalogEntry(catalog, alias) == Some(info) {
      CatalogEntryExact(catalog, alias, info);
    }
  }

  lemma NamedMeansNonEmpty(path: string)
    ensures !NamesDatabase(path, "")
  {
  }

  lemma EnrichedDatabaseByPath(catalog: Catalog, alias: AliasRecord)
    requires CatalogEntry(catalog, alias).None?
    ensures FiledByPath(alias, Some(EnrichedDatabase(catalog, alias)))
  {
    forall db ensures DatabaseNameFromPath(alias.sourcePath) == Some(db) <==> NamesDatabase(alias.sourcePath, db) {
      DatabaseNameExact(alias.sourcePath, db);
    }
    forall db ensures DatabaseNameFromPath(alias.targetPath) == Some(db) <==> NamesDatabase(alias.targetPath, db) {
      DatabaseNameExact(alias.targetPath, db);
    }
    NamedMeansNonEmpty(alias.sourcePath);
    NamedMeansNonEmpty(alias.targetPath);
  }

  lemma GuidByPath(path: string)
    ensures forall g :: PdbGuidFromPath(path) == Some(g) <==> HoldsGuid(path, g)
  {
    forall g ensures PdbGuidFromPath(path) == Some(g) <==> HoldsGuid(path, g) { PathGuidExact(path, g); }
  }

  lemma WalkedRecordExact(catalog: Catalog, alias: AliasRecord)
    requires WellKeyed(catalog)
    ensures MadeOfAlias(catalog, alias, WalkedRecord(catalog, alias))
  {
    FileIsEntry(catalog, alias);
    GuidByPath(EnrichedSource(catalog, alias));
    if CatalogEntry(catalog, alias).None? {
      EnrichedDatabaseByPath(catalog, alias);
    } else {
      assert IsFileOf(catalog, alias, CatalogEntry(catalog, alias).value);
    }
  }

  lemma GroupExact(rawPath: string, dest: string)
    ensures GroupOfFile(rawPath, dest, DiskGroupOr(rawPath, dest))
  {
    var parts, kept := Split(rawPath, '/'), Segments(rawPath);
    if kept != [] {
      var i := FirstKept(NonBlank, parts);
      assert IsFirstSegment(parts, i) && kept[0] == parts[i];
      PlusInFront(parts[i]);
      forall k | IsFirstSegment(parts, k) ensures k == i { assert k < i || k == i || i < k; }
    } else {
      FilterMembers(NonBlank, parts);
      assert forall i :: 0 <= i < |parts| ==> parts[i] in parts;
    }
  }

  lemma FileRecordExact(dest: string, info: FileInfo)
    ensures MadeOfFile(dest, info, FileRecord(dest, info))
  {
    GuidByPath(info.rawPath);
    GroupExact(info.rawPath, dest);
  }

  lemma WalkedAt(walked: seq<AliasRecord>, catalog: Catalog, rest: seq<AliasRecord>, i: nat)
    requires i < |walked|
    ensures (WalkedRecords(walked, catalog) + rest)[i] == WalkedRecord(catalog, walked[i])
  {
    assert WalkedRecords(walked, catalog)[i] == RecordOf(catalog)(walked[i]);
  }

  lemma FileAt(first: seq<AliasRecord>, files: Catalog, dest: string, j: nat)
    requires j < |files|
    ensures (first + FileRecords(files, dest))[|first| + j] == FileRecord(dest, files[j].1)
  {
  }

  lemma RecordPositions(walked: seq<AliasRecord>, catalog: Catalog, files: Catalog, dest: string, i: nat)
    requires i < |walked| + |files|
    ensures var r := (WalkedRecords(walked, catalog) + FileRecords(files, dest))[i];
            if i < |walked| then r == WalkedRecord(catalog, walked[i]) else r == FileRecord(dest, files[i - |walked|].1)
  {
    if i < |walked| {
      WalkedAt(walked, catalog, FileRecords(files, dest), i);
    } else {
      FileAt(WalkedRecords(walked, catalog), files, dest, i - |walked|);
    }
  }

  lemma StandaloneIsListed(walked: seq<AliasRecord>, catalog: Catalog, j: nat)
    requires j < |StandaloneFiles(walked, catalog)|
    ensures Listed(catalog, StandaloneFiles(walked, catalog)[j].1)
  {
    var p := Standalone(MatchedKeys(walked));
    FilterMembers(p, catalog);
    assert Filter(p, catalog)[j] in Filter(p, catalog);
    var k :| 0 <= k < |catalog| && catalog[k] == Filter(p, catalog)[j];
  }

  ghost predicate MadeOfSomeFile(catalog: Catalog, dest: string, r: AliasRecord) {
    exists info :: Listed(catalog, info) && MadeOfFile(dest, info, r)
  }

  lemma FileMade(catalog: Catalog, dest: string, info: FileInfo)
    requires Listed(catalog, info)
    ensures MadeOfSomeFile(catalog, dest, FileRecord(dest, info))
  {
    FileRecordExact(dest, info);
  }

  /** Both loops, record by record: the first ones are made of the walked aliases, in order, and the others of catalog
      files. */
  lemma EnrichedExactly(walked: seq<AliasRecord>, catalog: Catalog, dest: string, i: nat)
    requires WellKeyed(catalog) && i < |EnrichedRecords(walked, catalog, dest)|
    ensures var r := EnrichedRecords(walked, catalog, dest)[i];
            if i < |walked| then MadeOfAlias(catalog, walked[i], r) else MadeOfSomeFile(catalog, dest, r)
  {
    RecordPositions(walked, catalog, StandaloneFiles(walked, catalog), dest, i);
    if i < |walked| {
      WalkedRecordExact(catalog, walked[i]);
    } else {
      StandaloneIsListed(walked, catalog, i - |walked|);
      FileMade(catalog, dest, StandaloneFiles(walked, catalog)[i - |walked|].1);
    }
  }

  // ---------------------------------------------------------------- partition and conservation

  /** A walked record's source is matched: it is the alias's own path or a catalog path that equals it up
      to case and surrounding space. */
  lemma WalkedSourceIsMatched(walked: seq<AliasRecord>, catalog: Catalog, i: nat)
    requires WellKeyed(catalog) && i < |walked|
    ensures NormPath(WalkedRecord(catalog, walked[i]).sourcePath) in MatchedKeys(walked)
  {
    var src, tgt := NormPath(walked[i].sourcePath), NormPath(walked[i].targetPath);
    var entry := CatalogEntry(catalog, walked[i]);
    if entry.Some? {
      var k := if Get(catalog, src).Some? then src else tgt;
      var j :| 0 <= j < |catalog| && catalog[j] == (k, entry.value);
      assert NormPath(entry.value.rawPath) == k;
    }
  }

  lemma {:induction false} FilteredDict(p: ((string, FileInfo)) -> bool, catalog: Catalog)
    requires WellKeyed(catalog)
    ensures WellKeyed(Filter(p, catalog))
  {
    if catalog != [] {
      var tail := catalog[1..];
      assert forall i :: 0 <= i < |tail| ==> tail[i] == catalog[i + 1];
      FilteredDict(p, tail);
      FilterMembers(p, tail);
      var rest := Filter(p, tail);
      forall j | 0 <= j < |rest| ensures rest[j].0 != catalog[0].0 {
        assert rest[j] in rest;
        assert rest[j] in tail;
        var i :| 0 <= i < |tail| && tail[i] == rest[j];
        assert catalog[i + 1] == rest[j];
      }
    }
  }

  function SourceKeys(records: seq<AliasRecord>): seq<string> {
    seq(|records|, i requires 0 <= i < |records| => NormPath(records[i].sourcePath))
  }

  lemma SourceKeysConcat(a: seq<AliasRecord>, b: seq<AliasRecord>)
    ensures SourceKeys(a + b) == SourceKeys(a) + SourceKeys(b)
  {
  }

  lemma FileSourceKeys(files: Catalog, dest: string)
    requires WellKeyed(files)
    ensures |SourceKeys(FileRecords(files, dest))| == |files|
    ensures forall j :: 0 <= j < |files| ==> SourceKeys(FileRecords(files, dest))[j] == files[j].0
  {
  }

  lemma WalkedSourceKeys(walked: seq<AliasRecord>, catalog: Catalog)
    requires WellKeyed(catalog)
    ensures |SourceKeys(WalkedRecords(walked, catalog))| == |walked|
    ensures forall i :: 0 <= i < |walked| ==> SourceKeys(WalkedRecords(walked, catalog))[i] in MatchedKeys(walked)
  {
    forall i | 0 <= i < |walked| ensures SourceKeys(WalkedRecords(walked, catalog))[i] in MatchedKeys(walked) {
      WalkedSourceIsMatched(walked, catalog, i);
    }
  }

  /** Matched keys in the first n places, then the keys of the given files in order. */
  ghost predicate LaidOut(keys: seq<string>, n: nat, matched: set<string>, files: Catalog) {
    && |keys| == n + |files| && WellKeyed(files)
    && (forall i :: 0 <= i < n ==> keys[i] in matched)
    && (forall j :: n <= j < |keys| ==> keys[j] == files[j - n].0)
  }

  lemma BothLaidOut(a: seq<AliasRecord>, matched: set<string>, files: Catalog, dest: string)
    requires WellKeyed(files) && forall i :: 0 <= i < |a| ==> SourceKeys(a)[i] in matched
    ensures LaidOut(SourceKeys(a + FileRecords(files, dest)), |a|, matched, files)
  {
    SourceKeysConcat(a, FileRecords(files, dest));
    FileSourceKeys(files, dest);
  }

  /** Walked sources carry matched keys; the others carry the keys of the standalone files, in order. */
  lemma SourceKeysExact(walked: seq<AliasRecord>, catalog: Catalog, dest: string)
    requires WellKeyed(catalog)
    ensures LaidOut(SourceKeys(EnrichedRecords(walked, catalog, dest)), |walked|, MatchedKeys(walked),
                    StandaloneFiles(walked, catalog))
  {
    FilteredDict(Standalone(MatchedKeys(walked)), catalog);
    WalkedSourceKeys(walked, catalog);
    BothLaidOut(WalkedRecords(walked, catalog), MatchedKeys(walked), StandaloneFiles(walked, catalog), dest);
  }

  lemma StandaloneMembers(walked: seq<AliasRecord>, catalog: Catalog)
    ensures var files, matched := StandaloneFiles(walked, catalog), MatchedKeys(walked);
            && (forall j :: 0 <= j < |files|
                 ==> files[j] in catalog && files[j].0 !in matched && !OmfPath(files[j].1.rawPath))
            && (forall e :: e in catalog && e.0 !in matched && !OmfPath(e.1.rawPath) ==> e in files)
  {
    var p := Standalone(MatchedKeys(walked));
    FilterMembers(p, catalog);
    var files := StandaloneFiles(walked, catalog);
    forall j | 0 <= j < |files| ensures files[j] in catalog && p(files[j]) {
      assert files[j] in files;
    }
    forall e | e in catalog && e.0 !in MatchedKeys(walked) && !OmfPath(e.1.rawPath) ensures e in files {
      assert p(e);
    }
  }

  predicate OnlyAt(keys: seq<string>, key: string, at: nat) {
    && at < |keys| && keys[at] == key
    && forall i :: 0 <= i < |keys| && i != at ==> keys[i] != key
  }

  lemma KeyFoundOnce(keys: seq<string>, n: nat, matched: set<string>, files: Catalog, j: nat)
    requires LaidOut(keys, n, matched, files) && j < |files| && files[j].0 !in matched
    ensures OnlyAt(keys, files[j].0, n + j)
  {
  }

  /** A file with an unmatched key yields its own record, and no other record has its key. */
  lemma FileEmittedOnce(a: seq<AliasRecord>, matched: set<string>, files: Catalog, dest: string, j: nat)
    requires WellKeyed(files) && j < |files| && files[j].0 !in matched
    requires forall i :: 0 <= i < |a| ==> SourceKeys(a)[i] in matched
    ensures var records := a + FileRecords(files, dest);
            |a| + j < |records| && records[|a| + j] == FileRecord(dest, files[j].1)
              && OnlyAt(SourceKeys(records), files[j].0, |a| + j)
  {
    BothLaidOut(a, matched, files, dest);
    KeyFoundOnce(SourceKeys(a + FileRecords(files, dest)), |a|, matched, files, j);
  }

  /** A catalog file that a walked alias mentions, or that OMF named, is not emitted by the second loop. */
  lemma OthersAreNotEmitted(walked: seq<AliasRecord>, catalog: Catalog, dest: string, e: nat)
    requires WellKeyed(catalog) && e < |catalog|
    requires catalog[e].0 in MatchedKeys(walked) || OmfPath(catalog[e].1.rawPath)
    ensures var keys := SourceKeys(EnrichedRecords(walked, catalog, dest));
            forall i :: |walked| <= i < |keys| ==> keys[i] != catalog[e].0
  {
    SourceKeysExact(walked, catalog, dest);
    StandaloneMembers(walked, catalog);
    var files := StandaloneFiles(walked, catalog);
    forall j | 0 <= j < |files| ensures files[j].0 != catalog[e].0 {
      var k :| 0 <= k < |catalog| && catalog[k] == files[j];
      assert k != e;
    }
  }

  /** The file's own record stands there, and no other record has the file's key. */
  predicate EmittedAt(records: seq<AliasRecord>, file: (string, FileInfo), dest: string, at: nat) {
    at < |records| && records[at] == FileRecord(dest, file.1) && OnlyAt(SourceKeys(records), file.0, at)
  }

  lemma FileEmitted(walked: seq<AliasRecord>, catalog: Catalog, dest: string, file: (string, FileInfo))
    returns (at: nat)
    requires WellKeyed(catalog) && file in StandaloneFiles(walked, catalog) && file.0 !in MatchedKeys(walked)
    ensures |walked| <= at && EmittedAt(EnrichedRecords(walked, catalog, dest), file, dest, at)
  {
    var files := StandaloneFiles(walked, catalog);
    var j :| 0 <= j < |files| && files[j] == file;
    at := |walked| + j;
    FilteredDict(Standalone(MatchedKeys(walked)), catalog);
    WalkedSourceKeys(walked, catalog);
    FileEmittedOnce(WalkedRecords(walked, catalog), MatchedKeys(walked), files, dest, j);
  }

  /** An unmatched catalog file whose name is not an OMF name is emitted exactly once, as the standalone
      record of that file. */
  lemma StandaloneEmittedOnce(walked: seq<AliasRecord>, catalog: Catalog, dest: string, e: nat) returns (at: nat)
    requires WellKeyed(catalog) && e < |catalog|
    requires catalog[e].0 !in MatchedKeys(walked) && !OmfPath(catalog[e].1.rawPath)
    ensures |walked| <= at && EmittedAt(EnrichedRecords(walked, catalog, dest), catalog[e], dest, at)
  {
    StandaloneMembers(walked, catalog);
    at := FileEmitted(walked, catalog, dest, catalog[e]);
  }

  /** The catalog is partitioned into files that a walked alias mentions, files left alone because OMF named
      them, and files that are emitted exactly once. */
  lemma CatalogPartition(walked: seq<AliasRecord>, catalog: Catalog, dest: string, e: nat)
    requires WellKeyed(catalog) && e < |catalog|
    ensures var keys := SourceKeys(EnrichedRecords(walked, catalog, dest));
            (exists at: nat :: |walked| <= at && OnlyAt(keys, catalog[e].0, at))
            <==> catalog[e].0 !in MatchedKeys(walked) && !OmfPath(catalog[e].1.rawPath)
  {
    if catalog[e].0 !in MatchedKeys(walked) && !OmfPath(catalog[e].1.rawPath) {
      var at := StandaloneEmittedOnce(walked, catalog, dest, e);
      assert OnlyAt(SourceKeys(EnrichedRecords(walked, catalog, dest)), catalog[e].0, at);
    } else {
      OthersAreNotEmitted(walked, catalog, dest, e);
    }
  }

  /** One record and one row per walked alias and per standalone file; and no standalone source equals a
      walked one up to case and surrounding space. */
  lemma EnrichmentConserves(walked: seq<AliasRecord>, catalog: Catalog, guidPdbMap: Dict<string>, dest: string)
    requires WellKeyed(catalog)
    ensures var records := EnrichedRecords(walked, catalog, dest);
            && |records| == |EnrichedRows(walked, catalog, guidPdbMap, dest)|
               == |walked| + |StandaloneFiles(walked, catalog)|
            && forall i, j :: 0 <= i < |walked| <= j < |records| ==> SourceKeys(records)[i] != SourceKeys(records)[j]
  {
    SourceKeysExact(walked, catalog, dest);
    StandaloneMembers(walked, catalog);
    var files, keys := StandaloneFiles(walked, catalog), SourceKeys(EnrichedRecords(walked, catalog, dest));
    assert forall j :: |walked| <= j < |keys| ==> keys[j] == files[j - |walked|].0;
  }

  // ---------------------------------------------------------------- how often a file is moved

  /** The file that a walked alias stands for: its source if the catalog knows it, else its target if the catalog
      knows that, else its source. */
  function MovedFile(catalog: Catalog, alias: AliasRecord): string {
    if !HasKey(catalog, NormPath(alias.sourcePath)) && HasKey(catalog, NormPath(alias.targetPath))
    then NormPath(alias.targetPath)
    else NormPath(alias.sourcePath)
  }

  lemma WalkedKeyIsMovedFile(catalog: Catalog, alias: AliasRecord)
    requires WellKeyed(catalog)
    ensures NormPath(WalkedRecord(catalog, alias).sourcePath) == MovedFile(catalog, alias)
  {
    var entry := CatalogEntry(catalog, alias);
    if entry.Some? {
      var k := MovedFile(catalog, alias);
      var i :| 0 <= i < |catalog| && catalog[i] == (k, entry.value);
    }
  }

  ghost predicate DifferentFiles(walked: seq<AliasRecord>, catalog: Catalog) {
    forall i, j :: 0 <= i < j < |walked| ==> MovedFile(catalog, walked[i]) != MovedFile(catalog, walked[j])
  }

  lemma LaidOutDistinct(keys: seq<string>, n: nat, matched: set<string>, files: Catalog)
    requires LaidOut(keys, n, matched, files)
    requires forall j :: 0 <= j < |files| ==> files[j].0 !in matched
    ensures Distinct(keys) <==> Distinct(keys[..n])
  {
    if Distinct(keys[..n]) {
      forall i, j | 0 <= i < j < |keys| ensures keys[i] != keys[j] {
        if j < n {
          assert keys[..n][i] != keys[..n][j];
        } else if i >= n {
          assert files[i - n].0 != files[j - n].0;
        }
      }
    }
    if Distinct(keys) {
      forall i, j | 0 <= i < j < n ensures keys[..n][i] != keys[..n][j] {
        assert keys[i] != keys[j];
      }
    }
  }

  lemma WalkedKeysFirst(walked: seq<AliasRecord>, catalog: Catalog, dest: string, i: nat)
    requires WellKeyed(catalog) && i < |walked|
    ensures |SourceKeys(EnrichedRecords(walked, catalog, dest))| >= |walked|
    ensures SourceKeys(EnrichedRecords(walked, catalog, dest))[i] == MovedFile(catalog, walked[i])
  {
    WalkedKeyIsMovedFile(catalog, walked[i]);
  }

  lemma FirstKeysDistinct(keys: seq<string>, walked: seq<AliasRecord>, catalog: Catalog)
    requires |keys| == |walked| && forall i :: 0 <= i < |keys| ==> keys[i] == MovedFile(catalog, walked[i])
    ensures Distinct(keys) <==> DifferentFiles(walked, catalog)
  {
    if Distinct(keys) {
      forall i, j | 0 <= i < j < |walked| ensures MovedFile(catalog, walked[i]) != MovedFile(catalog, walked[j]) {
        assert keys[i] != keys[j];
      }
    }
  }

  /** No two records have the same source, up to case and outer space, if and only if no two walked aliases stand for
      the same file. */
  lemma SourcesDistinctExactly(walked: seq<AliasRecord>, catalog: Catalog, dest: string)
    requires WellKeyed(catalog)
    ensures Distinct(SourceKeys(EnrichedRecords(walked, catalog, dest))) <==> DifferentFiles(walked, catalog)
  {
    var keys, n := SourceKeys(EnrichedRecords(walked, catalog, dest)), |walked|;
    SourceKeysExact(walked, catalog, dest);
    StandaloneMembers(walked, catalog);
    LaidOutDistinct(keys, n, MatchedKeys(walked), StandaloneFiles(walked, catalog));
    forall i | 0 <= i < n ensures keys[..n][i] == MovedFile(catalog, walked[i]) {
      WalkedKeysFirst(walked, catalog, dest, i);
    }
    FirstKeysDistinct(keys[..n], walked, catalog);
  }

  /** Aliases of one catalog file are all given that file as their source. */
  lemma SharedTarget(info: FileInfo, a: AliasRecord, b: AliasRecord, dest: string)
    requires SameFile(a.targetPath, info.rawPath) && SameFile(b.targetPath, info.rawPath)
    requires !SameFile(a.sourcePath, info.rawPath) && !SameFile(b.sourcePath, info.rawPath)
    ensures var records := EnrichedRecords([a, b], [(NormPath(info.rawPath), info)], dest);
            |records| >= 2 && records[0].sourcePath == records[1].sourcePath == info.rawPath
  {
    var catalog := [(NormPath(info.rawPath), info)];
    assert CatalogEntry(catalog, a) == Some(info) && CatalogEntry(catalog, b) == Some(info);
    assert EnrichedRecords([a, b], catalog, dest)[0] == WalkedRecord(catalog, a);
    assert EnrichedRecords([a, b], catalog, dest)[1] == WalkedRecord(catalog, b);
  }

  function AliasTo(source: string, target: string): AliasRecord {
    AliasRecord(DATAFILE, source, target, None, "+D", Some("D"))
  }

  lemma ShortPathsDiffer(x: char, y: char)
    requires 'a' <= x <= 'z' && 'a' <= y <= 'z' && x != y
    ensures !SameFile("+D/" + [x], "+D/" + [y])
  {
    StripTrimmed("+D/" + [x]);
    StripTrimmed("+D/" + [y]);
    assert Casefold("+D/" + [x])[3] == x && Casefold("+D/" + [y])[3] == y;
  }

  /** Concretely: two aliases with different sources, one catalog file, and that file moved twice. */
  lemma SharedTargetMovedTwice(dest: string)
    ensures var info := FileInfo(CDB_ROOT, "DATAFILE", "D", "+D/" + "t");
            var a, b := AliasTo("+D/" + "a", "+D/" + "t"), AliasTo("+D/" + "b", "+D/" + "t");
            var records := EnrichedRecords([a, b], [(NormPath(info.rawPath), info)], dest);
            && !SameFile(a.sourcePath, b.sourcePath)
            && |records| >= 2 && records[0].sourcePath == records[1].sourcePath == info.rawPath
  {
    ShortPathsDiffer('a', 'b');
    ShortPathsDiffer('a', 't');
    ShortPathsDiffer('b', 't');
    SharedTarget(FileInfo(CDB_ROOT, "DATAFILE", "D", "+D/" + "t"),
                 AliasTo("+D/" + "a", "+D/" + "t"), AliasTo("+D/" + "b", "+D/" + "t"), dest);
  }

  // ---------------------------------------------------------------- rows against records

  predicate RowDescribes(row: ScanAlias, r: AliasRecord) {
    && row.fileType == r.fileType && row.sourcePath == r.sourcePath && row.targetPath == r.targetPath
    && row.pdbGuid == r.pdbGuid && Some(row.databaseName) == r.databaseName
  }

  lemma AlwaysNamed(name: Option<string>)
    ensures OrUnknown(name) != ""
  {
  }

  lemma WalkedRowDescribes(catalog: Catalog, guidPdbMap: Dict<string>, alias: AliasRecord)
    ensures RowDescribes(WalkedRow(catalog, guidPdbMap, alias), WalkedRecord(catalog, alias))
    ensures Truthy(WalkedRecord(catalog, alias).databaseName)
  {
    var name := EnrichedDatabase(catalog, alias);
    assert name != "" by {
      match CatalogEntry(catalog, alias)
      case Some(info) => AlwaysNamed(Some(info.database));
      case None =>
        AlwaysNamed(Either(Either(DatabaseNameFromPath(alias.sourcePath), DatabaseNameFromPath(alias.targetPath)),
                           alias.databaseName));
    }
  }

  lemma FileRowDescribes(dest: string, info: FileInfo)
    ensures RowDescribes(FileRow(dest, info), FileRecord(dest, info)) && Truthy(FileRecord(dest, info).databaseName)
  {
    AlwaysNamed(Some(info.database));
  }

  ghost predicate AllDescribe(rows: seq<ScanAlias>, records: seq<AliasRecord>) {
    && |rows| == |records|
    && forall i :: 0 <= i < |rows| ==> RowDescribes(rows[i], records[i]) && Truthy(records[i].databaseName)
  }

  lemma AllDescribeConcat(a: seq<ScanAlias>, b: seq<ScanAlias>, c: seq<AliasRecord>, d: seq<AliasRecord>)
    requires AllDescribe(a, c) && AllDescribe(b, d)
    ensures AllDescribe(a + b, c + d)
  {
  }

  lemma WalkedRowsDescribe(walked: seq<AliasRecord>, catalog: Catalog, guidPdbMap: Dict<string>)
    ensures AllDescribe(WalkedRows(walked, catalog, guidPdbMap), WalkedRecords(walked, catalog))
  {
    var rows, records := WalkedRows(walked, catalog, guidPdbMap), WalkedRecords(walked, catalog);
    forall i | 0 <= i < |rows| ensures RowDescribes(rows[i], records[i]) && Truthy(records[i].databaseName) {
      WalkedRowDescribes(catalog, guidPdbMap, walked[i]);
    }
  }

  lemma FileRowsDescribe(files: Catalog, dest: string)
    ensures AllDescribe(FileRows(files, dest), FileRecords(files, dest))
  {
    var rows, records := FileRows(files, dest), FileRecords(files, dest);
    forall i | 0 <= i < |rows| ensures RowDescribes(rows[i], records[i]) && Truthy(records[i].databaseName) {
      FileRowDescribes(dest, files[i].1);
    }
  }

  /** Rows and records pair off in order and describe the same files; every database is named. */
  lemma RowsDescribeRecords(walked: seq<AliasRecord>, catalog: Catalog, guidPdbMap: Dict<string>, dest: string)
    ensures AllDescribe(EnrichedRows(walked, catalog, guidPdbMap, dest), EnrichedRecords(walked, catalog, dest))
  {
    var files := StandaloneFiles(walked, catalog);
    WalkedRowsDescribe(walked, catalog, guidPdbMap);
    FileRowsDescribe(files, dest);
    AllDescribeConcat(WalkedRows(walked, catalog, guidPdbMap), FileRows(files, dest), WalkedRecords(walked, catalog),
                      FileRecords(files, dest));
  }
}
