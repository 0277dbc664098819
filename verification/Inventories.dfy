/** Aliases of an inventory and of a whole scan (asm_cleanup/walk/asm_inventory.py and
    `_walk_asm_aliases` in asm_cleanup/services/scan_service.py). */
module Inventories {
  import opened Wrappers
  import opened Sequences
  import opened Text
  import opened AliasRecords
  import opened FirstOccurrence
  import opened Transcript

  function TypeName(t: FileType): string {
    match t
    case DATAFILE => "FileType.DATAFILE"
    case TEMPFILE => "FileType.TEMPFILE"
  }

  function JoinKey(kind: string, source: string, target: string): string {
    kind + "|" + source + "|" + target
  }

  function AliasKey(r: AliasRecord): string {
    JoinKey(TypeName(r.fileType), Casefold(r.sourcePath), Casefold(r.targetPath))
  }

  /** What a row in the listing of a directory yields. */
  function AliasIn(matcher: RowMatcher, d: Listing): string -> Option<AliasRecord> {
    (row: string) => FromListingLine(matcher, RStripSlashes(d.path), row)
  }

  function ListingAliases(matcher: RowMatcher, d: Listing): seq<AliasRecord> {
    Collect(AliasIn(matcher, d), d.longLines)
  }

  method ExtractListingAliases(matcher: RowMatcher, d: Listing) returns (results: seq<AliasRecord>)
    ensures results == ListingAliases(matcher, d)
  {
    results := [];
    var base := RStripSlashes(d.path);
    for i := 0 to |d.longLines|
      invariant results == Collect(AliasIn(matcher, d), d.longLines[..i])
    {
      CollectStep(AliasIn(matcher, d), d.longLines, i);
      var record := FromListingLine(matcher, base, d.longLines[i]);
      if record.Some? { results := results + [record.value]; }
    }
    assert d.longLines[..|d.longLines|] == d.longLines;
  }

  function ListingAliasesOf(matcher: RowMatcher): Listing -> seq<AliasRecord> {
    (d: Listing) => ListingAliases(matcher, d)
  }

  /** All aliases of the listings, in order, duplicates included. */
  function RawAliases(matcher: RowMatcher, dirs: seq<Listing>): seq<AliasRecord> {
    Flatten(Map(ListingAliasesOf(matcher), dirs))
  }

  lemma ListingStep(matcher: RowMatcher, dirs: seq<Listing>, i: nat)
    requires i < |dirs|
    ensures RawAliases(matcher, dirs[..i + 1]) == RawAliases(matcher, dirs[..i]) + ListingAliases(matcher, dirs[i])
  {
    MapAppend(ListingAliasesOf(matcher), dirs, i);
    FlattenAppend(Map(ListingAliasesOf(matcher), dirs[..i]), ListingAliases(matcher, dirs[i]));
  }

  function Aliases(matcher: RowMatcher, inv: Inventory): seq<AliasRecord> {
    Dedup(AliasKey, RawAliases(matcher, inv.directories))
  }

  method ExtractAliases(matcher: RowMatcher, inv: Inventory) returns (results: seq<AliasRecord>)
    ensures results == Aliases(matcher, inv)
  {
    var dirs := inv.directories;
    results := [];
    var seen: set<string> := {};
    for i := 0 to |dirs|
      invariant results == Dedup(AliasKey, RawAliases(matcher, dirs[..i]))
      invariant seen == KeysOf(AliasKey, RawAliases(matcher, dirs[..i]))
    {
      ListingStep(matcher, dirs, i);
      var found := ExtractListingAliases(matcher, dirs[i]);
      results, seen := AppendUnseen(AliasKey, found, results, seen, RawAliases(matcher, dirs[..i]));
    }
    assert dirs[..|dirs|] == dirs;
  }

  // ---------------------------------------------------------------- which aliases are extracted

  /** An alias comes from a listing when a row of it yields it. */
  ghost predicate Yields(matcher: RowMatcher, d: Listing, r: AliasRecord) {
    exists row :: row in d.longLines && AliasIn(matcher, d)(row) == Some(r)
  }

  lemma RawAliasesExact(matcher: RowMatcher, dirs: seq<Listing>, r: AliasRecord)
    ensures r in RawAliases(matcher, dirs) <==> exists d :: d in dirs && Yields(matcher, d, r)
  {
    var rss := Map(ListingAliasesOf(matcher), dirs);
    FlattenMembers(rss, r);
    if r in RawAliases(matcher, dirs) {
      var rs :| rs in rss && r in rs;
      var i :| 0 <= i < |dirs| && rss[i] == rs;
      CollectMembers(AliasIn(matcher, dirs[i]), dirs[i].longLines, r);
      assert dirs[i] in dirs && Yields(matcher, dirs[i], r);
    }
    if d :| d in dirs && Yields(matcher, d, r) {
      var i :| 0 <= i < |dirs| && dirs[i] == d;
      CollectMembers(AliasIn(matcher, d), d.longLines, r);
      assert rss[i] in rss;
    }
  }

  /** The alias stems from a row of one of the listings: the row matches and the alias is what its captures stand
      for. */
  ghost predicate Stems(matcher: RowMatcher, dirs: seq<Listing>, r: AliasRecord) {
    exists d, row :: d in dirs && row in d.longLines && matcher(Strip(row)).Some?
      && StandsFor(d.path, matcher(Strip(row)).value, r)
  }

  lemma RowStands(matcher: RowMatcher, d: Listing, row: string)
    ensures var r := AliasIn(matcher, d)(row);
            && (r.Some? <==> matcher(Strip(row)).Some?)
            && (r.Some? ==> StandsFor(d.path, matcher(Strip(row)).value, r.value))
  {
    var slashes := RStripSlashesExact(d.path);
    ListingLineExact(matcher, RStripSlashes(d.path), row);
  }

  lemma RawAliasesStem(matcher: RowMatcher, dirs: seq<Listing>, r: AliasRecord)
    requires r in RawAliases(matcher, dirs)
    ensures Stems(matcher, dirs, r)
  {
    RawAliasesExact(matcher, dirs, r);
    var d :| d in dirs && Yields(matcher, d, r);
    var row :| row in d.longLines && AliasIn(matcher, d)(row) == Some(r);
    RowStands(matcher, d, row);
  }

  lemma MatchingRowYields(matcher: RowMatcher, dirs: seq<Listing>, d: Listing, row: string) returns (r: AliasRecord)
    requires d in dirs && row in d.longLines && matcher(Strip(row)).Some?
    ensures r in RawAliases(matcher, dirs) && StandsFor(d.path, matcher(Strip(row)).value, r)
  {
    RowStands(matcher, d, row);
    r := AliasIn(matcher, d)(row).value;
    assert Yields(matcher, d, r);
    RawAliasesExact(matcher, dirs, r);
  }

  lemma KeptRepresentative(raw: seq<AliasRecord>, r: AliasRecord) returns (kept: AliasRecord)
    requires r in raw
    ensures kept in Dedup(AliasKey, raw) && AliasKey(kept) == AliasKey(r)
  {
    DedupKeepsFirsts(AliasKey, raw);
    var i :| 0 <= i < |raw| && raw[i] == r;
    if IsFirst(AliasKey, raw, i) {
      kept := r;
    } else {
      var j :| 0 <= j < i && IsFirst(AliasKey, raw, j) && AliasKey(raw[j]) == AliasKey(raw[i]);
      kept := raw[j];
    }
  }

  /** Every extracted alias stems from a matching row, with type, paths, GUID, database and disk group as its captures
      and paths say; and every matching row has its alias, or one with the same key, among the extracted. */
  lemma ExtractedExactly(matcher: RowMatcher, inv: Inventory)
    ensures forall r :: r in Aliases(matcher, inv) ==> Stems(matcher, inv.directories, r)
    ensures forall d, row :: d in inv.directories && row in d.longLines && matcher(Strip(row)).Some? ==>
              exists r, kept :: StandsFor(d.path, matcher(Strip(row)).value, r)
                                && kept in Aliases(matcher, inv) && AliasKey(kept) == AliasKey(r)
  {
    var raw := RawAliases(matcher, inv.directories);
    DedupKeepsFirsts(AliasKey, raw);
    forall r | r in Aliases(matcher, inv) ensures Stems(matcher, inv.directories, r) {
      RawAliasesStem(matcher, inv.directories, r);
    }
    forall d, row | d in inv.directories && row in d.longLines && matcher(Strip(row)).Some?
      ensures exists r, kept :: StandsFor(d.path, matcher(Strip(row)).value, r)
                                && kept in Aliases(matcher, inv) && AliasKey(kept) == AliasKey(r)
    {
      var r := MatchingRowYields(matcher, inv.directories, d, row);
      var kept := KeptRepresentative(raw, r);
    }
  }

  // ---------------------------------------------------------------- row counts

  predicate IsWordChar(c: char) {
    IsLetter(c) || IsDigit(c) || c == '_'
  }

  /** `^(DATAFILE|TEMPFILE)\b.*$` on a trimmed row. */
  predicate IsFileText(text: string) {
    && (StartsWith(text, "DATAFILE") || StartsWith(text, "TEMPFILE"))
    && (|text| == 8 || !IsWordChar(text[8]))
    && '\n' !in text
  }

  predicate IsFileRow(row: string) {
    IsFileText(Strip(row))
  }

  predicate IsAliasRow(row: string) {
    IsFileRow(row) && Contains(Strip(row), "=>")
  }

  function RowsOf(d: Listing): seq<string> {
    d.longLines
  }

  /** All rows of all listings. */
  function AllRows(dirs: seq<Listing>): seq<string> {
    Flatten(Map(RowsOf, dirs))
  }

  lemma RowsStep(dirs: seq<Listing>, i: nat)
    requires i < |dirs|
    ensures AllRows(dirs[..i + 1]) == AllRows(dirs[..i]) + dirs[i].longLines
  {
    MapAppend(RowsOf, dirs, i);
    FlattenAppend(Map(RowsOf, dirs[..i]), dirs[i].longLines);
  }

  lemma OneMoreRow(rows: seq<string>, row: string)
    ensures |Filter(IsFileRow, rows + [row])| == |Filter(IsFileRow, rows)| + if IsFileRow(row) then 1 else 0
    ensures |Filter(IsAliasRow, rows + [row])| == |Filter(IsAliasRow, rows)| + if IsAliasRow(row) then 1 else 0
  {
    FilterAppend(IsFileRow, rows, row);
    FilterAppend(IsAliasRow, rows, row);
  }

  /** The inner loop: the rows of one listing. */
  method CountRows(rows: seq<string>, files: nat, arrows: nat, ghost before: seq<string>)
    returns (filesExamined: nat, aliasRows: nat)
    requires files == |Filter(IsFileRow, before)| && arrows == |Filter(IsAliasRow, before)| && arrows <= files
    ensures filesExamined == |Filter(IsFileRow, before + rows)| && aliasRows == |Filter(IsAliasRow, before + rows)|
    ensures aliasRows <= filesExamined
  {
    filesExamined, aliasRows := files, arrows;
    ghost var all := before;
    EmptyEnds(before);
    for i := 0 to |rows|
      invariant all == before + rows[..i] && aliasRows <= filesExamined
      invariant filesExamined == |Filter(IsFileRow, all)| && aliasRows == |Filter(IsAliasRow, all)|
    {
      OneMoreRow(all, rows[i]);
      assert rows[..i + 1] == rows[..i] + [rows[i]];
      Associative(before, rows[..i], [rows[i]]);
      all := all + [rows[i]];
      var text := Strip(rows[i]);
      if IsFileText(text) {
        filesExamined := filesExamined + 1;
        if Contains(text, "=>") { aliasRows := aliasRows + 1; }
      }
    }
    assert rows[..|rows|] == rows;
  }

  /** `summarize_listing_stats`: file rows, and those among them with an arrow. */
  method SummarizeListingStats(inv: Inventory) returns (filesExamined: nat, aliasRows: nat)
    ensures filesExamined == |Filter(IsFileRow, AllRows(inv.directories))|
    ensures aliasRows == |Filter(IsAliasRow, AllRows(inv.directories))|
    ensures aliasRows <= filesExamined
  {
    var dirs := inv.directories;
    filesExamined, aliasRows := 0, 0;
    ghost var all: seq<string> := [];
    for i := 0 to |dirs|
      invariant all == AllRows(dirs[..i]) && aliasRows <= filesExamined
      invariant filesExamined == |Filter(IsFileRow, all)| && aliasRows == |Filter(IsAliasRow, all)|
    {
      RowsStep(dirs, i);
      filesExamined, aliasRows := CountRows(dirs[i].longLines, filesExamined, aliasRows, all);
      all := all + dirs[i].longLines;
    }
    assert dirs[..|dirs|] == dirs;
  }

  // ---------------------------------------------------------------- the scan's walk over all paths

  /** One walk of a path: its inventory, or None when it raises. */
  type PathWalk = string -> Option<Inventory>

  function Walked(walk: PathWalk, paths: seq<string>): seq<Inventory> {
    Collect(walk, paths)
  }

  function Fails(walk: PathWalk): string -> bool {
    (p: string) => walk(p).None?
  }

  function FailedPaths(walk: PathWalk, paths: seq<string>): seq<string> {
    Filter(Fails(walk), paths)
  }

  function AliasesOf(matcher: RowMatcher): Inventory -> seq<AliasRecord> {
    (inv: Inventory) => Aliases(matcher, inv)
  }

  function RawAliasesOf(matcher: RowMatcher): Inventory -> seq<AliasRecord> {
    (inv: Inventory) => RawAliases(matcher, inv.directories)
  }

  lemma WalkedMore(matcher: RowMatcher, walked: seq<Inventory>, inv: Inventory)
    ensures Flatten(Map(AliasesOf(matcher), walked + [inv]))
            == Flatten(Map(AliasesOf(matcher), walked)) + Aliases(matcher, inv)
  {
    MapConcat(AliasesOf(matcher), walked, [inv]);
    assert Map(AliasesOf(matcher), [inv]) == [Aliases(matcher, inv)];
    FlattenAppend(Map(AliasesOf(matcher), walked), Aliases(matcher, inv));
  }

  lemma PathStep(matcher: RowMatcher, walk: PathWalk, paths: seq<string>, i: nat)
    requires i < |paths|
    ensures var before := Flatten(Map(AliasesOf(matcher), Walked(walk, paths[..i])));
            var after := Flatten(Map(AliasesOf(matcher), Walked(walk, paths[..i + 1])));
            match walk(paths[i])
            case None =>
              after == before
              && FailedPaths(walk, paths[..i + 1]) == FailedPaths(walk, paths[..i]) + [paths[i]]
            case Some(inv) =>
              after == before + Aliases(matcher, inv)
              && FailedPaths(walk, paths[..i + 1]) == FailedPaths(walk, paths[..i])
  {
    CollectStep(walk, paths, i);
    assert paths[..i + 1] == paths[..i] + [paths[i]];
    FilterAppend(Fails(walk), paths[..i], paths[i]);
    EmptyEnds(FailedPaths(walk, paths[..i]));
    if walk(paths[i]).Some? { WalkedMore(matcher, Walked(walk, paths[..i]), walk(paths[i]).value); }
  }

  datatype WalkAliasOutcome = WalkAliasOutcome(records: seq<AliasRecord>, pathsAttempted: nat, failedPaths: seq<string>)

  /** `_walk_asm_aliases` after scope resolution: a failing path is noted and the others go on. */
  method WalkAsmAliases(matcher: RowMatcher, walk: PathWalk, paths: seq<string>) returns (outcome: WalkAliasOutcome)
    ensures outcome.records == Dedup(AliasKey, Flatten(Map(AliasesOf(matcher), Walked(walk, paths))))
    ensures outcome.pathsAttempted == |paths| && outcome.failedPaths == FailedPaths(walk, paths)
  {
    var records: seq<AliasRecord> := [];
    var seen: set<string> := {};
    var failed: seq<string> := [];
    ghost var all: seq<AliasRecord> := [];
    for i := 0 to |paths|
      invariant all == Flatten(Map(AliasesOf(matcher), Walked(walk, paths[..i])))
      invariant records == Dedup(AliasKey, all) && seen == KeysOf(AliasKey, all)
      invariant failed == FailedPaths(walk, paths[..i])
    {
      PathStep(matcher, walk, paths, i);
      var inventory := walk(paths[i]);
      if inventory.None? {
        failed := failed + [paths[i]];
      } else {
        var aliases := ExtractAliases(matcher, inventory.value);
        records, seen := AppendUnseen(AliasKey, aliases, records, seen, all);
        all := all + aliases;
      }
    }
    assert paths[..|paths|] == paths;
    outcome := WalkAliasOutcome(records, |paths|, failed);
  }

  // ---------------------------------------------------------------- two layers are one

  /** Deduplicating per inventory and again across paths is one first-occurrence deduplication of all
      aliases of all paths that did not fail: distinct keys, and each dropped alias shares its key with
      an earlier kept one. */
  lemma LayersAreOneDedup(matcher: RowMatcher, walk: PathWalk, paths: seq<string>)
    ensures var every := Flatten(Map(RawAliasesOf(matcher), Walked(walk, paths)));
            var kept := Dedup(AliasKey, Flatten(Map(AliasesOf(matcher), Walked(walk, paths))));
            && kept == Dedup(AliasKey, every)
            && DistinctBy(AliasKey, kept)
            && (forall i :: 0 <= i < |every| && IsFirst(AliasKey, every, i) ==> every[i] in kept)
            && (forall i :: 0 <= i < |every| && !IsFirst(AliasKey, every, i) ==>
                 exists j :: 0 <= j < i && IsFirst(AliasKey, every, j) && AliasKey(every[j]) == AliasKey(every[i]))
  {
    var walked := Walked(walk, paths);
    var raw := Map(RawAliasesOf(matcher), walked);
    LayeredDedup(AliasKey, raw, {});
    assert Map((xs: seq<AliasRecord>) => Dedup(AliasKey, xs), raw) == Map(AliasesOf(matcher), walked);
    DedupKeepsFirsts(AliasKey, Flatten(raw));
  }

  // ---------------------------------------------------------------- what the key tells apart

  lemma TypeNamesDiffer(a: FileType, b: FileType)
    ensures TypeName(a) == TypeName(b) <==> a == b
    ensures '|' !in TypeName(a)
  {
    assert TypeName(DATAFILE)[9] == 'D' && TypeName(TEMPFILE)[9] == 'T';
  }

  lemma FoldKeepsBars(s: string)
    ensures '|' in Casefold(s) <==> '|' in s
  {
    if '|' in s {
      var i :| 0 <= i < |s| && s[i] == '|';
      assert Casefold(s)[i] == '|';
    }
    if '|' in Casefold(s) {
      var i :| 0 <= i < |s| && Casefold(s)[i] == '|';
      assert s[i] == '|';
    }
  }

  lemma KeyTail(kind: string, source: string, target: string)
    ensures JoinKey(kind, source, target) == kind + "|" + (source + "|" + target)
  {
  }

  /** What the key is meant to tell apart. */
  predicate SameAlias(a: AliasRecord, b: AliasRecord) {
    a.fileType == b.fileType && Casefold(a.sourcePath) == Casefold(b.sourcePath)
    && Casefold(a.targetPath) == Casefold(b.targetPath)
  }

  /** Keys agree exactly when type and folded paths agree, provided neither source holds a bar. */
  lemma KeyIsInjective(a: AliasRecord, b: AliasRecord)
    requires '|' !in a.sourcePath && '|' !in b.sourcePath
    ensures AliasKey(a) == AliasKey(b) <==> SameAlias(a, b)
  {
    TypeNamesDiffer(a.fileType, b.fileType);
    TypeNamesDiffer(b.fileType, a.fileType);
    FoldKeepsBars(a.sourcePath);
    FoldKeepsBars(b.sourcePath);
    if AliasKey(a) == AliasKey(b) {
      var sa, ta := Casefold(a.sourcePath), Casefold(a.targetPath);
      var sb, tb := Casefold(b.sourcePath), Casefold(b.targetPath);
      KeyTail(TypeName(a.fileType), sa, ta);
      KeyTail(TypeName(b.fileType), sb, tb);
      FirstPartUnique('|', TypeName(a.fileType), TypeName(b.fileType), sa + "|" + ta, sb + "|" + tb);
      FirstPartUnique('|', sa, sb, ta, tb);
    }
  }

  lemma OneBar(s: string, t: string, u: string, v: string)
    requires '|' !in s && '|' !in t && s + "|" + t == u + "|" + v
    ensures '|' !in u
  {
    var whole := s + "|" + t;
    assert whole[|s|] == '|' && whole[|u|] == '|';
    assert forall i :: 0 <= i < |s| ==> whole[i] == s[i] && s[i] in s;
    assert forall i :: |s| < i < |whole| ==> whole[i] == t[i - |s| - 1] && t[i - |s| - 1] in t;
    assert |u| == |s|;
    assert u == whole[..|s|] == s;
  }

  lemma BarFreeKeyDecides(a: AliasRecord, b: AliasRecord)
    requires '|' !in a.sourcePath && '|' !in a.targetPath && AliasKey(a) == AliasKey(b)
    ensures SameAlias(a, b)
  {
    var sa, ta := Casefold(a.sourcePath), Casefold(a.targetPath);
    var sb, tb := Casefold(b.sourcePath), Casefold(b.targetPath);
    TypeNamesDiffer(a.fileType, b.fileType);
    TypeNamesDiffer(b.fileType, a.fileType);
    FoldKeepsBars(a.sourcePath);
    FoldKeepsBars(a.targetPath);
    FoldKeepsBars(b.sourcePath);
    KeyTail(TypeName(a.fileType), sa, ta);
    KeyTail(TypeName(b.fileType), sb, tb);
    FirstPartUnique('|', TypeName(a.fileType), TypeName(b.fileType), sa + "|" + ta, sb + "|" + tb);
    OneBar(sa, ta, sb, tb);
    KeyIsInjective(a, b);
  }

  function WithPaths(a: AliasRecord, source: string, target: string): AliasRecord {
    a.(sourcePath := source, targetPath := target)
  }

  /** A bar can be taken for the one between source and target. */
  lemma BarShifts(a: AliasRecord, s: string, middle: string, t: string)
    ensures AliasKey(WithPaths(a, s + "|" + middle, t)) == AliasKey(WithPaths(a, s, middle + "|" + t))
    ensures !SameAlias(WithPaths(a, s + "|" + middle, t), WithPaths(a, s, middle + "|" + t))
  {
    CaseConcat(s + "|", middle);
    CaseConcat(s, "|");
    CaseConcat(middle + "|", t);
    CaseConcat(middle, "|");
    assert Casefold("|") == "|";
    var kind, fs, fm, ft := TypeName(a.fileType), Casefold(s), Casefold(middle), Casefold(t);
    KeyTail(kind, fs + "|" + fm, ft);
    KeyTail(kind, fs, fm + "|" + ft);
    assert fs + "|" + fm + "|" + ft == fs + "|" + (fm + "|" + ft);
    assert |fs + "|" + fm| > |fs|;
  }

  lemma SplitAt(s: string, i: nat)
    requires i < |s| && s[i] == '|'
    ensures s == s[..i] + "|" + s[i + 1..]
  {
  }

  /** The key of an alias belongs to no other alias if and only if neither its source nor its target holds a bar. */
  lemma KeyIdentifiesExactly(a: AliasRecord)
    ensures (forall b :: AliasKey(a) == AliasKey(b) ==> SameAlias(a, b))
            <==> '|' !in a.sourcePath && '|' !in a.targetPath
  {
    if '|' in a.sourcePath {
      var i :| 0 <= i < |a.sourcePath| && a.sourcePath[i] == '|';
      SplitAt(a.sourcePath, i);
      BarShifts(a, a.sourcePath[..i], a.sourcePath[i + 1..], a.targetPath);
      var b := WithPaths(a, a.sourcePath[..i], a.sourcePath[i + 1..] + "|" + a.targetPath);
      assert AliasKey(a) == AliasKey(b) && !SameAlias(a, b);
    } else if '|' in a.targetPath {
      var i :| 0 <= i < |a.targetPath| && a.targetPath[i] == '|';
      SplitAt(a.targetPath, i);
      BarShifts(a, a.sourcePath, a.targetPath[..i], a.targetPath[i + 1..]);
      var b := WithPaths(a, a.sourcePath + "|" + a.targetPath[..i], a.targetPath[i + 1..]);
      assert AliasKey(a) == AliasKey(b) && !SameAlias(a, b);
    } else {
      forall b | AliasKey(a) == AliasKey(b) ensures SameAlias(a, b) {
        BarFreeKeyDecides(a, b);
      }
    }
  }

  lemma SecondDropped(a: AliasRecord, b: AliasRecord)
    requires AliasKey(a) == AliasKey(b)
    ensures Dedup(AliasKey, [a, b]) == [a]
  {
    assert [a, b][1..] == [b] && [b][1..] == [];
    assert AliasKey(b) in {} + {AliasKey(a)};
    assert DedupFrom(AliasKey, [b], {} + {AliasKey(a)}) == [];
  }

  function SplitAtBar(source: string, target: string): AliasRecord {
    AliasRecord(DATAFILE, source, target, None, "+D", None)
  }

  /** With bars two different aliases can share a key, and the second is dropped. */
  lemma BarsCollide()
    ensures var a, b := SplitAtBar("x|y", "z"), SplitAtBar("x", "y|z");
            Casefold(a.sourcePath) != Casefold(b.sourcePath) && AliasKey(a) == AliasKey(b)
            && Dedup(AliasKey, [a, b]) == [a]
  {
    var a, b := SplitAtBar("x|y", "z"), SplitAtBar("x", "y|z");
    assert Casefold("x|y") == "x|y" && Casefold("x") == "x" && Casefold("z") == "z" && Casefold("y|z") == "y|z";
    assert |Casefold("x|y")| == 3 && |Casefold("x")| == 1;
    KeyTail(TypeName(DATAFILE), "x|y", "z");
    KeyTail(TypeName(DATAFILE), "x", "y|z");
    assert "x|y" + "|" + "z" == "x" + "|" + "y|z";
    assert AliasKey(a) == AliasKey(b);
    SecondDropped(a, b);
  }

  // ---------------------------------------------------------------- upper-case GUIDs

  lemma RawAliasesUpper(matcher: RowMatcher, dirs: seq<Listing>)
    ensures UpperGuids(RawAliases(matcher, dirs))
  {
    forall r | r in RawAliases(matcher, dirs) ensures UpperGuid(r) {
      RawAliasesExact(matcher, dirs, r);
      var d :| d in dirs && Yields(matcher, d, r);
      var row :| row in d.longLines && AliasIn(matcher, d)(row) == Some(r);
      ListingLineGuidIsUpper(matcher, RStripSlashes(d.path), row);
    }
  }

  lemma {:induction false} FlatUpper(rss: seq<seq<AliasRecord>>)
    requires forall i :: 0 <= i < |rss| ==> UpperGuids(rss[i])
    ensures UpperGuids(Flatten(rss))
  {
    if rss != [] { FlatUpper(rss[1..]); }
  }

  lemma DedupUpper(rs: seq<AliasRecord>)
    requires UpperGuids(rs)
    ensures UpperGuids(Dedup(AliasKey, rs))
  {
    DedupKeepsFirsts(AliasKey, rs);
  }

  /** Every alias that a scan walks carries an upper-case GUID or none. */
  lemma WalkedGuidsAreUpper(matcher: RowMatcher, walked: seq<Inventory>)
    ensures UpperGuids(Dedup(AliasKey, Flatten(Map(AliasesOf(matcher), walked))))
  {
    var rss := Map(AliasesOf(matcher), walked);
    forall i | 0 <= i < |rss| ensures UpperGuids(rss[i]) {
      RawAliasesUpper(matcher, walked[i].directories);
      DedupUpper(RawAliases(matcher, walked[i].directories));
    }
    FlatUpper(rss);
    DedupUpper(Flatten(rss));
  }
}
