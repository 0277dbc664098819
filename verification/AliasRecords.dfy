/** Alias records and what is read off ASM paths (asm_cleanup/domain/alias_record.py). */
module AliasRecords {
  import opened Wrappers
  import opened Sequences
  import opened Text

  datatype FileType = DATAFILE | TEMPFILE

  datatype AliasRecord = AliasRecord(
    fileType: FileType,
    sourcePath: string,
    targetPath: string,
    pdbGuid: Option<string>,
    diskGroup: string,
    databaseName: Option<string>)

  /** Python's truth value of an optional string. */
  predicate Truthy(s: Option<string>) {
    s.Some? && s.value != ""
  }

  function Either(a: Option<string>, b: Option<string>): Option<string> {
    if Truthy(a) then a else b
  }

  predicate UpperGuid(r: AliasRecord) {
    r.pdbGuid.Some? ==> IsUpper(r.pdbGuid.value)
  }

  predicate UpperGuids(rs: seq<AliasRecord>) {
    forall r :: r in rs ==> UpperGuid(r)
  }

  predicate IsTypeSegment(seg: string) {
    Upper(seg) == "DATAFILE" || Upper(seg) == "TEMPFILE"
  }

  predicate IsHex(c: char) {
    IsDigit(c) || 'A' <= c <= 'F' || 'a' <= c <= 'f'
  }

  predicate AllHex(s: string) {
    forall c :: c in s ==> IsHex(c)
  }

  /** `^[0-9A-Fa-f]{32}$`: the dollar sign also matches before a final newline. */
  predicate MatchesGuid(s: string) {
    && (|s| == 32 || (|s| == 33 && s[32] == '\n'))
    && AllHex(s[..32])
  }

  /** The text without a line feed at its end. */
  function WithoutFeed(s: string): string {
    if EndsWith(s, "\n") then s[..|s| - 1] else s
  }

  /** `\.(dbf|tmp)$` without regard to case. */
  predicate HasFileSuffix(s: string) {
    var t := Casefold(WithoutFeed(s));
    EndsWith(t, ".dbf") || EndsWith(t, ".tmp")
  }

  /** Decided by the first type segment after position `i`. */
  function GuidBefore(parts: seq<string>, i: nat): Option<string>
    requires i > 0
    decreases |parts| - i
  {
    if i >= |parts| then None
    else if IsTypeSegment(parts[i]) then
      if MatchesGuid(parts[i - 1]) then Some(Upper(parts[i - 1])) else None
    else GuidBefore(parts, i + 1)
  }

  function PdbGuidFromPath(asmPath: string): Option<string> {
    GuidBefore(Split(Strip(asmPath), '/'), 1)
  }

  /** The path holds the GUID: the segment before the first type segment that has a predecessor, in upper case. */
  ghost predicate HoldsGuid(asmPath: string, g: string) {
    var parts := Split(Strip(asmPath), '/');
    exists j :: 1 <= j < |parts| && IsTypeSegment(parts[j])
                && (forall k :: 1 <= k < j ==> !IsTypeSegment(parts[k]))
                && MatchesGuid(parts[j - 1]) && g == Upper(parts[j - 1])
  }

  lemma TypeSegmentsSpelledOut(seg: string)
    ensures IsTypeSegment(seg) <==> Casefold(seg) == "datafile" || Casefold(seg) == "tempfile"
  {
    assert Upper("datafile") == "DATAFILE" && Casefold("datafile") == "datafile";
    assert Upper("tempfile") == "TEMPFILE" && Casefold("tempfile") == "tempfile";
    FoldsAgree(seg, "datafile");
    FoldsAgree(seg, "tempfile");
  }

  /** 32 hexadecimal digits by code point, of either case; one more line feed may follow. */
  lemma GuidsSpelledOut(s: string)
    ensures MatchesGuid(s) <==>
            && (|s| == 32 || (|s| == 33 && s[32] as int == 10))
            && forall i :: 0 <= i < 32 ==>
                 48 <= s[i] as int <= 57 || 65 <= s[i] as int <= 70 || 97 <= s[i] as int <= 102
  {
    if |s| >= 32 {
      forall i | 0 <= i < 32 ensures s[i] in s[..32] { assert s[..32][i] == s[i]; }
      if forall i :: 0 <= i < 32 ==> IsHex(s[i]) {
        forall c | c in s[..32] ensures IsHex(c) { var i :| 0 <= i < 32 && s[..32][i] == c; }
      }
    }
  }

  /** A GUID is the upper-cased segment right before the first type segment that has a predecessor. */
  lemma {:induction false} GuidBeforeMeaning(parts: seq<string>, i: nat, g: string)
    requires i > 0
    ensures GuidBefore(parts, i) == Some(g) <==>
            exists j :: i <= j < |parts| && IsTypeSegment(parts[j])
                        && (forall k :: i <= k < j ==> !IsTypeSegment(parts[k]))
                        && MatchesGuid(parts[j - 1]) && g == Upper(parts[j - 1])
    ensures GuidBefore(parts, i) == Some(g) ==> IsUpper(g) && MatchesGuid(g)
    decreases |parts| - i
  {
    if i < |parts| {
      if IsTypeSegment(parts[i]) {
        var prev := parts[i - 1];
        UpperTwice(prev);
        if MatchesGuid(prev) {
          forall c | c in Upper(prev)[..32] ensures IsHex(c) {
            var k :| 0 <= k < 32 && Upper(prev)[k] == c;
            assert prev[k] in prev[..32];
          }
          assert |prev| == 33 ==> Upper(prev)[32] == '\n';
          assert MatchesGuid(Upper(prev));
        }
      } else {
        GuidBeforeMeaning(parts, i + 1, g);
      }
    }
  }

  /** The upper-case guarantee on which the emitter's look-up relies. */
  lemma PathGuidIsUpper(asmPath: string)
    ensures PdbGuidFromPath(asmPath).Some? ==>
              IsUpper(PdbGuidFromPath(asmPath).value) && MatchesGuid(PdbGuidFromPath(asmPath).value)
  {
    if PdbGuidFromPath(asmPath).Some? {
      GuidBeforeMeaning(Split(Strip(asmPath), '/'), 1, PdbGuidFromPath(asmPath).value);
    }
  }

  lemma PathGuidExact(asmPath: string, g: string)
    ensures PdbGuidFromPath(asmPath) == Some(g) <==> HoldsGuid(asmPath, g)
  {
    GuidBeforeMeaning(Split(Strip(asmPath), '/'), 1, g);
  }

  predicate NonBlank(s: string) {
    s != ""
  }

  function Segments(path: string): seq<string> {
    Filter(NonBlank, Split(path, '/'))
  }

  function DatabaseNameFromPath(asmPath: string): Option<string> {
    var parts := Segments(asmPath);
    if |parts| < 2 || !StartsWith(parts[0], "+") then None
    else if HasFileSuffix(parts[1]) || IsTypeSegment(parts[1]) || MatchesGuid(parts[1]) then None
    else Some(parts[1])
  }

  predicate FileExtension(ext: string) {
    Casefold(ext) == "dbf" || Casefold(ext) == "tmp"
  }

  lemma FoldedSuffix(t: string, ext: string)
    requires |ext| == 3
    ensures EndsWith(Casefold(t), "." + Casefold(ext)) <==>
            |t| >= 4 && t[|t| - 4] == '.' && Casefold(t[|t| - 3..]) == Casefold(ext)
  {
    if |t| >= 4 {
      assert Casefold(t)[|t| - 4..] == [Casefold(t)[|t| - 4]] + Casefold(t[|t| - 3..]);
      assert Casefold(t)[|t| - 4] == '.' <==> t[|t| - 4] == '.';
      assert ("." + Casefold(ext))[1..] == Casefold(ext);
    }
  }

  lemma ExtensionsAreFolded()
    ensures Casefold("dbf") == "dbf" && Casefold("tmp") == "tmp"
    ensures "." + "dbf" == ".dbf" && "." + "tmp" == ".tmp"
  {
  }

  lemma SuffixByPosition(s: string)
    ensures var t := WithoutFeed(s);
            HasFileSuffix(s) <==> |t| >= 4 && t[|t| - 4] == '.' && FileExtension(t[|t| - 3..])
  {
    ExtensionsAreFolded();
    FoldedSuffix(WithoutFeed(s), "dbf");
    FoldedSuffix(WithoutFeed(s), "tmp");
  }

  ghost predicate StemAndExtension(t: string, stem: string, ext: string) {
    t == stem + ("." + ext) && FileExtension(ext)
  }

  lemma ExtensionByPosition(t: string)
    ensures |t| >= 4 && t[|t| - 4] == '.' && FileExtension(t[|t| - 3..])
            <==> exists stem, ext :: StemAndExtension(t, stem, ext)
  {
    if |t| >= 4 && t[|t| - 4] == '.' && FileExtension(t[|t| - 3..]) {
      assert StemAndExtension(t, t[..|t| - 4], t[|t| - 3..]);
    }
    if stem, ext :| StemAndExtension(t, stem, ext) {
      assert |ext| == 3;
      assert t[|t| - 3..] == ext;
    }
  }

  lemma ExtensionHasNoFeed(t: string, stem: string, ext: string)
    requires StemAndExtension(t, stem, ext)
    ensures WithoutFeed(t) == t && WithoutFeed(t + "\n") == t
  {
    assert Casefold(ext)[2] == 'f' || Casefold(ext)[2] == 'p';
    assert t[|t| - 1] == ext[2];
  }

  /** The text ends in a dot and `dbf` or `tmp`, in any case; one more line feed may follow. */
  lemma FileSuffixExact(s: string)
    ensures HasFileSuffix(s) <==>
            exists t, stem, ext :: (s == t || s == t + "\n") && StemAndExtension(t, stem, ext)
  {
    var t := WithoutFeed(s);
    SuffixByPosition(s);
    ExtensionByPosition(t);
    assert s == t || s == t + "\n";
    if u, stem, ext :| (s == u || s == u + "\n") && StemAndExtension(u, stem, ext) {
      ExtensionHasNoFeed(u, stem, ext);
    }
  }

  /** The positions of the first two non-empty segments. */
  ghost predicate FirstTwo(parts: seq<string>, i: int, j: int) {
    0 <= i < j < |parts| && parts[i] != "" && parts[j] != "" && forall k :: 0 <= k < j && k != i ==> parts[k] == ""
  }

  lemma FirstTwoKept(parts: seq<string>, i: nat, j: nat)
    requires FirstTwo(parts, i, j)
    ensures var kept := Filter(NonBlank, parts); |kept| >= 2 && kept[0] == parts[i] && kept[1] == parts[j]
  {
    var tail := parts[i + 1..];
    KeptAfterOthers(NonBlank, parts, i);
    assert tail[j - i - 1] == parts[j];
    assert forall k :: 0 <= k < j - i - 1 ==> tail[k] == parts[i + 1 + k];
    KeptAfterOthers(NonBlank, tail, j - i - 1);
  }

  lemma KeptFirstTwo(parts: seq<string>) returns (i: nat, j: nat)
    requires |Filter(NonBlank, parts)| >= 2
    ensures FirstTwo(parts, i, j) && Filter(NonBlank, parts)[0] == parts[i] && Filter(NonBlank, parts)[1] == parts[j]
  {
    i := FirstKept(NonBlank, parts);
    var tail := parts[i + 1..];
    var k := FirstKept(NonBlank, tail);
    j := i + 1 + k;
    assert tail[k] == parts[j];
    assert forall m :: i + 1 <= m < j ==> parts[m] == tail[m - i - 1];
  }

  /** The second non-empty segment, behind one that starts with a plus sign, when it reads neither as a file, a type
      nor a GUID. */
  ghost predicate NamesDatabase(asmPath: string, db: string) {
    var parts := Split(asmPath, '/');
    exists i, j :: FirstTwo(parts, i, j) && parts[i][0] == '+' && parts[j] == db
                   && !HasFileSuffix(db) && !IsTypeSegment(db) && !MatchesGuid(db)
  }

  predicate ReadsAsDatabase(parts: seq<string>) {
    |parts| >= 2 && StartsWith(parts[0], "+") && !HasFileSuffix(parts[1]) && !IsTypeSegment(parts[1])
      && !MatchesGuid(parts[1])
  }

  lemma SecondSegment(asmPath: string, db: string)
    ensures DatabaseNameFromPath(asmPath) == Some(db) <==>
            ReadsAsDatabase(Segments(asmPath)) && Segments(asmPath)[1] == db
  {
  }

  lemma PlusInFront(s: string)
    requires s != ""
    ensures StartsWith(s, "+") <==> s[0] == '+'
  {
  }

  lemma DatabaseNameExact(asmPath: string, db: string)
    ensures DatabaseNameFromPath(asmPath) == Some(db) <==> NamesDatabase(asmPath, db)
  {
    var parts, kept := Split(asmPath, '/'), Segments(asmPath);
    SecondSegment(asmPath, db);
    if |kept| >= 2 {
      var i, j := KeptFirstTwo(parts);
      PlusInFront(parts[i]);
    }
    if NamesDatabase(asmPath, db) {
      var i, j :| FirstTwo(parts, i, j) && parts[i][0] == '+' && parts[j] == db
                  && !HasFileSuffix(db) && !IsTypeSegment(db) && !MatchesGuid(db);
      FirstTwoKept(parts, i, j);
      PlusInFront(parts[i]);
    }
  }

  function RStripSlashes(s: string): string {
    if s != [] && s[|s| - 1] == '/' then RStripSlashes(s[..|s| - 1]) else s
  }

  function DiskGroupFromAsmPath(path: string): string {
    var text := Strip(path);
    if !StartsWith(text, "+") then ""
    else
      var dg := Strip(Split(text, '/')[0]);
      var plus := if StartsWith(dg, "+") then dg else "+" + dg;
      "+" + Upper(Split(RStripSlashes(plus[1..]), '/')[0])
  }

  lemma {:induction false} RStripSlashesExact(s: string) returns (slashes: string)
    ensures s == RStripSlashes(s) + slashes && forall c :: c in slashes ==> c == '/'
    ensures RStripSlashes(s) == "" || RStripSlashes(s)[|RStripSlashes(s)| - 1] != '/'
    ensures RStripSlashes(RStripSlashes(s)) == RStripSlashes(s)
  {
    if s != [] && s[|s| - 1] == '/' {
      slashes := RStripSlashesExact(s[..|s| - 1]);
      assert s == s[..|s| - 1] + ['/'];
      Associative(RStripSlashes(s), slashes, ['/']);
      slashes := slashes + ['/'];
    } else {
      slashes := "";
      EmptyEnds(s);
    }
  }

  lemma SlashFreeStays(s: string)
    requires '/' !in s
    ensures RStripSlashes(s) == s && Split(s, '/') == [s]
  {
    if s != [] { assert s[|s| - 1] in s; }
    SplitWithout(s, '/');
  }

  /** The disk group a path starts in: what stands between the plus sign and the first slash, without space at its end,
      in upper case. */
  ghost predicate StartsInGroup(asmPath: string, group: string) {
    exists name, rest :: Strip(asmPath) == "+" + name + rest && '/' !in name && (rest == "" || rest[0] == '/')
                         && group == "+" + Upper(RStrip(name))
  }

  lemma {:induction false} RStripOfCons(c: char, s: string)
    requires !IsSpace(c)
    ensures RStrip([c] + s) == [c] + RStrip(s)
    decreases |s|
  {
    if s != [] {
      assert ([c] + s)[..|[c] + s| - 1] == [c] + s[..|s| - 1];
      if IsSpace(s[|s| - 1]) { RStripOfCons(c, s[..|s| - 1]); }
    }
  }

  lemma PlusSurvivesRStrip(name: string)
    ensures Strip("+" + name) == "+" + RStrip(name)
    ensures forall c :: c in RStrip(name) ==> c in name
  {
    RStripParts(name);
    assert LStrip("+" + name) == "+" + name;
    RStripOfCons('+', name);
  }

  /** A path without a plus sign in front lies in no disk group; any other in the one it starts in. */
  lemma DiskGroupExact(asmPath: string)
    ensures !StartsWith(Strip(asmPath), "+") ==> DiskGroupFromAsmPath(asmPath) == ""
    ensures StartsWith(Strip(asmPath), "+") ==> StartsInGroup(asmPath, DiskGroupFromAsmPath(asmPath))
  {
    var text := Strip(asmPath);
    if StartsWith(text, "+") {
      var rest := FirstPartIsPrefix(text, '/');
      var first := Split(text, '/')[0];
      assert first != "" by { assert rest != text; }
      var name := first[1..];
      assert first == "+" + name;
      PlusSurvivesRStrip(name);
      SlashFreeStays(RStrip(name));
      assert ("+" + RStrip(name))[1..] == RStrip(name);
      assert text == "+" + name + rest;
    }
  }

  // ---------------------------------------------------------------- one listing row

  /** The three groups that the row pattern captures; matching itself is a parameter. */
  datatype RowMatch = RowMatch(fileType: FileType, filename: string, target: string)

  type RowMatcher = string -> Option<RowMatch>

  /** `s.replace("//", "/")` */
  function MergeSlashes(s: string): string
    decreases |s|
  {
    if s == [] then []
    else if |s| >= 2 && s[0] == '/' && s[1] == '/' then "/" + MergeSlashes(s[2..])
    else [s[0]] + MergeSlashes(s[1..])
  }

  function Slashes(n: nat): string {
    seq(n, i => '/')
  }

  /** Pairs of slashes are merged from the left: a run is halved, rounding up, and everything else stays. */
  lemma {:induction false} MergeHalvesRuns(n: nat, rest: string)
    requires rest == "" || rest[0] != '/'
    ensures MergeSlashes(Slashes(n) + rest) == Slashes((n + 1) / 2) + MergeSlashes(rest)
  {
    var s := Slashes(n) + rest;
    if n == 0 {
      assert s == rest;
      EmptyEnds(MergeSlashes(rest));
    } else if n == 1 {
      assert s[0] == '/' && s[1..] == rest;
      assert Slashes(1) == ['/'];
    } else {
      assert s[0] == '/' && s[1] == '/' && s[2..] == Slashes(n - 2) + rest;
      MergeHalvesRuns(n - 2, rest);
      assert "/" + Slashes((n - 1) / 2) == Slashes((n + 1) / 2);
      Associative("/", Slashes((n - 1) / 2), MergeSlashes(rest));
    }
  }

  lemma MergeKeepsOthers(c: char, rest: string)
    requires c != '/'
    ensures MergeSlashes([c] + rest) == [c] + MergeSlashes(rest)
  {
    TailOfCons(c, rest);
  }

  function FromListingLine(matcher: RowMatcher, base: string, line: string): Option<AliasRecord> {
    match matcher(Strip(line))
    case None => None
    case Some(m) =>
      var target := Strip(m.target);
      var source := MergeSlashes(RStripSlashes(base) + "/" + m.filename);
      Some(AliasRecord(
        m.fileType, source, target,
        Either(PdbGuidFromPath(source), PdbGuidFromPath(target)),
        DiskGroupFromAsmPath(source),
        Either(DatabaseNameFromPath(source), DatabaseNameFromPath(target))))
  }

  /** The alias that captures in a directory's row stand for. */
  ghost predicate StandsFor(base: string, m: RowMatch, r: AliasRecord) {
    && r.fileType == m.fileType
    && r.targetPath == Strip(m.target)
    && r.sourcePath == MergeSlashes(RStripSlashes(base) + "/" + m.filename)
    && (forall g :: r.pdbGuid == Some(g) <==>
          HoldsGuid(r.sourcePath, g) || ((forall h :: !HoldsGuid(r.sourcePath, h)) && HoldsGuid(r.targetPath, g)))
    && (forall db :: r.databaseName == Some(db) <==>
          NamesDatabase(r.sourcePath, db)
          || ((forall other :: !NamesDatabase(r.sourcePath, other)) && NamesDatabase(r.targetPath, db)))
    && (if StartsWith(Strip(r.sourcePath), "+") then StartsInGroup(r.sourcePath, r.diskGroup) else r.diskGroup == "")
  }

  lemma SourceBeforeTargetGuid(source: string, target: string, g: string)
    ensures Either(PdbGuidFromPath(source), PdbGuidFromPath(target)) == Some(g) <==>
            HoldsGuid(source, g) || ((forall h :: !HoldsGuid(source, h)) && HoldsGuid(target, g))
  {
    forall h ensures PdbGuidFromPath(source) == Some(h) <==> HoldsGuid(source, h) { PathGuidExact(source, h); }
    PathGuidExact(target, g);
    PathGuidIsUpper(source);
  }

  lemma SourceBeforeTargetDatabase(source: string, target: string, db: string)
    ensures Either(DatabaseNameFromPath(source), DatabaseNameFromPath(target)) == Some(db) <==>
            NamesDatabase(source, db) || ((forall other :: !NamesDatabase(source, other)) && NamesDatabase(target, db))
  {
    forall d ensures DatabaseNameFromPath(source) == Some(d) <==> NamesDatabase(source, d) {
      DatabaseNameExact(source, d);
    }
    DatabaseNameExact(target, db);
  }

  /** A row yields an alias exactly when the pattern matches it, and that alias is the one its captures stand for. */
  lemma ListingLineExact(matcher: RowMatcher, base: string, line: string)
    ensures var r := FromListingLine(matcher, base, line);
            && (r.Some? <==> matcher(Strip(line)).Some?)
            && (r.Some? ==> StandsFor(base, matcher(Strip(line)).value, r.value))
  {
    var r := FromListingLine(matcher, base, line);
    if r.Some? {
      var source, target := r.value.sourcePath, r.value.targetPath;
      forall g ensures r.value.pdbGuid == Some(g) <==>
        HoldsGuid(source, g) || ((forall h :: !HoldsGuid(source, h)) && HoldsGuid(target, g)) {
        SourceBeforeTargetGuid(source, target, g);
      }
      forall db ensures r.value.databaseName == Some(db) <==>
        NamesDatabase(source, db) || ((forall other :: !NamesDatabase(source, other)) && NamesDatabase(target, db)) {
        SourceBeforeTargetDatabase(source, target, db);
      }
      DiskGroupExact(source);
    }
  }

  lemma ListingLineGuidIsUpper(matcher: RowMatcher, base: string, line: string)
    ensures FromListingLine(matcher, base, line).Some? ==> UpperGuid(FromListingLine(matcher, base, line).value)
  {
    var r := FromListingLine(matcher, base, line);
    if r.Some? {
      PathGuidIsUpper(r.value.sourcePath);
      PathGuidIsUpper(r.value.targetPath);
    }
  }
}
