/** Walk transcripts: printing, parsing and the file round trip (asm_cleanup/walk/transcript.py). */
module Transcript {
  import opened Wrappers
  import opened Sequences
  import opened Text
  import opened Ansi

  function Dashes(n: nat): string {
    seq(n, i => '-')
  }

  const SCHEMA_VERSION: int := 1
  const HEADER_PREFIX := "# asm-cleanup-transcript:"
  const HEADER := "# asm-cleanup-transcript:1"
  const DIR_MARK := "DIR:"
  const RULE := Dashes(60)

  /** One directory and its long-listing rows. */
  datatype Listing = Listing(path: string, longLines: seq<string>)

  datatype Inventory = Inventory(rootPath: string, directories: seq<Listing>, schemaVersion: int)

  datatype TranscriptError = InvalidHeader(line: string) | UnsupportedVersion(version: int)

  // ---------------------------------------------------------------- `int(text)` on ASCII digits

  predicate IsIntegerBody(s: string) {
    && s != [] && IsDigit(s[0]) && IsDigit(s[|s| - 1])
    && (forall i :: 0 <= i < |s| ==> IsDigit(s[i]) || s[i] == '_')
    && (forall i :: 0 <= i < |s| - 1 ==> s[i] != '_' || s[i + 1] != '_')
  }

  function DigitsValue(s: string): int {
    if s == [] then 0
    else
      var c := s[|s| - 1];
      var front := DigitsValue(s[..|s| - 1]);
      if IsDigit(c) then 10 * front + (c as int - '0' as int) else front
  }

  function ParseInt(text: string): Option<int> {
    var t := Strip(text);
    var signed := t != [] && (t[0] == '+' || t[0] == '-');
    var body := if signed then t[1..] else t;
    if !IsIntegerBody(body) then None
    else Some(if signed && t[0] == '-' then -DigitsValue(body) else DigitsValue(body))
  }

  // ---------------------------------------------------------------- printing

  /** The line that opens a directory. */
  function MarkRow(path: string): string {
    DIR_MARK + " " + path
  }

  /** The lines of one listing as they stand in a transcript. */
  function Block(d: Listing): seq<string> {
    [MarkRow(d.path), RULE] + d.longLines
  }

  function Blocks(dirs: seq<Listing>): seq<string> {
    if dirs == [] then [] else Block(dirs[0]) + Blocks(dirs[1..])
  }

  function RawText(dirs: seq<Listing>): string {
    Join('\n', [HEADER] + Blocks(dirs)) + "\n"
  }

  function StripLines(d: Listing): Listing {
    d.(longLines := Map(StripAnsi, d.longLines))
  }

  /** `inventory_to_transcript`: rows are stripped of escape sequences, paths are not. */
  function Print(inv: Inventory): string {
    RawText(Map(StripLines, inv.directories))
  }

  lemma {:induction false} BlocksAppend(dirs: seq<Listing>, d: Listing)
    ensures Blocks(dirs + [d]) == Blocks(dirs) + Block(d)
  {
    if dirs == [] {
      assert Blocks([d]) == Block(d) + Blocks([]);
    } else {
      assert (dirs + [d])[1..] == dirs[1..] + [d];
      BlocksAppend(dirs[1..], d);
    }
  }

  method InventoryToTranscript(inv: Inventory) returns (text: string)
    ensures text == Print(inv)
  {
    var lines := [HEADER];
    var dirs := inv.directories;
    for i := 0 to |dirs|
      invariant lines == [HEADER] + Blocks(Map(StripLines, dirs[..i]))
    {
      var d := StripLines(dirs[i]);
      BlocksAppend(Map(StripLines, dirs[..i]), d);
      assert Map(StripLines, dirs[..i + 1]) == Map(StripLines, dirs[..i]) + [d];
      lines := lines + [DIR_MARK + " " + dirs[i].path];
      lines := lines + [RULE];
      lines := lines + Map(StripAnsi, dirs[i].longLines);
    }
    assert dirs[..|dirs|] == dirs;
    text := Join('\n', lines) + (if lines != [] then "\n" else "");
  }

  // ---------------------------------------------------------------- parsing

  /** Finished listings and the buffer of the open one. */
  datatype ParseState = ParseState(done: seq<Listing>, open: Option<Listing>)

  function Flush(st: ParseState): seq<Listing> {
    match st.open
    case Some(d) => st.done + [d]
    case None => st.done
  }

  function CheckHeader(stripped: string): Result<(), TranscriptError>
    requires StartsWith(stripped, HEADER_PREFIX)
  {
    match ParseInt(stripped[|HEADER_PREFIX|..])
    case None => Err(InvalidHeader(stripped))
    case Some(v) => if v == SCHEMA_VERSION then Ok(()) else Err(UnsupportedVersion(v))
  }

  function Feed(st: ParseState, line: string): Result<ParseState, TranscriptError> {
    var stripped := Strip(line);
    if StartsWith(stripped, HEADER_PREFIX) then
      match CheckHeader(stripped)
      case Ok(_) => Ok(st)
      case Err(e) => Err(e)
    else if StartsWith(stripped, DIR_MARK) then
      Ok(ParseState(Flush(st), Some(Listing(Strip(stripped[|DIR_MARK|..]), []))))
    else
      match st.open
      case None => Ok(st)
      case Some(d) =>
        if stripped == RULE then Ok(st)
        else Ok(st.(open := Some(d.(longLines := d.longLines + [line]))))
  }

  function FeedAll(st: ParseState, lines: seq<string>): Result<ParseState, TranscriptError>
    decreases |lines|
  {
    if lines == [] then Ok(st)
    else
      match Feed(st, lines[0])
      case Ok(st1) => FeedAll(st1, lines[1..])
      case Err(e) => Err(e)
  }

  const START := ParseState([], None)

  function ResolveRoot(rootPath: Option<string>, dirs: seq<Listing>): string {
    if rootPath.Some? && rootPath.value != "" then rootPath.value
    else if dirs != [] then dirs[0].path
    else "unknown"
  }

  function Parse(text: string, rootPath: Option<string>): Result<Inventory, TranscriptError> {
    match FeedAll(START, SplitLines(text))
    case Err(e) => Err(e)
    case Ok(st) => Ok(Inventory(ResolveRoot(rootPath, Flush(st)), Flush(st), SCHEMA_VERSION))
  }

  /** The parser's three variables as one state. */
  function Buffers(done: seq<Listing>, path: Option<string>, lines: seq<string>): ParseState {
    ParseState(done, if path.Some? then Some(Listing(path.value, lines)) else None)
  }

  method TranscriptToInventory(text: string, rootPath: Option<string>)
    returns (r: Result<Inventory, TranscriptError>)
    ensures r == Parse(text, rootPath)
  {
    var directories: seq<Listing> := [];
    var currentPath: Option<string> := None;
    var currentLines: seq<string> := [];
    var schemaVersion := SCHEMA_VERSION;
    var lines := SplitLines(text);
    for i := 0 to |lines|
      invariant schemaVersion == SCHEMA_VERSION
      invariant currentPath.None? ==> currentLines == []
      invariant FeedAll(START, lines) == FeedAll(Buffers(directories, currentPath, currentLines), lines[i..])
    {
      assert lines[i..][0] == lines[i] && lines[i..][1..] == lines[i + 1..];
      var stripped := Strip(lines[i]);
      if StartsWith(stripped, HEADER_PREFIX) {
        var version := ParseInt(stripped[|HEADER_PREFIX|..]);
        if version.None? { return Err(InvalidHeader(stripped)); }
        if version.value != SCHEMA_VERSION { return Err(UnsupportedVersion(version.value)); }
        schemaVersion := version.value;
      } else if StartsWith(stripped, DIR_MARK) {
        if currentPath.Some? {
          directories := directories + [Listing(currentPath.value, currentLines)];
        }
        currentPath := Some(Strip(stripped[|DIR_MARK|..]));
        currentLines := [];
      } else if currentPath.Some? && stripped != RULE {
        currentLines := currentLines + [lines[i]];
      }
    }
    assert lines[|lines|..] == [];
    if currentPath.Some? {
      directories := directories + [Listing(currentPath.value, currentLines)];
    }
    r := Ok(Inventory(ResolveRoot(rootPath, directories), directories, schemaVersion));
  }

  // ---------------------------------------------------------------- which texts are accepted

  predicate IsHeader(line: string) {
    StartsWith(Strip(line), "# asm-cleanup-transcript:")
  }

  /** The number a header line declares, if what follows the colon is one. */
  function DeclaredVersion(line: string): Option<int>
    requires IsHeader(line)
  {
    ParseInt(Strip(line)[|HEADER_PREFIX|..])
  }

  predicate HeaderHolds(line: string) {
    IsHeader(line) ==> DeclaredVersion(line) == Some(1)
  }

  /** The complaint about a line: the whole trimmed line if it declares no number, else the number. */
  predicate Complains(line: string, e: TranscriptError) {
    IsHeader(line) &&
    match DeclaredVersion(line)
    case None => e == InvalidHeader(Strip(line))
    case Some(v) => v != 1 && e == UnsupportedVersion(v)
  }

  lemma FeedAccepts(st: ParseState, line: string)
    ensures Feed(st, line).Ok? <==> HeaderHolds(line)
    ensures Feed(st, line).Err? ==> Complains(line, Feed(st, line).error)
  {
  }

  /** The first line that does not hold is complained about. */
  predicate FirstComplaint(lines: seq<string>, e: TranscriptError) {
    lines != [] && if HeaderHolds(lines[0]) then FirstComplaint(lines[1..], e) else Complains(lines[0], e)
  }

  lemma {:induction false} FeedAllAccepts(st: ParseState, lines: seq<string>)
    ensures FeedAll(st, lines).Ok? <==> forall line :: line in lines ==> HeaderHolds(line)
    ensures FeedAll(st, lines).Err? ==> FirstComplaint(lines, FeedAll(st, lines).error)
    decreases |lines|
  {
    if lines != [] {
      FeedAccepts(st, lines[0]);
      HeadAndTail(lines);
      assert lines[0] in lines;
      if Feed(st, lines[0]).Ok? { FeedAllAccepts(Feed(st, lines[0]).value, lines[1..]); }
    }
  }

  /** A text is accepted exactly when every header line in it declares version 1, wherever it stands; otherwise the
      first that does not is complained about. */
  lemma AcceptedExactly(text: string, rootPath: Option<string>)
    ensures Parse(text, rootPath).Ok? <==> forall line :: line in SplitLines(text) ==> HeaderHolds(line)
    ensures Parse(text, rootPath).Err? ==> FirstComplaint(SplitLines(text), Parse(text, rootPath).error)
  {
    FeedAllAccepts(START, SplitLines(text));
  }

  // ---------------------------------------------------------------- what is read

  datatype Token = Opens(path: string) | Row(line: string)

  /** What a line stands for: a directory, a row, or nothing, as headers and rules do. */
  function TokenOfLine(line: string): Option<Token> {
    if IsHeader(line) || Strip(line) == RULE then None
    else if StartsWith(Strip(line), "DIR:") then Some(Opens(Strip(Strip(line)[4..])))
    else Some(Row(line))
  }

  function RowToken(line: string): Token {
    Row(line)
  }

  function TokensOfListing(d: Listing): seq<Token> {
    [Opens(d.path)] + Map(RowToken, d.longLines)
  }

  function TokensOf(dirs: seq<Listing>): seq<Token> {
    Flatten(Map(TokensOfListing, dirs))
  }

  /** Rows before the first directory are dropped. */
  function FromFirstDirectory(tokens: seq<Token>): seq<Token> {
    if tokens == [] || tokens[0].Opens? then tokens else FromFirstDirectory(tokens[1..])
  }

  lemma TokensOfMore(dirs: seq<Listing>, d: Listing)
    ensures TokensOf(dirs + [d]) == TokensOf(dirs) + TokensOfListing(d)
  {
    MapConcat(TokensOfListing, dirs, [d]);
    assert Map(TokensOfListing, [d]) == [TokensOfListing(d)];
    FlattenAppend(Map(TokensOfListing, dirs), TokensOfListing(d));
  }

  lemma MarksAreNoRules(line: string)
    requires StartsWith(Strip(line), DIR_MARK)
    ensures !IsHeader(line) && Strip(line) != RULE
  {
    assert Strip(line)[0] == 'D' && HEADER_PREFIX[0] == '#' && RULE[0] == '-';
  }

  /** One line adds its token, once a directory is open. */
  lemma FeedToken(st: ParseState, line: string)
    requires Feed(st, line).Ok?
    ensures var after, t := TokensOf(Flush(Feed(st, line).value)), TokenOfLine(line);
            && (st.open.Some? || (t.Some? && t.value.Opens?) ==>
                 after == TokensOf(Flush(st)) + (if t.Some? then [t.value] else []) && Feed(st, line).value.open.Some?)
            && (st.open.None? && !(t.Some? && t.value.Opens?) ==> Feed(st, line).value == st)
  {
    var st1 := Feed(st, line).value;
    EmptyEnds(TokensOf(Flush(st)));
    if StartsWith(Strip(line), DIR_MARK) {
      MarksAreNoRules(line);
      TokensOfMore(Flush(st), st1.open.value);
      assert TokensOfListing(st1.open.value) == [Opens(st1.open.value.path)];
    } else if st.open.Some? && st1 != st {
      var d := st.open.value;
      TokensOfMore(st.done, d);
      TokensOfMore(st.done, st1.open.value);
      MapConcat(RowToken, d.longLines, [line]);
      assert Map(RowToken, [line]) == [Row(line)];
      assert TokensOfListing(st1.open.value) == TokensOfListing(d) + [Row(line)];
      Associative(TokensOf(st.done), TokensOfListing(d), [Row(line)]);
    }
  }

  lemma CollectCons(line: string, lines: seq<string>)
    ensures Collect(TokenOfLine, [line] + lines)
            == (match TokenOfLine(line) case Some(t) => [t] case None => []) + Collect(TokenOfLine, lines)
  {
    CollectConcat(TokenOfLine, [line], lines);
    assert [line][..0] == [];
    assert Collect(TokenOfLine, [line][..0]) == [];
  }

  lemma {:induction false} FeedAllTokens(st: ParseState, lines: seq<string>)
    requires FeedAll(st, lines).Ok?
    ensures var after := TokensOf(Flush(FeedAll(st, lines).value));
            && (st.open.Some? ==> after == TokensOf(Flush(st)) + Collect(TokenOfLine, lines))
            && (st == START ==> after == FromFirstDirectory(Collect(TokenOfLine, lines)))
    decreases |lines|
  {
    if lines == [] {
      EmptyEnds(TokensOf(Flush(st)));
    } else {
      var line, rest := lines[0], lines[1..];
      var t := TokenOfLine(line);
      HeadAndTail(lines);
      CollectCons(line, rest);
      FeedToken(st, line);
      FeedAllTokens(Feed(st, line).value, rest);
      var tail := Collect(TokenOfLine, rest);
      if t.Some? {
        TailOfCons(t.value, tail);
        Associative(TokensOf(Flush(st)), [t.value], tail);
        if st == START { EmptyEnds([t.value]); EmptyEnds([t.value] + tail); }
      } else {
        EmptyEnds(tail);
        EmptyEnds(TokensOf(Flush(st)));
      }
    }
  }

  /** What is read from an accepted text: directories and rows in the order of the lines, from the first directory on;
      header lines and rules stand for nothing. */
  lemma ReadExactly(text: string, rootPath: Option<string>)
    requires Parse(text, rootPath).Ok?
    ensures TokensOf(Parse(text, rootPath).value.directories)
            == FromFirstDirectory(Collect(TokenOfLine, SplitLines(text)))
    ensures Parse(text, rootPath).value.schemaVersion == 1
  {
    FeedAllTokens(START, SplitLines(text));
  }

  // ---------------------------------------------------------------- well-formed inventories

  predicate IsBodyLine(line: string) {
    && BreakFree(line)
    && !StartsWith(Strip(line), HEADER_PREFIX)
    && !StartsWith(Strip(line), DIR_MARK)
    && Strip(line) != RULE
  }

  predicate WellFormedListing(d: Listing) {
    && Trimmed(d.path) && BreakFree(d.path)
    && (forall l :: l in d.longLines ==> IsBodyLine(l))
  }

  predicate WellFormed(dirs: seq<Listing>) {
    forall d :: d in dirs ==> WellFormedListing(d)
  }

  predicate LinesFixed(dirs: seq<Listing>) {
    forall d, l :: d in dirs && l in d.longLines ==> StripAnsi(l) == l
  }

  lemma StripStaysInside(s: string)
    ensures forall c :: c in Strip(s) ==> c in s
  {
    var _, _ := StripParts(s);
  }

  lemma {:induction false} FeedKeepsWellFormed(st: ParseState, lines: seq<string>)
    requires WellFormed(Flush(st))
    requires forall l :: l in lines ==> BreakFree(l)
    ensures FeedAll(st, lines).Ok? ==> WellFormed(Flush(FeedAll(st, lines).value))
    decreases |lines|
  {
    if lines != [] && Feed(st, lines[0]).Ok? {
      var st1 := Feed(st, lines[0]).value;
      var stripped := Strip(lines[0]);
      assert lines[0] in lines;
      if StartsWith(stripped, DIR_MARK) && !StartsWith(stripped, HEADER_PREFIX) {
        var rest := stripped[|DIR_MARK|..];
        StripStaysInside(lines[0]);
        StripStaysInside(rest);
        var _, _ := StripParts(rest);
        assert forall c :: c in rest ==> c in stripped;
        assert BreakFree(Strip(rest));
      } else if st.open.Some? {
        assert st.open.value in Flush(st);
      }
      assert forall d :: d in st.done ==> d in Flush(st);
      assert WellFormed(Flush(st1));
      FeedKeepsWellFormed(st1, lines[1..]);
    }
  }

  /** Whatever text is accepted, the inventory it yields is well formed. */
  lemma ParseYieldsWellFormed(text: string, rootPath: Option<string>)
    ensures Parse(text, rootPath).Ok? ==> WellFormed(Parse(text, rootPath).value.directories)
  {
    SplitLinesBreakFree(text);
    FeedKeepsWellFormed(START, SplitLines(text));
  }

  // ---------------------------------------------------------------- reading printed lines back

  lemma {:induction false} FeedConcat(st: ParseState, xs: seq<string>, ys: seq<string>)
    ensures FeedAll(st, xs + ys) ==
            match FeedAll(st, xs) { case Ok(st1) => FeedAll(st1, ys) case Err(e) => Err(e) }
    decreases |xs|
  {
    if xs == [] {
      assert xs + ys == ys;
    } else {
      assert (xs + ys)[1..] == xs[1..] + ys;
      if Feed(st, xs[0]).Ok? { FeedConcat(Feed(st, xs[0]).value, xs[1..], ys); }
    }
  }

  lemma DirLineStrips(path: string)
    requires Trimmed(path)
    ensures StartsWith(Strip(DIR_MARK + " " + path), DIR_MARK)
    ensures !StartsWith(Strip(DIR_MARK + " " + path), HEADER_PREFIX)
    ensures Strip(Strip(DIR_MARK + " " + path)[|DIR_MARK|..]) == path
  {
    var line := DIR_MARK + " " + path;
    if path == [] {
      assert line == "DIR: ";
      assert LStrip(line) == line && line[..4] == DIR_MARK;
      assert RStrip(line) == RStrip(line[..4]);
      assert Strip(line) == DIR_MARK;
      assert DIR_MARK[4..] == [];
    } else {
      assert line[|line| - 1] == path[|path| - 1];
      StripTrimmed(line);
      assert line[4..] == " " + path;
      assert LStrip(" " + path) == LStrip((" " + path)[1..]);
      assert (" " + path)[1..] == path;
      StripTrimmed(path);
    }
    assert HEADER_PREFIX[0] == '#' && Strip(line)[0] == 'D';
  }

  lemma HeaderAccepted(st: ParseState)
    ensures Feed(st, HEADER) == Ok(st)
  {
    StripTrimmed(HEADER);
    assert HEADER[..|HEADER_PREFIX|] == HEADER_PREFIX;
    var rest := HEADER[|HEADER_PREFIX|..];
    assert rest == "1";
    StripTrimmed(rest);
    assert DigitsValue(rest) == 10 * DigitsValue(rest[..0]) + 1;
  }

  lemma RuleIgnored(st: ParseState)
    ensures Feed(st, RULE) == Ok(st)
  {
    StripTrimmed(RULE);
    assert RULE[0] == '-' && HEADER_PREFIX[0] == '#' && DIR_MARK[0] == 'D';
  }

  lemma BodyLineKept(st: ParseState, line: string)
    requires st.open.Some? && IsBodyLine(line)
    ensures var d := st.open.value;
            Feed(st, line) == Ok(st.(open := Some(d.(longLines := d.longLines + [line]))))
  {
  }

  lemma {:induction false} FeedBody(st: ParseState, lines: seq<string>)
    requires st.open.Some?
    requires forall l :: l in lines ==> IsBodyLine(l)
    ensures var d := st.open.value;
            FeedAll(st, lines) == Ok(st.(open := Some(d.(longLines := d.longLines + lines))))
    decreases |lines|
  {
    var d := st.open.value;
    if lines == [] {
      assert d.longLines + lines == d.longLines;
    } else {
      assert lines[0] in lines;
      BodyLineKept(st, lines[0]);
      FeedBody(Feed(st, lines[0]).value, lines[1..]);
      Associative(d.longLines, [lines[0]], lines[1..]);
      HeadAndTail(lines);
    }
  }

  lemma FeedBlock(st: ParseState, d: Listing)
    requires WellFormedListing(d)
    ensures FeedAll(st, Block(d)) == Ok(ParseState(Flush(st), Some(d)))
  {
    var st1 := ParseState(Flush(st), Some(Listing(d.path, [])));
    DirLineStrips(d.path);
    RuleIgnored(st1);
    assert Block(d)[1..][0] == RULE && Block(d)[1..][1..] == d.longLines;
    FeedBody(st1, d.longLines);
    assert [] + d.longLines == d.longLines;
  }

  lemma {:induction false} FeedBlocks(st: ParseState, dirs: seq<Listing>)
    requires WellFormed(dirs)
    ensures FeedAll(st, Blocks(dirs)).Ok?
    ensures Flush(FeedAll(st, Blocks(dirs)).value) == Flush(st) + dirs
    decreases |dirs|
  {
    if dirs == [] {
      EmptyEnds(Flush(st));
    } else {
      var d, tail := dirs[0], dirs[1..];
      assert d in dirs;
      HeadAndTail(dirs);
      FeedBlock(st, d);
      FeedConcat(st, Block(d), Blocks(tail));
      FeedBlocks(ParseState(Flush(st), Some(d)), tail);
      Associative(Flush(st), [d], tail);
    }
  }

  lemma {:induction false} BlocksBreakFree(dirs: seq<Listing>)
    requires forall d :: d in dirs ==> BreakFree(d.path) && forall l :: l in d.longLines ==> BreakFree(l)
    ensures forall l :: l in Blocks(dirs) ==> BreakFree(l)
    decreases |dirs|
  {
    if dirs != [] {
      assert dirs[0] in dirs;
      BlocksBreakFree(dirs[1..]);
    }
  }

  lemma SplitRawText(dirs: seq<Listing>)
    requires forall d :: d in dirs ==> BreakFree(d.path) && forall l :: l in d.longLines ==> BreakFree(l)
    ensures SplitLines(RawText(dirs)) == [HEADER] + Blocks(dirs)
    ensures FeedAll(START, SplitLines(RawText(dirs))) == FeedAll(START, Blocks(dirs))
  {
    BlocksBreakFree(dirs);
    SplitJoinedLines([HEADER] + Blocks(dirs));
    HeaderAccepted(START);
    assert ([HEADER] + Blocks(dirs))[1..] == Blocks(dirs);
  }

  /** Unstripped text reads back as the listings it was made of exactly when they are well formed. */
  lemma RawRoundTrip(dirs: seq<Listing>, rootPath: Option<string>)
    ensures (Parse(RawText(dirs), rootPath).Ok? && Parse(RawText(dirs), rootPath).value.directories == dirs)
            <==> WellFormed(dirs)
  {
    ParseYieldsWellFormed(RawText(dirs), rootPath);
    if WellFormed(dirs) {
      SplitRawText(dirs);
      FeedBlocks(START, dirs);
      assert Flush(START) + dirs == dirs;
    }
  }

  // ---------------------------------------------------------------- no line is gained by parsing

  function Size(lines: seq<string>): nat {
    if lines == [] then 0 else |lines[0]| + Size(lines[1..])
  }

  function ListingSize(d: Listing): nat {
    |d.path| + Size(d.longLines)
  }

  /** Total length of all paths and rows. */
  function BodySize(dirs: seq<Listing>): nat {
    if dirs == [] then 0 else ListingSize(dirs[0]) + BodySize(dirs[1..])
  }

  lemma {:induction false} SizeConcat(xs: seq<string>, ys: seq<string>)
    ensures Size(xs + ys) == Size(xs) + Size(ys)
  {
    if xs == [] { assert xs + ys == ys; }
    else {
      assert (xs + ys)[1..] == xs[1..] + ys;
      SizeConcat(xs[1..], ys);
    }
  }

  lemma {:induction false} BodySizeAppend(dirs: seq<Listing>, d: Listing)
    ensures BodySize(dirs + [d]) == BodySize(dirs) + ListingSize(d)
  {
    if dirs == [] { assert BodySize([d]) == ListingSize(d) + BodySize([]); }
    else {
      assert (dirs + [d])[1..] == dirs[1..] + [d];
      BodySizeAppend(dirs[1..], d);
    }
  }

  lemma StripShortens(s: string)
    ensures |Strip(s)| <= |s|
    ensures s != [] && IsSpace(s[0]) ==> |Strip(s)| < |s|
  {
    LStripParts(s);
    RStripParts(LStrip(s));
    if s != [] && IsSpace(s[0]) { LStripParts(s[1..]); }
  }

  /** The path that a line with a directory mark opens. */
  function MarkedPath(line: string): string
    requires StartsWith(Strip(line), DIR_MARK)
  {
    Strip(Strip(line)[|DIR_MARK|..])
  }

  lemma MarkedPathShort(line: string)
    requires StartsWith(Strip(line), DIR_MARK)
    ensures |MarkedPath(line)| <= |line|
  {
    StripShortens(line);
    StripShortens(Strip(line)[|DIR_MARK|..]);
  }

  lemma MarkSurvives(path: string)
    ensures StartsWith(Strip(MarkRow(path)), DIR_MARK)
    ensures !StartsWith(Strip(MarkRow(path)), HEADER_PREFIX)
    ensures |MarkedPath(MarkRow(path))| <= |path|
  {
    var line := MarkRow(path);
    assert line[0] == 'D' && LStrip(line) == line;
    assert line[3] == ':';
    RStripStops(line, 3);
    RStripParts(line);
    var stripped := Strip(line);
    assert stripped == line[..|stripped|];
    assert stripped[..|DIR_MARK|] == line[..|DIR_MARK|] == DIR_MARK;
    assert stripped[0] == 'D' && HEADER_PREFIX[0] == '#';
    var rest := stripped[|DIR_MARK|..];
    if rest != [] { assert rest[0] == line[4] == ' '; }
    StripShortens(rest);
  }

  lemma FeedGrowth(st: ParseState, line: string)
    requires Feed(st, line).Ok?
    ensures BodySize(Flush(Feed(st, line).value)) <=
            BodySize(Flush(st))
            + if StartsWith(Strip(line), DIR_MARK) then |MarkedPath(line)|
              else if Strip(line) == RULE then 0
              else |line|
  {
    var st1 := Feed(st, line).value;
    if StartsWith(Strip(line), HEADER_PREFIX) {
      assert st1 == st;
    } else if StartsWith(Strip(line), DIR_MARK) {
      BodySizeAppend(st1.done, st1.open.value);
    } else if st1 != st {
      BodySizeAppend(st1.done, st1.open.value);
      BodySizeAppend(st.done, st.open.value);
      SizeConcat(st.open.value.longLines, [line]);
      assert Size([line]) == |line| + Size([]);
    }
  }

  lemma FeedGrowthAtMost(st: ParseState, line: string)
    requires Feed(st, line).Ok?
    ensures BodySize(Flush(Feed(st, line).value)) <= BodySize(Flush(st)) + |line|
  {
    FeedGrowth(st, line);
    if StartsWith(Strip(line), DIR_MARK) { MarkedPathShort(line); }
  }

  lemma {:induction false} FeedAllGrowth(st: ParseState, lines: seq<string>)
    requires FeedAll(st, lines).Ok?
    ensures BodySize(Flush(FeedAll(st, lines).value)) <= BodySize(Flush(st)) + Size(lines)
    decreases |lines|
  {
    if lines != [] {
      FeedGrowthAtMost(st, lines[0]);
      FeedAllGrowth(Feed(st, lines[0]).value, lines[1..]);
    }
  }

  lemma BlockGrowth(st: ParseState, d: Listing)
    requires FeedAll(st, Block(d)).Ok?
    ensures BodySize(Flush(FeedAll(st, Block(d)).value)) <= BodySize(Flush(st)) + ListingSize(d)
  {
    assert Block(d)[0] == MarkRow(d.path);
    MarkSurvives(d.path);
    FeedGrowth(st, MarkRow(d.path));
    var st1 := Feed(st, MarkRow(d.path)).value;
    assert Block(d)[1..] == [RULE] + d.longLines;
    TailOfCons(RULE, d.longLines);
    RuleIgnored(st1);
    FeedAllGrowth(st1, d.longLines);
  }

  lemma {:induction false} BlocksGrowth(st: ParseState, dirs: seq<Listing>)
    requires FeedAll(st, Blocks(dirs)).Ok?
    ensures BodySize(Flush(FeedAll(st, Blocks(dirs)).value)) <= BodySize(Flush(st)) + BodySize(dirs)
    decreases |dirs|
  {
    if dirs != [] {
      FeedConcat(st, Block(dirs[0]), Blocks(dirs[1..]));
      BlockGrowth(st, dirs[0]);
      BlocksGrowth(FeedAll(st, Block(dirs[0])).value, dirs[1..]);
    }
  }

  lemma {:induction false} StripSize(lines: seq<string>)
    ensures Size(Map(StripAnsi, lines)) <= Size(lines)
    ensures Size(Map(StripAnsi, lines)) == Size(lines) ==> Map(StripAnsi, lines) == lines
  {
    if lines != [] {
      StripFixedPoint(lines[0]);
      assert Map(StripAnsi, lines)[1..] == Map(StripAnsi, lines[1..]);
      StripSize(lines[1..]);
      assert Map(StripAnsi, lines) == [StripAnsi(lines[0])] + Map(StripAnsi, lines[1..]);
    }
  }

  lemma {:induction false} StripBodySize(dirs: seq<Listing>)
    ensures BodySize(Map(StripLines, dirs)) <= BodySize(dirs)
    ensures BodySize(Map(StripLines, dirs)) == BodySize(dirs) ==> Map(StripLines, dirs) == dirs
  {
    if dirs != [] {
      StripSize(dirs[0].longLines);
      assert Map(StripLines, dirs)[1..] == Map(StripLines, dirs[1..]);
      StripBodySize(dirs[1..]);
      assert Map(StripLines, dirs) == [StripLines(dirs[0])] + Map(StripLines, dirs[1..]);
    }
  }

  lemma LinesFixedMeansUnchanged(dirs: seq<Listing>)
    ensures LinesFixed(dirs) <==> Map(StripLines, dirs) == dirs
  {
    if LinesFixed(dirs) {
      forall i | 0 <= i < |dirs| ensures StripLines(dirs[i]) == dirs[i] {
        assert dirs[i] in dirs;
        assert forall j :: 0 <= j < |dirs[i].longLines| ==> dirs[i].longLines[j] in dirs[i].longLines;
        assert Map(StripAnsi, dirs[i].longLines) == dirs[i].longLines;
      }
    } else {
      var d, l :| d in dirs && l in d.longLines && StripAnsi(l) != l;
      var i :| 0 <= i < |dirs| && dirs[i] == d;
      var j :| 0 <= j < |d.longLines| && d.longLines[j] == l;
      assert StripLines(d).longLines[j] == StripAnsi(l);
      assert StripLines(d).longLines != d.longLines;
      assert Map(StripLines, dirs)[i] == StripLines(d);
    }
  }

  // ---------------------------------------------------------------- the round trips

  lemma StrippedRowsBreakFree(d: Listing)
    requires WellFormedListing(d)
    ensures var e := StripLines(d);
            Trimmed(e.path) && BreakFree(e.path) && forall l :: l in e.longLines ==> BreakFree(l)
  {
    var e := StripLines(d);
    forall l | l in e.longLines ensures BreakFree(l) {
      var j :| 0 <= j < |d.longLines| && l == StripAnsi(d.longLines[j]);
      assert IsBodyLine(d.longLines[j]);
      StripFixedPoint(d.longLines[j]);
    }
  }

  lemma StrippedBreakFree(dirs: seq<Listing>)
    requires WellFormed(dirs)
    ensures forall d :: d in Map(StripLines, dirs) ==>
              Trimmed(d.path) && BreakFree(d.path) && forall l :: l in d.longLines ==> BreakFree(l)
  {
    var printed := Map(StripLines, dirs);
    forall i | 0 <= i < |printed|
      ensures Trimmed(printed[i].path) && BreakFree(printed[i].path)
              && forall l :: l in printed[i].longLines ==> BreakFree(l)
    {
      assert dirs[i] in dirs;
      StrippedRowsBreakFree(dirs[i]);
    }
  }

  /** Parsing what was printed from well-formed listings yields at most the stripped rows' total length. */
  lemma ParsedSize(dirs: seq<Listing>, rootPath: Option<string>)
    requires WellFormed(dirs)
    requires Parse(RawText(Map(StripLines, dirs)), rootPath).Ok?
    ensures BodySize(Parse(RawText(Map(StripLines, dirs)), rootPath).value.directories)
            <= BodySize(Map(StripLines, dirs))
  {
    var printed := Map(StripLines, dirs);
    StrippedBreakFree(dirs);
    SplitRawText(printed);
    BlocksGrowth(START, printed);
  }

  lemma PrintedListingsAreTheInput(inv: Inventory, rootPath: Option<string>)
    requires Parse(Print(inv), rootPath).Ok?
    requires Parse(Print(inv), rootPath).value.directories == inv.directories
    ensures WellFormed(inv.directories) && LinesFixed(inv.directories)
  {
    ParseYieldsWellFormed(Print(inv), rootPath);
    ParsedSize(inv.directories, rootPath);
    StripBodySize(inv.directories);
    LinesFixedMeansUnchanged(inv.directories);
  }

  /** For every inventory: the transcript gives the same listings back if and only if the inventory
      is well formed and no row holds an escape sequence. */
  lemma RoundTripExact(inv: Inventory, rootPath: Option<string>)
    ensures (Parse(Print(inv), rootPath).Ok? && Parse(Print(inv), rootPath).value.directories == inv.directories)
            <==> WellFormed(inv.directories) && LinesFixed(inv.directories)
  {
    if WellFormed(inv.directories) && LinesFixed(inv.directories) {
      LinesFixedMeansUnchanged(inv.directories);
      RawRoundTrip(inv.directories, rootPath);
    }
    if Parse(Print(inv), rootPath).Ok? && Parse(Print(inv), rootPath).value.directories == inv.directories {
      PrintedListingsAreTheInput(inv, rootPath);
    }
  }

  /** With its own root handed back, a current-schema inventory is restored completely. */
  lemma RoundTripWhole(inv: Inventory)
    requires inv.rootPath != "" && inv.schemaVersion == SCHEMA_VERSION
    ensures Parse(Print(inv), Some(inv.rootPath)) == Ok(inv)
            <==> WellFormed(inv.directories) && LinesFixed(inv.directories)
  {
    RoundTripExact(inv, Some(inv.rootPath));
  }

  /** Without a root, or with an empty one, the first directory is taken for it, and `unknown` when there is none. */
  lemma RoundTripWithoutRoot(inv: Inventory, rootPath: Option<string>)
    requires inv.schemaVersion == SCHEMA_VERSION && (rootPath == None || rootPath == Some(""))
    ensures Parse(Print(inv), rootPath) == Ok(inv) <==>
            && WellFormed(inv.directories) && LinesFixed(inv.directories)
            && inv.rootPath == if inv.directories == [] then "unknown" else inv.directories[0].path
  {
    RoundTripExact(inv, rootPath);
  }

  lemma RuleIsSixtyDashes(rule: string)
    requires |rule| == 60 && forall c :: c in rule ==> c == '-'
    ensures rule == RULE
  {
    assert forall i :: 0 <= i < 60 ==> rule[i] in rule;
  }

  lemma JoinFour(a: string, b: string, c: string, d: string)
    ensures Join('\n', [a, b, c, d]) == a + "\n" + b + "\n" + c + "\n" + d
  {
    assert [a, b, c, d][1..] == [b, c, d] && [b, c, d][1..] == [c, d] && [c, d][1..] == [d];
    assert Join('\n', [c, d]) == c + "\n" + d;
    assert Join('\n', [b, c, d]) == b + "\n" + (c + "\n" + d);
  }

  /** The format, on one directory with one row. */
  lemma PrintedFormat(root: string, path: string, row: string, rule: string)
    requires ESC !in row && |rule| == 60 && forall c :: c in rule ==> c == '-'
    ensures Print(Inventory(root, [Listing(path, [row])], 1))
            == "# asm-cleanup-transcript:1" + "\n" + ("DIR: " + path) + "\n"
               + rule + "\n" + row + "\n"
  {
    var d := Listing(path, [row]);
    RuleIsSixtyDashes(rule);
    assert StripAnsi(row) == row;
    assert StripLines(d) == d by { assert Map(StripAnsi, [row]) == [row]; }
    assert Map(StripLines, [d]) == [d];
    assert [d][1..] == [];
    assert Blocks([d]) == [MarkRow(path), RULE, row];
    assert [HEADER] + Blocks([d]) == [HEADER, MarkRow(path), RULE, row];
    JoinFour(HEADER, MarkRow(path), RULE, row);
    assert DIR_MARK + " " == "DIR: ";
  }

  lemma {:induction false} FeedStaysEscapeFree(st: ParseState, lines: seq<string>)
    requires forall l :: l in lines ==> ESC !in l
    requires forall d, l :: d in Flush(st) && l in d.longLines ==> ESC !in l
    ensures FeedAll(st, lines).Ok? ==>
              forall d, l :: d in Flush(FeedAll(st, lines).value) && l in d.longLines ==> ESC !in l
    decreases |lines|
  {
    if lines != [] && Feed(st, lines[0]).Ok? {
      var st1 := Feed(st, lines[0]).value;
      assert lines[0] in lines;
      assert forall d :: d in st.done ==> d in Flush(st);
      if st.open.Some? { assert st.open.value in Flush(st); }
      FeedStaysEscapeFree(st1, lines[1..]);
    }
  }

  lemma EscapeFreeIsFixed(dirs: seq<Listing>)
    requires forall d, l :: d in dirs && l in d.longLines ==> ESC !in l
    ensures LinesFixed(dirs)
  {
  }

  lemma ParsedEscapeFree(text: string, rootPath: Option<string>)
    requires ESC !in text && Parse(text, rootPath).Ok?
    ensures LinesFixed(Parse(text, rootPath).value.directories)
  {
    SplitLinesBreakFree(text);
    forall l | l in SplitLines(text) ensures ESC !in l {
      SplitLinesInside(text, l);
    }
    FeedStaysEscapeFree(START, SplitLines(text));
    EscapeFreeIsFixed(Parse(text, rootPath).value.directories);
  }

  /** Print after parse, on any accepted text: printing what was parsed and parsing it again restores the listings
      if and only if no row holds an escape sequence; then the text is stable too. Escape-free text qualifies. */
  lemma PrintAfterParseIdempotent(text: string, rootPath: Option<string>)
    requires Parse(text, rootPath).Ok?
    ensures var inv := Parse(text, rootPath).value;
            var again := Parse(Print(inv), Some(inv.rootPath));
            && (again.Ok? && again.value.directories == inv.directories <==> LinesFixed(inv.directories))
            && (LinesFixed(inv.directories) ==> Print(again.value) == Print(inv))
            && (ESC !in text ==> LinesFixed(inv.directories))
  {
    var inv := Parse(text, rootPath).value;
    ParseYieldsWellFormed(text, rootPath);
    RoundTripExact(inv, Some(inv.rootPath));
    if ESC !in text { ParsedEscapeFree(text, rootPath); }
  }

  lemma FeedMarkRow(st: ParseState, path: string)
    requires Trimmed(path)
    ensures FeedAll(st, [MarkRow(path)]) == Ok(ParseState(Flush(st), Some(Listing(path, []))))
  {
    DirLineStrips(path);
    var st1 := ParseState(Flush(st), Some(Listing(path, [])));
    assert Feed(st, MarkRow(path)) == Ok(st1);
    assert [MarkRow(path)][1..] == [];
    assert FeedAll(st1, []) == Ok(st1);
  }

  lemma FeedBlockAndMark(d: Listing, path: string)
    requires WellFormedListing(d) && Trimmed(path)
    ensures FeedAll(START, Block(d) + [MarkRow(path)]) == Ok(ParseState([d], Some(Listing(path, []))))
  {
    FeedBlock(START, d);
    FeedConcat(START, Block(d), [MarkRow(path)]);
    var st := ParseState([], Some(d));
    assert Flush(START) == [] && Flush(st) == [d];
    FeedMarkRow(st, path);
  }

  lemma BlocksOfOne(d: Listing)
    ensures Blocks([d]) == Block(d)
  {
    assert [d][1..] == [];
    EmptyEnds(Block(d));
  }

  lemma WithMarkBreakFree(d: Listing, path: string)
    requires WellFormedListing(d) && BreakFree(path)
    ensures BreakFree(d.path) && forall l :: l in d.longLines + [MarkRow(path)] ==> BreakFree(l)
  {
    forall l | l in d.longLines + [MarkRow(path)] ensures BreakFree(l) {
      if l in d.longLines { assert IsBodyLine(l); }
    }
  }

  lemma RawOfOne(e: Listing)
    requires BreakFree(e.path) && forall l :: l in e.longLines ==> BreakFree(l)
    ensures FeedAll(START, SplitLines(RawText([e]))) == FeedAll(START, Block(e))
  {
    SplitRawText([e]);
    BlocksOfOne(e);
  }

  /** A row that reads as a directory mark opens a directory of its own. */
  lemma MarkRowMisparses(d: Listing, path: string, rootPath: Option<string>)
    requires WellFormedListing(d) && Trimmed(path) && BreakFree(path)
    ensures var back := Parse(RawText([Listing(d.path, d.longLines + [MarkRow(path)])]), rootPath);
            back.Ok? && back.value.directories == [d, Listing(path, [])]
  {
    var e := Listing(d.path, d.longLines + [MarkRow(path)]);
    WithMarkBreakFree(d, path);
    RawOfOne(e);
    Associative([MarkRow(d.path), RULE], d.longLines, [MarkRow(path)]);
    FeedBlockAndMark(d, path);
  }

  lemma LoneMarkRow(root: string, path: string, rootPath: Option<string>)
    requires Trimmed(root) && BreakFree(root) && Trimmed(path) && BreakFree(path) && ESC !in MarkRow(path)
    ensures var back := Parse(Print(Inventory(root, [Listing(root, [MarkRow(path)])], SCHEMA_VERSION)), rootPath);
            back.Ok? && back.value.directories == [Listing(root, []), Listing(path, [])]
  {
    var dirs := [Listing(root, [MarkRow(path)])];
    EmptyEnds([MarkRow(path)]);
    MarkRowMisparses(Listing(root, []), path, rootPath);
    EscapeFreeIsFixed(dirs);
    LinesFixedMeansUnchanged(dirs);
  }

  /** Concretely: one directory with one such row comes back as two directories. */
  lemma DirRowMisparses(rootPath: Option<string>)
    ensures var inv := Inventory("r", [Listing("r", [MarkRow("x")])], SCHEMA_VERSION);
            var back := Parse(Print(inv), rootPath);
            && back.Ok? && back.value.directories == [Listing("r", []), Listing("x", [])]
  {
    LoneMarkRow("r", "x", rootPath);
  }

  // ---------------------------------------------------------------- through a file

  /** `load_transcript` on the file's contents. */
  function Load(contents: string, rootPath: Option<string>): Result<Inventory, TranscriptError> {
    Parse(StripAnsi(contents), rootPath)
  }

  /** What the loader can at best return: rows are stripped by the writer and again by the
      loader, paths by the loader only. */
  function Cleaned(d: Listing): Listing {
    Listing(StripAnsi(d.path), Map(StripAnsi, Map(StripAnsi, d.longLines)))
  }

  /** Rows and path stripped once. */
  function StrippedOnce(d: Listing): Listing {
    Listing(StripAnsi(d.path), Map(StripAnsi, d.longLines))
  }

  lemma RuleIsPlain()
    ensures StripAnsi(RULE) == RULE
  {
    StripIsSubstitute(RULE);
    NoEscNothingToDo(RULE);
  }

  lemma StripBlock(d: Listing)
    ensures Map(StripAnsi, Block(StripLines(d))) == Block(Cleaned(d))
  {
    var rows := Map(StripAnsi, d.longLines);
    StripKeepsPlainPrefix(DIR_MARK + " ", d.path);
    RuleIsPlain();
    MapConcat(StripAnsi, [DIR_MARK + " " + d.path, RULE], rows);
    assert Map(StripAnsi, [DIR_MARK + " " + d.path, RULE]) == [DIR_MARK + " " + StripAnsi(d.path), RULE];
  }

  lemma BlocksCons(d: Listing, dirs: seq<Listing>)
    ensures Blocks([d] + dirs) == Block(d) + Blocks(dirs)
  {
    TailOfCons(d, dirs);
  }

  lemma {:induction false} StripBlocks(dirs: seq<Listing>)
    ensures Map(StripAnsi, Blocks(Map(StripLines, dirs))) == Blocks(Map(Cleaned, dirs))
  {
    if dirs != [] {
      var tail := dirs[1..];
      HeadAndTail(dirs);
      MapPrepend(StripLines, dirs[0], tail);
      MapPrepend(Cleaned, dirs[0], tail);
      BlocksCons(StripLines(dirs[0]), Map(StripLines, tail));
      BlocksCons(Cleaned(dirs[0]), Map(Cleaned, tail));
      MapConcat(StripAnsi, Block(StripLines(dirs[0])), Blocks(Map(StripLines, tail)));
      StripBlock(dirs[0]);
      StripBlocks(tail);
    }
  }

  lemma StripTerminated(body: string)
    ensures StripAnsi(body + "\n") == StripAnsi(body) + "\n"
  {
    StripIsSubstitute(body);
    StripIsSubstitute(body + "\n");
    SubstituteSplitsAtNewline(body, "");
    assert body + "\n" + "" == body + "\n";
  }

  lemma HeaderHasNoEscape()
    ensures ESC !in HEADER
  {
  }

  lemma PlainIsFixed(s: string)
    requires ESC !in s
    ensures StripAnsi(s) == s
  {
  }

  lemma WriterThenStripper(inv: Inventory)
    ensures StripAnsi(Print(inv)) == RawText(Map(Cleaned, inv.directories))
  {
    var blocks := Blocks(Map(StripLines, inv.directories));
    StripTerminated(Join('\n', [HEADER] + blocks));
    StripIsLinewise([HEADER] + blocks);
    HeaderHasNoEscape();
    PlainIsFixed(HEADER);
    MapPrepend(StripAnsi, HEADER, blocks);
    StripBlocks(inv.directories);
  }

  /** Loading a written transcript gives the cleaned inventory if and only if that is well formed. */
  lemma LoadAfterWrite(inv: Inventory, rootPath: Option<string>)
    ensures (Load(Print(inv), rootPath).Ok? &&
             Load(Print(inv), rootPath).value.directories == Map(Cleaned, inv.directories))
            <==> WellFormed(Map(Cleaned, inv.directories))
  {
    WriterThenStripper(inv);
    RawRoundTrip(Map(Cleaned, inv.directories), rootPath);
  }

  /** Cleaning is a single stripping of rows and path if and only if no row creates a sequence while it is stripped. */
  lemma CleanedIsOnePass(d: Listing)
    ensures Cleaned(d) == StrippedOnce(d) <==> forall l :: l in d.longLines ==> !CreatesSequence(l)
  {
    var once := Map(StripAnsi, d.longLines);
    var twice := Map(StripAnsi, once);
    forall i | 0 <= i < |once| ensures twice[i] == once[i] <==> !CreatesSequence(d.longLines[i]) {
      IdempotentExactly(d.longLines[i]);
    }
    if twice == once {
      forall l | l in d.longLines ensures !CreatesSequence(l) {
        var i :| 0 <= i < |once| && d.longLines[i] == l;
        assert twice[i] == once[i];
      }
    }
    if forall l :: l in d.longLines ==> !CreatesSequence(l) {
      forall i | 0 <= i < |once| ensures twice[i] == once[i] {
        assert d.longLines[i] in d.longLines;
      }
    }
  }

  lemma OnceThenPrinted(inv: Inventory)
    ensures StripAnsi(Print(inv)) == Print(inv.(directories := Map(StrippedOnce, inv.directories)))
  {
    WriterThenStripper(inv);
    assert Map(StripLines, Map(StrippedOnce, inv.directories)) == Map(Cleaned, inv.directories);
  }

  /** Loading a written transcript gives the inventory with rows and paths stripped once if and only if that is well
      formed and no row is left with an escape sequence. */
  lemma LoadStripsOnceExactly(inv: Inventory, rootPath: Option<string>)
    ensures var once := Map(StrippedOnce, inv.directories);
            (Load(Print(inv), rootPath).Ok? && Load(Print(inv), rootPath).value.directories == once)
            <==> WellFormed(once) && LinesFixed(once)
  {
    OnceThenPrinted(inv);
    RoundTripExact(inv.(directories := Map(StrippedOnce, inv.directories)), rootPath);
  }

  // ---------------------------------------------------------------- what comes back from a file unchanged

  /** No escape sequence in path or rows. */
  predicate PlainListing(d: Listing) {
    StripAnsi(d.path) == d.path && forall l :: l in d.longLines ==> StripAnsi(l) == l
  }

  predicate Restorable(dirs: seq<Listing>) {
    WellFormed(dirs) && forall d :: d in dirs ==> PlainListing(d)
  }

  lemma CleanedSize(d: Listing)
    ensures ListingSize(Cleaned(d)) <= ListingSize(d)
    ensures ListingSize(Cleaned(d)) == ListingSize(d) ==> PlainListing(d)
    ensures PlainListing(d) ==> Cleaned(d) == d
  {
    var once := Map(StripAnsi, d.longLines);
    StripFixedPoint(d.path);
    StripSize(d.longLines);
    StripSize(once);
    if once == d.longLines {
      forall l | l in d.longLines ensures StripAnsi(l) == l {
        var i :| 0 <= i < |once| && d.longLines[i] == l;
        assert once[i] == l;
      }
    }
    if PlainListing(d) {
      assert forall i :: 0 <= i < |once| ==> d.longLines[i] in d.longLines;
      assert once == d.longLines;
    }
  }

  lemma {:induction false} CleanedBodySize(dirs: seq<Listing>)
    ensures BodySize(Map(Cleaned, dirs)) <= BodySize(dirs)
    ensures BodySize(Map(Cleaned, dirs)) == BodySize(dirs) ==> forall d :: d in dirs ==> PlainListing(d)
    ensures (forall d :: d in dirs ==> PlainListing(d)) ==> Map(Cleaned, dirs) == dirs
  {
    if dirs != [] {
      var tail := dirs[1..];
      HeadAndTail(dirs);
      MapPrepend(Cleaned, dirs[0], tail);
      TailOfCons(Cleaned(dirs[0]), Map(Cleaned, tail));
      CleanedSize(dirs[0]);
      CleanedBodySize(tail);
      assert dirs[0] in dirs;
    }
  }

  lemma CleanedBreakFree(d: Listing)
    requires WellFormedListing(d)
    ensures BreakFree(Cleaned(d).path) && forall l :: l in Cleaned(d).longLines ==> BreakFree(l)
  {
    StripFixedPoint(d.path);
    forall l | l in Cleaned(d).longLines ensures BreakFree(l) {
      var i :| 0 <= i < |d.longLines| && l == StripAnsi(StripAnsi(d.longLines[i]));
      assert IsBodyLine(d.longLines[i]);
      StripFixedPoint(d.longLines[i]);
      StripFixedPoint(StripAnsi(d.longLines[i]));
    }
  }

  lemma LoadedSize(dirs: seq<Listing>, rootPath: Option<string>)
    requires WellFormed(dirs) && Parse(RawText(Map(Cleaned, dirs)), rootPath).Ok?
    ensures BodySize(Parse(RawText(Map(Cleaned, dirs)), rootPath).value.directories) <= BodySize(Map(Cleaned, dirs))
  {
    var cleaned := Map(Cleaned, dirs);
    forall i | 0 <= i < |cleaned|
      ensures BreakFree(cleaned[i].path) && forall l :: l in cleaned[i].longLines ==> BreakFree(l)
    {
      assert dirs[i] in dirs;
      CleanedBreakFree(dirs[i]);
    }
    SplitRawText(cleaned);
    BlocksGrowth(START, cleaned);
  }

  /** For every inventory: the file restores its directories if and only if they are well formed and hold no escape
      sequence, in rows or paths. */
  lemma LoadRestoresExactly(inv: Inventory, rootPath: Option<string>)
    ensures (Load(Print(inv), rootPath).Ok? && Load(Print(inv), rootPath).value.directories == inv.directories)
            <==> Restorable(inv.directories)
  {
    WriterThenStripper(inv);
    CleanedBodySize(inv.directories);
    if Load(Print(inv), rootPath).Ok? && Load(Print(inv), rootPath).value.directories == inv.directories {
      ParseYieldsWellFormed(StripAnsi(Print(inv)), rootPath);
      LoadedSize(inv.directories, rootPath);
    }
    if Restorable(inv.directories) {
      LoadAfterWrite(inv, rootPath);
    }
  }
}
