/** Normalized ASM paths and the expansion of a scope (asm_cleanup/domain/paths.py). */
module Paths {
  import opened Sequences
  import opened Text
  import opened AliasRecords
  import opened FirstOccurrence

  function Tail(s: string): string {
    if s == [] then [] else s[1..]
  }

  function NormalizeDiskGroupToken(dg: string): string {
    var token := Strip(dg);
    var plus := RStripSlashes(if StartsWith(token, "+") then token else "+" + token);
    "+" + Upper(Split(Tail(plus), '/')[0])
  }

  /** The disk group that a text names: trimmed and without an optional plus sign in front, what stands before the first
      slash. */
  ghost predicate NamesGroup(text: string, name: string) {
    '/' !in name && exists rest :: (rest == "" || rest[0] == '/')
                                   && (if StartsWith(Strip(text), "+") then Strip(text) == "+" + (name + rest)
                                       else Strip(text) == name + rest)
  }

  lemma GroupNamed(text: string)
    ensures var body := if StartsWith(Strip(text), "+") then Strip(text)[1..] else Strip(text);
            forall name :: NamesGroup(text, name) <==> name == Split(body, '/')[0]
  {
    var trimmed := Strip(text);
    var body := if StartsWith(trimmed, "+") then trimmed[1..] else trimmed;
    var rest := FirstPartIsPrefix(body, '/');
    var first := Split(body, '/')[0];
    assert StartsWith(trimmed, "+") ==> trimmed == "+" + body;
    assert NamesGroup(text, first);
    forall name | NamesGroup(text, name) ensures name == first {
      var r :| (r == "" || r[0] == '/')
               && (if StartsWith(trimmed, "+") then trimmed == "+" + (name + r) else trimmed == name + r);
      assert body == name + r;
      FirstPartExact(name, r, '/');
    }
  }

  lemma FirstPartWithoutEndSlashes(s: string)
    ensures Split(RStripSlashes(s), '/')[0] == Split(s, '/')[0]
  {
    var slashes := RStripSlashesExact(s);
    var kept := RStripSlashes(s);
    var rest := FirstPartIsPrefix(kept, '/');
    var first := Split(kept, '/')[0];
    Associative(first, rest, slashes);
    if rest + slashes != "" && rest == "" { assert slashes[0] in slashes; }
    FirstPartExact(first, rest + slashes, '/');
  }

  lemma PlusWithoutEndSlashes(body: string)
    ensures RStripSlashes("+" + body) == "+" + RStripSlashes(body)
    decreases |body|
  {
    if body != [] {
      assert ("+" + body)[..|"+" + body| - 1] == "+" + body[..|body| - 1];
      if body[|body| - 1] == '/' { PlusWithoutEndSlashes(body[..|body| - 1]); }
    }
  }

  /** A disk group token is spelled with a plus sign and the upper-cased name that it names. */
  lemma DiskGroupTokenExact(dg: string, name: string)
    requires NamesGroup(dg, name)
    ensures NormalizeDiskGroupToken(dg) == "+" + Upper(name)
  {
    var token := Strip(dg);
    var body := if StartsWith(token, "+") then token[1..] else token;
    assert (if StartsWith(token, "+") then token else "+" + token) == "+" + body;
    GroupNamed(dg);
    PlusWithoutEndSlashes(body);
    assert Tail("+" + RStripSlashes(body)) == RStripSlashes(body);
    FirstPartWithoutEndSlashes(body);
  }

  predicate IsTokenChar(c: char) {
    IsLetter(c) || IsDigit(c) || c == '_' || c == '$' || c == '#' || c == '-'
  }

  /** Letters, digits, `_`, `$`, `#` and `-`, by code point. */
  predicate TokenChars(name: string) {
    forall c :: c in name ==>
      65 <= c as int <= 90 || 97 <= c as int <= 122 || 48 <= c as int <= 57 || c as int in {95, 36, 35, 45}
  }

  /** `\+?[A-Za-z0-9_$#-]+/?` on the stripped token. */
  predicate IsDiskGroupToken(token: string) {
    var t := Strip(token);
    var name := if StartsWith(t, "+") then t[1..] else t;
    var bare := if EndsWith(name, "/") then name[..|name| - 1] else name;
    bare != "" && forall c :: c in bare ==> IsTokenChar(c)
  }

  /** All segments but the last in upper case; a lone segment too. */
  function UpperAllButLast(parts: seq<string>): seq<string> {
    if |parts| <= 1 then Map(Upper, parts)
    else Map(Upper, parts[..|parts| - 1]) + [parts[|parts| - 1]]
  }

  function NormalizeAsmPath(path: string): string {
    if !StartsWith(path, "+") then path else Join('/', UpperAllButLast(Split(path, '/')))
  }

  method NormalizePath(path: string) returns (r: string)
    ensures r == NormalizeAsmPath(path)
  {
    if !StartsWith(path, "+") { return path; }
    var parts := Split(path, '/');
    var normalized := [Upper(parts[0])];
    assert parts[..1] == [parts[0]];
    if |parts| > 1 {
      for i := 1 to |parts| - 1
        invariant normalized == Map(Upper, parts[..i])
      {
        assert parts[..i + 1] == parts[..i] + [parts[i]];
        MapConcat(Upper, parts[..i], [parts[i]]);
        assert Map(Upper, [parts[i]]) == [Upper(parts[i])];
        normalized := normalized + [Upper(parts[i])];
      }
      normalized := normalized + [parts[|parts| - 1]];
    } else {
      assert parts == [parts[0]];
    }
    r := Join('/', normalized);
  }

  // ---------------------------------------------------------------- normalizing twice, folding case

  lemma UpperKeepsSlashFree(s: string)
    requires '/' !in s
    ensures '/' !in Upper(s)
  {
    forall i | 0 <= i < |s| ensures Upper(s)[i] != '/' {
      assert s[i] in s;
    }
  }

  lemma NormalizedParts(path: string)
    requires StartsWith(path, "+")
    ensures var parts := UpperAllButLast(Split(path, '/'));
            && Split(NormalizeAsmPath(path), '/') == parts
            && UpperAllButLast(parts) == parts
  {
    var parts := Split(path, '/');
    var upper := UpperAllButLast(parts);
    SplitParts(path, '/');
    forall p | p in upper ensures '/' !in p {
      var i :| 0 <= i < |upper| && upper[i] == p;
      assert parts[i] in parts;
      UpperKeepsSlashFree(parts[i]);
    }
    SplitJoin(upper, '/');
    forall i | 0 <= i < |upper| ensures UpperAllButLast(upper)[i] == upper[i] {
      UpperTwice(parts[i]);
    }
    assert UpperAllButLast(upper) == upper;
  }

  lemma {:induction false} JoinFolds(parts: seq<string>, folded: seq<string>)
    requires |parts| == |folded|
    requires forall i :: 0 <= i < |parts| ==> Casefold(parts[i]) == Casefold(folded[i])
    ensures Casefold(Join('/', parts)) == Casefold(Join('/', folded))
  {
    if |parts| >= 2 {
      JoinFolds(parts[1..], folded[1..]);
      CaseConcat(parts[0] + "/", Join('/', parts[1..]));
      CaseConcat(folded[0] + "/", Join('/', folded[1..]));
      CaseConcat(parts[0], "/");
      CaseConcat(folded[0], "/");
    }
  }

  /** Normalizing changes nothing but case. */
  lemma NormalizeKeepsFoldedPath(path: string)
    ensures Casefold(NormalizeAsmPath(path)) == Casefold(path)
  {
    if StartsWith(path, "+") {
      var parts := Split(path, '/');
      forall i | 0 <= i < |parts| ensures Casefold(UpperAllButLast(parts)[i]) == Casefold(parts[i]) {
        UpperTwice(parts[i]);
      }
      JoinFolds(UpperAllButLast(parts), parts);
      JoinSplit(path, '/');
    }
  }

  /** A normalized path is a fixed point. */
  lemma NormalizeIdempotent(path: string)
    ensures NormalizeAsmPath(NormalizeAsmPath(path)) == NormalizeAsmPath(path)
  {
    if StartsWith(path, "+") {
      NormalizedParts(path);
    }
  }

  /** Segment by segment: all but the last are put in upper case, and a lone one too. */
  lemma NormalizeBySegments(path: string)
    requires StartsWith(path, "+")
    ensures var before, after := Split(path, '/'), Split(NormalizeAsmPath(path), '/');
            && |after| == |before|
            && forall i :: 0 <= i < |before| ==>
                 after[i] == if i == |before| - 1 && i > 0 then before[i] else Upper(before[i])
  {
    NormalizedParts(path);
  }

  // ---------------------------------------------------------------- expansion

  function WalkRoot(dg: string, db: string): string {
    NormalizeAsmPath(NormalizeDiskGroupToken(dg) + "/" + db)
  }

  function RootsOf(dg: string, databases: seq<string>): seq<string> {
    seq(|databases|, i requires 0 <= i < |databases| => WalkRoot(dg, databases[i]))
  }

  function RootsIn(databases: seq<string>): string -> seq<string> {
    (dg: string) => RootsOf(dg, databases)
  }

  /** Disk groups times databases, disk group by disk group. */
  function AllRoots(diskGroups: seq<string>, databases: seq<string>): seq<string> {
    Flatten(Map(RootsIn(databases), diskGroups))
  }

  lemma GroupStep(diskGroups: seq<string>, databases: seq<string>, i: nat)
    requires i < |diskGroups|
    ensures AllRoots(diskGroups[..i + 1], databases)
            == AllRoots(diskGroups[..i], databases) + RootsOf(diskGroups[i], databases)
  {
    MapAppend(RootsIn(databases), diskGroups, i);
    FlattenAppend(Map(RootsIn(databases), diskGroups[..i]), RootsOf(diskGroups[i], databases));
  }

  lemma RootsAppend(dg: string, databases: seq<string>, j: nat)
    requires j < |databases|
    ensures RootsOf(dg, databases[..j + 1]) == RootsOf(dg, databases[..j]) + [WalkRoot(dg, databases[j])]
  {
  }

  /** Roots come disk group by disk group, and within one in the order of the databases. */
  lemma RootsInOrder(dg: string, others: seq<string>, databases: seq<string>)
    ensures AllRoots([dg] + others, databases) == AllRoots([dg], databases) + AllRoots(others, databases)
    ensures |AllRoots([dg], databases)| == |databases|
    ensures forall j :: 0 <= j < |databases| ==>
              AllRoots([dg], databases)[j] == NormalizeAsmPath(NormalizeDiskGroupToken(dg) + "/" + databases[j])
  {
    var roots := RootsOf(dg, databases);
    MapPrepend(RootsIn(databases), dg, others);
    TailOfCons(roots, Map(RootsIn(databases), others));
    assert Map(RootsIn(databases), [dg]) == [roots];
    assert Flatten([roots][1..]) == [];
    EmptyEnds(roots);
  }

  /** An optional plus sign, a name and an optional slash. */
  ghost predicate TokenParts(t: string, plus: bool, name: string, slash: bool) {
    name != "" && TokenChars(name) && t == (if plus then "+" else "") + name + (if slash then "/" else "")
  }

  lemma TokenCharsAgree(name: string)
    ensures TokenChars(name) <==> forall c :: c in name ==> IsTokenChar(c)
  {
  }

  lemma PartsOfToken(t: string, plus: bool, name: string, slash: bool)
    requires TokenParts(t, plus, name, slash)
    ensures StartsWith(t, "+") <==> plus
    ensures (if plus then t[1..] else t) == name + (if slash then "/" else "")
    ensures EndsWith(name + (if slash then "/" else ""), "/") <==> slash
    ensures slash ==> (name + "/")[..|name|] == name
  {
    assert name[0] in name && name[|name| - 1] in name;
    if plus {
      assert t == "+" + (name + (if slash then "/" else ""));
    } else {
      assert t[0] == name[0];
    }
    var body := name + (if slash then "/" else "");
    assert body[|body| - 1] == if slash then '/' else name[|name| - 1];
  }

  /** Exactly the texts of that shape are taken for disk groups. */
  lemma DiskGroupTokensExact(token: string)
    ensures IsDiskGroupToken(token) <==> exists plus, name, slash :: TokenParts(Strip(token), plus, name, slash)
  {
    var t := Strip(token);
    var plus := StartsWith(t, "+");
    var body := if plus then t[1..] else t;
    var slash := EndsWith(body, "/");
    var name := if slash then body[..|body| - 1] else body;
    TokenCharsAgree(name);
    if IsDiskGroupToken(token) {
      assert t == (if plus then "+" else "") + name + (if slash then "/" else "");
      assert TokenParts(t, plus, name, slash);
    }
    if p, n, s :| TokenParts(t, p, n, s) {
      PartsOfToken(t, p, n, s);
      TokenCharsAgree(n);
      assert name == n;
    }
  }

  /** The inner loop: one disk group with every database. */
  method AddRoots(dg: string, databases: seq<string>, paths: seq<string>, seen: set<string>, ghost before: seq<string>)
    returns (grown: seq<string>, known: set<string>)
    requires paths == Dedup(Casefold, before) && seen == KeysOf(Casefold, before)
    ensures grown == Dedup(Casefold, before + RootsOf(dg, databases))
    ensures known == KeysOf(Casefold, before + RootsOf(dg, databases))
  {
    grown, known := paths, seen;
    var ndg := NormalizeDiskGroupToken(dg);
    ghost var all := before;
    for j := 0 to |databases|
      invariant all == before + RootsOf(dg, databases[..j])
      invariant grown == Dedup(Casefold, all) && known == KeysOf(Casefold, all)
    {
      var p := NormalizePath(ndg + "/" + databases[j]);
      RootsAppend(dg, databases, j);
      Associative(before, RootsOf(dg, databases[..j]), [p]);
      DedupAppend(Casefold, all, p);
      all := all + [p];
      var key := Casefold(p);
      if key !in known {
        known := known + {key};
        grown := grown + [p];
      }
    }
    assert databases[..|databases|] == databases;
  }

  /** `expand_asm_walk_paths`: the first representatives, up to case, of disk group times database. */
  method ExpandAsmWalkPaths(diskGroups: seq<string>, databases: seq<string>) returns (paths: seq<string>)
    ensures paths == Dedup(Casefold, AllRoots(diskGroups, databases))
  {
    paths := [];
    var seen: set<string> := {};
    for i := 0 to |diskGroups|
      invariant paths == Dedup(Casefold, AllRoots(diskGroups[..i], databases))
      invariant seen == KeysOf(Casefold, AllRoots(diskGroups[..i], databases))
    {
      GroupStep(diskGroups, databases, i);
      paths, seen := AddRoots(diskGroups[i], databases, paths, seen, AllRoots(diskGroups[..i], databases));
    }
    assert diskGroups[..|diskGroups|] == diskGroups;
  }

  lemma RootsAreFixedPoints(diskGroups: seq<string>, databases: seq<string>)
    ensures forall p :: p in AllRoots(diskGroups, databases) ==> NormalizeAsmPath(p) == p
    ensures forall p :: p in AllRoots(diskGroups, databases) ==>
              exists dg, db :: dg in diskGroups && db in databases && p == WalkRoot(dg, db)
  {
    var rootss := Map(RootsIn(databases), diskGroups);
    forall p | p in AllRoots(diskGroups, databases)
      ensures NormalizeAsmPath(p) == p
      ensures exists dg, db :: dg in diskGroups && db in databases && p == WalkRoot(dg, db)
    {
      FlattenMembers(rootss, p);
      var roots :| roots in rootss && p in roots;
      var i :| 0 <= i < |diskGroups| && rootss[i] == roots;
      var j :| 0 <= j < |databases| && p == WalkRoot(diskGroups[i], databases[j]);
      NormalizeIdempotent(NormalizeDiskGroupToken(diskGroups[i]) + "/" + databases[j]);
      assert diskGroups[i] in diskGroups && databases[j] in databases;
    }
  }
}
