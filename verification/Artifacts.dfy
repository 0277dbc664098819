/** Names of the files a walk leaves behind (asm_cleanup/pipeline/walk_results.py). */
module Artifacts {
  import opened Wrappers
  import opened Sequences
  import opened Text
  import opened Transcript

  // ---------------------------------------------------------------- slugs

  /** `[0-9A-Za-z._-]` */
  predicate IsSlugChar(c: char) {
    IsDigit(c) || IsLetter(c) || c == '.' || c == '_' || c == '-'
  }

  function Scrub(s: string): string {
    seq(|s|, i requires 0 <= i < |s| => if IsSlugChar(s[i]) then s[i] else '_')
  }

  /** `re.sub("_+", "_", s)` */
  function Collapse(s: string): string {
    if |s| <= 1 then s
    else if s[0] == '_' && s[1] == '_' then Collapse(s[1..])
    else [s[0]] + Collapse(s[1..])
  }

  function LTrim(s: string): string {
    if s != [] && s[0] == '_' then LTrim(s[1..]) else s
  }

  function RTrim(s: string): string {
    if s != [] && s[|s| - 1] == '_' then RTrim(s[..|s| - 1]) else s
  }

  function AsmPathSlug(asmPath: string): string {
    var p := Strip(asmPath);
    var name := if StartsWith(p, "+") then p[1..] else p;
    var slug := RTrim(LTrim(Collapse(Scrub(name))));
    if slug == "" then "asm" else slug
  }

  predicate AllSlugChars(s: string) {
    forall i :: 0 <= i < |s| ==> IsSlugChar(s[i])
  }

  predicate NoDoubleUnderscore(s: string) {
    forall i :: 0 < i < |s| ==> !(s[i - 1] == '_' && s[i] == '_')
  }

  /** Safe as one file-name component, in normal form. */
  predicate IsSlug(s: string) {
    && s != "" && AllSlugChars(s) && NoDoubleUnderscore(s)
    && s[0] != '_' && s[|s| - 1] != '_'
  }

  lemma PrependNormal(c: char, rest: string)
    requires NoDoubleUnderscore(rest) && (rest != [] ==> !(c == '_' && rest[0] == '_'))
    ensures NoDoubleUnderscore([c] + rest)
  {
    var s := [c] + rest;
    forall i | 0 < i < |s| ensures !(s[i - 1] == '_' && s[i] == '_') {
      if i > 1 { assert s[i] == rest[i - 1] && s[i - 1] == rest[i - 1 - 1]; }
    }
  }

  lemma {:induction false} CollapseNormal(s: string)
    requires AllSlugChars(s)
    ensures AllSlugChars(Collapse(s)) && NoDoubleUnderscore(Collapse(s))
    ensures s != [] ==> Collapse(s) != [] && Collapse(s)[0] == s[0]
    ensures NoDoubleUnderscore(s) ==> Collapse(s) == s
  {
    if |s| > 1 {
      CollapseNormal(s[1..]);
      var rest := Collapse(s[1..]);
      if !(s[0] == '_' && s[1] == '_') {
        PrependNormal(s[0], rest);
      }
      if NoDoubleUnderscore(s) {
        assert s[1 - 1] == s[0];
        forall i | 0 < i < |s[1..]| ensures !(s[1..][i - 1] == '_' && s[1..][i] == '_') {
          assert s[1..][i] == s[i + 1] && s[1..][i - 1] == s[i + 1 - 1];
        }
      }
    }
  }

  lemma {:induction false} LTrimNormal(s: string)
    requires AllSlugChars(s) && NoDoubleUnderscore(s)
    ensures AllSlugChars(LTrim(s)) && NoDoubleUnderscore(LTrim(s))
    ensures LTrim(s) != [] ==> LTrim(s)[0] != '_'
    ensures s != [] && s[0] != '_' ==> LTrim(s) == s
  {
    if s != [] && s[0] == '_' {
      var t := s[1..];
      forall i | 0 < i < |t| ensures !(t[i - 1] == '_' && t[i] == '_') {
        assert t[i] == s[i + 1] && t[i - 1] == s[i + 1 - 1];
      }
      LTrimNormal(t);
    }
  }

  lemma {:induction false} RTrimNormal(s: string)
    requires AllSlugChars(s) && NoDoubleUnderscore(s)
    ensures AllSlugChars(RTrim(s)) && NoDoubleUnderscore(RTrim(s))
    ensures RTrim(s) != [] ==> RTrim(s)[|RTrim(s)| - 1] != '_' && RTrim(s)[0] == s[0]
    ensures s != [] && s[|s| - 1] != '_' ==> RTrim(s) == s
  {
    if s != [] && s[|s| - 1] == '_' {
      RTrimNormal(s[..|s| - 1]);
    }
  }

  lemma TrimmedIsSlug(scrubbed: string)
    requires AllSlugChars(scrubbed)
    ensures var slug := RTrim(LTrim(Collapse(scrubbed))); slug == "" || IsSlug(slug)
  {
    CollapseNormal(scrubbed);
    LTrimNormal(Collapse(scrubbed));
    RTrimNormal(LTrim(Collapse(scrubbed)));
  }

  lemma ScrubbedIsSafe(s: string)
    ensures AllSlugChars(Scrub(s))
  {
  }

  lemma FallbackIsSlug()
    ensures IsSlug("asm")
  {
  }

  lemma SlugHasNoSlash(s: string)
    requires IsSlug(s)
    ensures '/' !in s
  {
  }

  /** Every path has a slug in normal form, which is a single file-name component. */
  lemma SlugIsSafe(asmPath: string)
    ensures IsSlug(AsmPathSlug(asmPath))
    ensures '/' !in AsmPathSlug(asmPath)
  {
    var p := Strip(asmPath);
    var name := if StartsWith(p, "+") then p[1..] else p;
    ScrubbedIsSafe(name);
    TrimmedIsSlug(Scrub(name));
    FallbackIsSlug();
    SlugHasNoSlash(AsmPathSlug(asmPath));
  }

  /** A slug is its own slug. */
  lemma SlugIsFixedPoint(s: string)
    requires IsSlug(s)
    ensures AsmPathSlug(s) == s
  {
    assert IsSlugChar(s[0]) && IsSlugChar(s[|s| - 1]);
    StripTrimmed(s);
    assert !StartsWith(s, "+") by { assert s[0] != '+'; }
    assert Scrub(s) == s;
    CollapseNormal(s);
    LTrimNormal(s);
    RTrimNormal(s);
  }

  lemma {:induction false} CollapseConcat(a: string, b: string)
    requires NoDoubleUnderscore(a) && a != [] && a[|a| - 1] != '_'
    ensures Collapse(a + b) == a + Collapse(b)
  {
    assert (a + b)[0] == a[0] && (a + b)[1..] == a[1..] + b;
    if |a| > 1 {
      assert (a + b)[1] == a[1] && !(a[1 - 1] == '_' && a[1] == '_');
      forall i | 0 < i < |a[1..]| ensures !(a[1..][i - 1] == '_' && a[1..][i] == '_') {
        assert a[1..][i] == a[i + 1] && a[1..][i - 1] == a[i + 1 - 1];
      }
      CollapseConcat(a[1..], b);
      Associative([a[0]], a[1..], Collapse(b));
      HeadAndTail(a);
    } else {
      assert a == [a[0]];
      if b == [] { EmptyEnds(a); } else { assert (a + b)[1] == b[0]; }
    }
  }

  lemma SlugsJoined(a: string, b: string)
    requires IsSlug(a) && IsSlug(b)
    ensures IsSlug(a + ['_'] + b)
  {
    var s := a + ['_'] + b;
    forall i | 0 < i < |s| ensures !(s[i - 1] == '_' && s[i] == '_') {
      if i < |a| { assert s[i] == a[i] && s[i - 1] == a[i - 1]; }
      if i > |a| + 1 { assert s[i] == b[i - |a| - 1] && s[i - 1] == b[i - |a| - 1 - 1]; }
    }
    assert s[|s| - 1] == b[|b| - 1];
  }

  lemma JoinOfSlugs(parts: seq<string>)
    requires parts != [] && forall p :: p in parts ==> IsSlug(p)
    ensures Scrub(Join('/', parts)) == Join('_', parts)
    ensures IsSlug(Join('_', parts))
    decreases |parts|
  {
    assert parts[0] in parts;
    if |parts| == 1 {
      assert Scrub(parts[0]) == parts[0];
    } else {
      var rest := parts[1..];
      JoinOfSlugs(rest);
      var first, tail, slug := parts[0], Join('/', rest), Join('_', rest);
      assert Scrub(first + ['/'] + tail) == first + ['_'] + slug by {
        assert Scrub(tail) == slug;
        assert forall i :: 0 <= i < |first| ==> IsSlugChar(first[i]);
        assert |Scrub(first + ['/'] + tail)| == |first + ['_'] + slug|;
        forall i | 0 <= i < |first + ['_'] + slug| ensures Scrub(first + ['/'] + tail)[i] == (first + ['_'] + slug)[i] {
          if i > |first| {
            var k := i - |first| - 1;
            assert (first + ['/'] + tail)[i] == tail[k] && Scrub(tail)[k] == slug[k];
          }
        }
      }
      SlugsJoined(first, slug);
    }
  }

  lemma ScrubbedEnd(name: string)
    requires IsSlug(Scrub(name))
    ensures name != "" && !IsSpace(name[|name| - 1])
  {
    var last := |name| - 1;
    assert |Scrub(name)| == |name|;
    assert Scrub(name)[last] == if IsSlugChar(name[last]) then name[last] else '_';
  }

  lemma SlugIsUntouched(slug: string)
    requires IsSlug(slug)
    ensures RTrim(LTrim(Collapse(slug))) == slug
  {
    CollapseNormal(slug);
    LTrimNormal(slug);
    RTrimNormal(slug);
  }

  lemma SlugOfName(name: string)
    requires IsSlug(Scrub(name))
    ensures AsmPathSlug("+" + name) == Scrub(name)
  {
    ScrubbedEnd(name);
    var path := "+" + name;
    assert path[|path| - 1] == name[|name| - 1];
    StripTrimmed(path);
    assert path[1..] == name;
    SlugIsUntouched(Scrub(name));
  }

  /** A path whose segments are slugs has them as its slug, joined by underscores; the plus sign in front is dropped. */
  lemma SlugOfSegments(parts: seq<string>)
    requires parts != [] && forall p :: p in parts ==> IsSlug(p)
    ensures AsmPathSlug("+" + Join('/', parts)) == Join('_', parts)
  {
    JoinOfSlugs(parts);
    SlugOfName(Join('/', parts));
  }

  // ---------------------------------------------------------------- numbers

  function DigitOf(n: nat): char
    requires n < 10
  {
    ('0' as int + n) as char
  }

  function Decimal(n: nat): (s: string)
    ensures s != ""
  {
    if n < 10 then [DigitOf(n)] else Decimal(n / 10) + [DigitOf(n % 10)]
  }

  /** `{n:02d}` */
  function Pad2(n: nat): string {
    if n < 10 then ['0'] + Decimal(n) else Decimal(n)
  }

  lemma {:induction false} DecimalValue(n: nat)
    ensures DigitsValue(Decimal(n)) == n
    ensures forall i :: 0 <= i < |Decimal(n)| ==> IsDigit(Decimal(n)[i])
  {
    var s := Decimal(n);
    if n < 10 {
      assert s[..0] == [];
      assert DigitsValue(s[..0]) == 0;
    } else {
      DecimalValue(n / 10);
      assert s[..|s| - 1] == Decimal(n / 10);
    }
  }

  lemma DecimalIsInteger(n: nat)
    ensures IsIntegerBody(Decimal(n)) && Strip(Decimal(n)) == Decimal(n)
  {
    DecimalValue(n);
    var s := Decimal(n);
    StripTrimmed(s);
  }

  lemma SignedDecimal(c: char, n: nat)
    requires c == '+' || c == '-'
    ensures ParseInt([c] + Decimal(n)).Some? && ParseInt([c] + Decimal(n)).value == if c == '-' then 0 - n else n
  {
    DecimalValue(n);
    DecimalIsInteger(n);
    var t := [c] + Decimal(n);
    assert t[|t| - 1] == Decimal(n)[|Decimal(n)| - 1];
    StripTrimmed(t);
    TailOfCons(c, Decimal(n));
  }

  /** Every decimal number, signed or not, is read as itself. */
  lemma DecimalsAreRead(n: nat)
    ensures ParseInt(Decimal(n)) == Some(n)
    ensures ParseInt("+" + Decimal(n)) == Some(n)
    ensures ParseInt("-" + Decimal(n)).Some? && ParseInt("-" + Decimal(n)).value == 0 - n
  {
    DecimalValue(n);
    DecimalIsInteger(n);
    SignedDecimal('+', n);
    SignedDecimal('-', n);
  }

  lemma Pad2Value(n: nat)
    ensures DigitsValue(Pad2(n)) == n && '_' !in Pad2(n)
  {
    DecimalValue(n);
    if n < 10 {
      var s := Pad2(n);
      assert s[..1] == ['0'];
      assert ['0'][..0] == [];
      assert DigitsValue(['0'][..0]) == 0;
      assert DigitsValue(['0']) == 0;
    }
  }

  // ---------------------------------------------------------------- artifact names

  datatype Kind = WalkText | FixSql | ResultJson

  function Stem(kind: Kind): string {
    match kind
    case WalkText => "asm_walk_"
    case FixSql => "asm_omf_fix_"
    case ResultJson => "asm_result_"
  }

  function Extension(kind: Kind): string {
    match kind
    case WalkText => ".txt"
    case FixSql => ".sql"
    case ResultJson => ".json"
  }

  function Numbered(sequence: nat, slug: string): string {
    Pad2(sequence) + ['_'] + slug
  }

  function Middle(sequence: Option<nat>, slug: string): string {
    match sequence
    case Some(n) => Numbered(n, slug)
    case None => slug
  }

  /** The file name inside the log directory. */
  function ArtifactName(kind: Kind, stamp: string, sequence: Option<nat>, asmPath: string): string {
    Stem(kind) + (stamp + ['_'] + (Middle(sequence, AsmPathSlug(asmPath)) + Extension(kind)))
  }

  lemma Regroup(stem: string, stamp: string, number: string, slug: string, extension: string)
    ensures stem + (stamp + ['_'] + (number + ['_'] + slug + extension))
            == stem + stamp + "_" + number + "_" + slug + extension
    ensures stem + (stamp + ['_'] + (slug + extension)) == stem + stamp + "_" + slug + extension
  {
  }

  /** The names of a numbered path, spelled out for numbers below ten, and of a path without a number. */
  lemma NamesSpelledOut(stamp: string, n: nat, asmPath: string)
    requires n < 10
    ensures var slug, number := AsmPathSlug(asmPath), "0" + [(48 + n) as char];
            && ArtifactName(WalkText, stamp, Some(n), asmPath)
               == "asm_walk_" + stamp + "_" + number + "_" + slug + ".txt"
            && ArtifactName(FixSql, stamp, Some(n), asmPath)
               == "asm_omf_fix_" + stamp + "_" + number + "_" + slug + ".sql"
            && ArtifactName(ResultJson, stamp, Some(n), asmPath)
               == "asm_result_" + stamp + "_" + number + "_" + slug + ".json"
            && ArtifactName(WalkText, stamp, None, asmPath) == "asm_walk_" + stamp + "_" + slug + ".txt"
            && ArtifactName(FixSql, stamp, None, asmPath) == "asm_omf_fix_" + stamp + "_" + slug + ".sql"
            && ArtifactName(ResultJson, stamp, None, asmPath) == "asm_result_" + stamp + "_" + slug + ".json"
  {
    var slug, number := AsmPathSlug(asmPath), "0" + [(48 + n) as char];
    assert Pad2(n) == number;
    Regroup("asm_walk_", stamp, number, slug, ".txt");
    Regroup("asm_omf_fix_", stamp, number, slug, ".sql");
    Regroup("asm_result_", stamp, number, slug, ".json");
  }

  lemma KindsDiffer(a: Kind, b: Kind, s: string, t: string)
    requires Stem(a) + s == Stem(b) + t
    ensures a == b && s == t
  {
    assert (Stem(a) + s)[4] == Stem(a)[4] && (Stem(b) + t)[4] == Stem(b)[4];
    assert Stem(WalkText)[4] == 'w' && Stem(FixSql)[4] == 'o' && Stem(ResultJson)[4] == 'r';
    assert s == (Stem(a) + s)[|Stem(a)|..];
  }

  lemma SameSuffix(x: string, y: string, e: string)
    requires x + e == y + e
    ensures x == y
  {
    assert x == (x + e)[..|x + e| - |e|];
  }

  /** For one stamp a numbered name determines its kind, its number and its slug. */
  lemma NamesNeverCollide(stamp: string, a: Kind, i: nat, p: string, b: Kind, j: nat, q: string)
    ensures ArtifactName(a, stamp, Some(i), p) == ArtifactName(b, stamp, Some(j), q) <==>
            a == b && i == j && AsmPathSlug(p) == AsmPathSlug(q)
  {
    if ArtifactName(a, stamp, Some(i), p) == ArtifactName(b, stamp, Some(j), q) {
      var s, t := AsmPathSlug(p), AsmPathSlug(q);
      var x, y := Numbered(i, s) + Extension(a), Numbered(j, t) + Extension(b);
      KindsDiffer(a, b, stamp + ['_'] + x, stamp + ['_'] + y);
      assert x == (stamp + ['_'] + x)[|stamp| + 1..] && y == (stamp + ['_'] + y)[|stamp| + 1..];
      SameSuffix(Numbered(i, s), Numbered(j, t), Extension(a));
      Pad2Value(i);
      Pad2Value(j);
      FirstPartUnique('_', Pad2(i), Pad2(j), s, t);
    }
  }
}
