/** The string operations of Python that the pipeline relies on. */
module Text {
  import opened Sequences

  /** Characters removed by `str.strip`. */
  predicate IsSpace(c: char) {
    || '\t' <= c <= '\r'
    || '\U{1C}' <= c <= ' '
    || c == '\U{85}' || c == '\U{A0}' || c == '\U{1680}'
    || '\U{2000}' <= c <= '\U{200A}'
    || c == '\U{2028}' || c == '\U{2029}' || c == '\U{202F}' || c == '\U{205F}' || c == '\U{3000}'
  }

  /** Characters at which `str.splitlines` ends a line; all of them are spaces. */
  predicate IsLineBreak(c: char) {
    || '\n' <= c <= '\r'
    || '\U{1C}' <= c <= '\U{1E}'
    || c == '\U{85}' || c == '\U{2028}' || c == '\U{2029}'
  }

  predicate IsDigit(c: char) {
    '0' <= c <= '9'
  }

  predicate IsLetter(c: char) {
    'A' <= c <= 'Z' || 'a' <= c <= 'z'
  }

  // ---------------------------------------------------------------- case

  function UpperChar(c: char): char {
    if 'a' <= c <= 'z' then (c as int - 32) as char else c
  }

  function LowerChar(c: char): char {
    if 'A' <= c <= 'Z' then (c as int + 32) as char else c
  }

  /** Letters, digits, spaces and line breaks by code point. */
  lemma CharactersByCodePoint(c: char)
    ensures IsLetter(c) <==> 65 <= c as int <= 90 || 97 <= c as int <= 122
    ensures IsDigit(c) <==> 48 <= c as int <= 57
    ensures IsLineBreak(c) <==> 10 <= c as int <= 13 || 28 <= c as int <= 30 || c as int in {133, 8232, 8233}
    ensures IsSpace(c) <==> IsLineBreak(c) || c as int == 9 || c as int == 31 || c as int == 32 || c as int == 160
                            || c as int == 5760 || 8192 <= c as int <= 8202 || c as int in {8239, 8287, 12288}
    ensures UpperChar(c) as int == c as int - if 97 <= c as int <= 122 then 32 else 0
    ensures LowerChar(c) as int == c as int + if 65 <= c as int <= 90 then 32 else 0
  {
  }

  function Upper(s: string): string {
    seq(|s|, i requires 0 <= i < |s| => UpperChar(s[i]))
  }

  function Casefold(s: string): string {
    seq(|s|, i requires 0 <= i < |s| => LowerChar(s[i]))
  }

  predicate IsUpper(s: string) {
    Upper(s) == s
  }

  lemma UpperTwice(s: string)
    ensures Upper(Upper(s)) == Upper(s)
    ensures Casefold(Upper(s)) == Casefold(s)
    ensures Casefold(Casefold(s)) == Casefold(s)
  {
  }

  /** Upper-casing and case folding identify the same texts. */
  lemma FoldsAgree(s: string, t: string)
    ensures Upper(s) == Upper(t) <==> Casefold(s) == Casefold(t)
  {
    if Upper(s) == Upper(t) {
      forall i | 0 <= i < |s| ensures Casefold(s)[i] == Casefold(t)[i] { assert Upper(s)[i] == Upper(t)[i]; }
    }
    if Casefold(s) == Casefold(t) {
      forall i | 0 <= i < |s| ensures Upper(s)[i] == Upper(t)[i] { assert Casefold(s)[i] == Casefold(t)[i]; }
    }
  }

  lemma CaseConcat(s: string, t: string)
    ensures Upper(s + t) == Upper(s) + Upper(t)
    ensures Casefold(s + t) == Casefold(s) + Casefold(t)
  {
  }

  // ---------------------------------------------------------------- strip

  function LStrip(s: string): string {
    if s != [] && IsSpace(s[0]) then LStrip(s[1..]) else s
  }

  function RStrip(s: string): string {
    if s != [] && IsSpace(s[|s| - 1]) then RStrip(s[..|s| - 1]) else s
  }

  function Strip(s: string): string {
    RStrip(LStrip(s))
  }

  predicate Trimmed(s: string) {
    s == [] || (!IsSpace(s[0]) && !IsSpace(s[|s| - 1]))
  }

  predicate AllSpace(s: string) {
    forall c :: c in s ==> IsSpace(c)
  }

  lemma {:induction false} LStripParts(s: string)
    ensures |LStrip(s)| <= |s| && LStrip(s) == s[|s| - |LStrip(s)|..]
    ensures AllSpace(s[..|s| - |LStrip(s)|])
    ensures LStrip(s) != [] ==> !IsSpace(LStrip(s)[0])
  {
    if s != [] && IsSpace(s[0]) {
      LStripParts(s[1..]);
      var n := |s| - |LStrip(s)|;
      assert s[..n] == [s[0]] + s[1..][..n - 1];
    }
  }

  lemma {:induction false} RStripParts(s: string)
    ensures |RStrip(s)| <= |s| && RStrip(s) == s[..|RStrip(s)|]
    ensures AllSpace(s[|RStrip(s)|..])
    ensures RStrip(s) != [] ==> !IsSpace(RStrip(s)[|RStrip(s)| - 1])
  {
    if s != [] && IsSpace(s[|s| - 1]) {
      RStripParts(s[..|s| - 1]);
      var n := |RStrip(s)|;
      assert s[n..] == s[..|s| - 1][n..] + [s[|s| - 1]];
    }
  }

  lemma {:induction false} RStripStops(s: string, k: nat)
    requires k < |s| && !IsSpace(s[k])
    ensures |RStrip(s)| > k
    decreases |s|
  {
    if IsSpace(s[|s| - 1]) { RStripStops(s[..|s| - 1], k); }
  }

  /** `str.strip` removes spaces at both ends and nothing else. */
  lemma StripParts(s: string) returns (before: string, after: string)
    ensures s == before + Strip(s) + after
    ensures AllSpace(before) && AllSpace(after)
    ensures Trimmed(Strip(s))
  {
    LStripParts(s);
    var t := LStrip(s);
    RStripParts(t);
    before := s[..|s| - |t|];
    after := t[|RStrip(t)|..];
    assert s == before + t;
    assert t == RStrip(t) + after;
  }

  lemma StripTrimmed(s: string)
    requires Trimmed(s)
    ensures Strip(s) == s
  {
  }

  lemma {:induction false} LStripIgnores(before: string, s: string)
    requires AllSpace(before)
    ensures LStrip(before + s) == LStrip(s)
  {
    if before == [] {
      EmptyEnds(s);
    } else {
      assert before[0] in before;
      TailOfConcat(before, s);
      assert AllSpace(before[1..]);
      LStripIgnores(before[1..], s);
    }
  }

  lemma {:induction false} RStripIgnores(s: string, after: string)
    requires AllSpace(after)
    ensures RStrip(s + after) == RStrip(s)
    decreases |after|
  {
    if after == [] {
      EmptyEnds(s);
    } else {
      var n := |after| - 1;
      assert after[n] in after;
      assert (s + after)[..|s + after| - 1] == s + after[..n];
      RStripIgnores(s, after[..n]);
    }
  }

  lemma {:induction false} LStripOfConcat(s: string, after: string)
    requires LStrip(s) != []
    ensures LStrip(s + after) == LStrip(s) + after
  {
    TailOfConcat(s, after);
    if IsSpace(s[0]) { LStripOfConcat(s[1..], after); }
  }

  lemma {:induction false} BlankStripsAway(s: string)
    requires LStrip(s) == []
    ensures AllSpace(s)
  {
    LStripParts(s);
    assert s[..|s|] == s;
  }

  /** Space around a text makes no difference to trimming. */
  lemma StripIgnores(before: string, s: string, after: string)
    requires AllSpace(before) && AllSpace(after)
    ensures Strip(before + s + after) == Strip(s)
  {
    Associative(before, s, after);
    LStripIgnores(before, s + after);
    if LStrip(s) == [] {
      BlankStripsAway(s);
      LStripIgnores(s, after);
      LStripIgnores(after, "");
      EmptyEnds(after);
    } else {
      LStripOfConcat(s, after);
      RStripIgnores(LStrip(s), after);
    }
  }

  lemma StripTwice(s: string)
    ensures Strip(Strip(s)) == Strip(s)
  {
    var _, _ := StripParts(s);
    StripTrimmed(Strip(s));
  }

  // ---------------------------------------------------------------- prefixes

  predicate StartsWith(s: string, prefix: string) {
    prefix <= s
  }

  predicate EndsWith(s: string, suffix: string) {
    |suffix| <= |s| && s[|s| - |suffix|..] == suffix
  }

  predicate Contains(s: string, part: string) {
    exists i :: 0 <= i <= |s| && StartsWith(s[i..], part)
  }

  // ---------------------------------------------------------------- lines

  /** Position of the first line break, or the length when there is none. */
  function FirstBreak(s: string): (n: nat)
    ensures n <= |s|
    ensures forall i :: 0 <= i < n ==> !IsLineBreak(s[i])
    ensures n < |s| ==> IsLineBreak(s[n])
  {
    if s == [] || IsLineBreak(s[0]) then 0
    else
      var n := FirstBreak(s[1..]);
      assert forall i :: 0 < i <= n ==> s[i] == s[1..][i - 1];
      1 + n
  }

  /** Where the text after the first line break begins. */
  function AfterBreak(s: string): (k: nat)
    requires FirstBreak(s) < |s|
    ensures FirstBreak(s) < k <= |s|
  {
    var n := FirstBreak(s);
    if s[n] == '\r' && n + 1 < |s| && s[n + 1] == '\n' then n + 2 else n + 1
  }

  /** `str.splitlines`: CR LF ends one line, a final line break opens none. */
  function SplitLines(s: string): seq<string>
    decreases |s|
  {
    if s == [] then []
    else
      var n := FirstBreak(s);
      if n == |s| then [s]
      else [s[..n]] + SplitLines(s[AfterBreak(s)..])
  }

  predicate BreakFree(s: string) {
    forall c :: c in s ==> !IsLineBreak(c)
  }

  lemma {:induction false} SplitLinesBreakFree(s: string)
    ensures forall l :: l in SplitLines(s) ==> BreakFree(l)
    decreases |s|
  {
    if s != [] && FirstBreak(s) < |s| {
      SplitLinesBreakFree(s[AfterBreak(s)..]);
    }
  }

  lemma {:induction false} SplitLinesInside(s: string, l: string)
    requires l in SplitLines(s)
    ensures forall c :: c in l ==> c in s
    decreases |s|
  {
    if s != [] && FirstBreak(s) < |s| && l != s[..FirstBreak(s)] {
      SplitLinesInside(s[AfterBreak(s)..], l);
    }
  }

  /** `sep.join(parts)` for a one-character separator. */
  function Join(sep: char, parts: seq<string>): string {
    if parts == [] then ""
    else if |parts| == 1 then parts[0]
    else parts[0] + [sep] + Join(sep, parts[1..])
  }

  /** A break-free line in front of a newline is split off. */
  lemma SplitFirstLine(line: string, rest: string)
    requires BreakFree(line)
    ensures SplitLines(line + "\n" + rest) == [line] + SplitLines(rest)
  {
    var text := line + "\n" + rest;
    var n := |line|;
    assert text[n] == '\n' && text[..n] == line && text[n + 1..] == rest;
    assert forall i :: 0 <= i < n ==> text[i] == line[i] && line[i] in line;
    var m := FirstBreak(text);
    assert m == n;
  }

  /** Any line break in front of the rest splits off a break-free line; CR LF counts as one. */
  lemma SplitAtBreak(line: string, c: char, rest: string)
    requires BreakFree(line) && IsLineBreak(c) && !(c == '\r' && rest != [] && rest[0] == '\n')
    ensures SplitLines(line + [c] + rest) == [line] + SplitLines(rest)
  {
    var text := line + [c] + rest;
    assert text[|line|] == c && text[..|line|] == line && text[|line| + 1..] == rest;
    assert forall i :: 0 <= i < |line| ==> text[i] == line[i] && line[i] in line;
    assert FirstBreak(text) == |line|;
  }

  lemma SplitAtCrLf(line: string, rest: string)
    requires BreakFree(line)
    ensures SplitLines(line + "\r\n" + rest) == [line] + SplitLines(rest)
  {
    var text := line + "\r\n" + rest;
    assert text[|line|] == '\r' && text[|line| + 1] == '\n' && text[..|line|] == line && text[|line| + 2..] == rest;
    assert forall i :: 0 <= i < |line| ==> text[i] == line[i] && line[i] in line;
    assert FirstBreak(text) == |line|;
  }

  /** Printing break-free lines and splitting the text again loses nothing. */
  lemma {:induction false} SplitJoinedLines(lines: seq<string>)
    requires lines != []
    requires forall l :: l in lines ==> BreakFree(l)
    ensures SplitLines(Join('\n', lines) + "\n") == lines
  {
    assert lines[0] in lines;
    if |lines| == 1 {
      SplitFirstLine(lines[0], "");
      EmptyEnds(lines[0] + "\n");
      assert lines == [lines[0]] + SplitLines("");
    } else {
      var rest := Join('\n', lines[1..]) + "\n";
      SplitJoinedLines(lines[1..]);
      SplitFirstLine(lines[0], rest);
      Associative(lines[0] + ['\n'], Join('\n', lines[1..]), "\n");
      HeadAndTail(lines);
    }
  }

  /** A first part without the separator can be read off. */
  lemma FirstPartUnique(sep: char, p: string, q: string, s: string, t: string)
    requires sep !in p && sep !in q
    requires p + [sep] + s == q + [sep] + t
    ensures p == q && s == t
  {
    var whole := p + [sep] + s;
    assert whole[|p|] == sep && whole[|q|] == sep;
    assert forall i :: 0 <= i < |p| ==> whole[i] == p[i] && p[i] in p;
    assert forall i :: 0 <= i < |q| ==> whole[i] == q[i] && q[i] in q;
    assert |p| == |q|;
    assert p == whole[..|p|] && s == whole[|p| + 1..] && t == whole[|q| + 1..];
  }

  // ---------------------------------------------------------------- segments

  /** `s.split(sep)` for a one-character separator. */
  function Split(s: string, sep: char): (parts: seq<string>)
    ensures |parts| >= 1
  {
    if s == [] then [""]
    else
      var rest := Split(s[1..], sep);
      if s[0] == sep then [""] + rest else [[s[0]] + rest[0]] + rest[1..]
  }

  lemma {:induction false} JoinSplit(s: string, sep: char)
    ensures Join(sep, Split(s, sep)) == s
  {
    if s != [] {
      JoinSplit(s[1..], sep);
      var rest := Split(s[1..], sep);
      if s[0] != sep && |rest| > 1 {
        assert Split(s, sep)[1..] == rest[1..];
      }
    }
  }

  lemma SplitStep(c: char, s: string, sep: char)
    ensures Split([c] + s, sep) ==
            var rest := Split(s, sep);
            if c == sep then [""] + rest else [[c] + rest[0]] + rest[1..]
  {
    TailOfCons(c, s);
  }

  /** Splitting at a separator splits both sides. */
  lemma {:induction false} SplitConcat(a: string, b: string, sep: char)
    ensures Split(a + [sep] + b, sep) == Split(a, sep) + Split(b, sep)
  {
    if a == [] {
      EmptyEnds([sep]);
      SplitStep(sep, b, sep);
    } else {
      var c, t := a[0], a[1..];
      HeadAndTail(a);
      SplitConcat(t, b, sep);
      SplitStep(c, t, sep);
      SplitStep(c, t + [sep] + b, sep);
      assert [c] + t + [sep] + b == [c] + (t + [sep] + b);
      TailOfConcat(Split(t, sep), Split(b, sep));
      var left, right := Split(t, sep), Split(b, sep);
      Associative(if c == sep then [""] else [[c] + left[0]], if c == sep then left else left[1..], right);
    }
  }

  lemma {:induction false} SplitWithout(a: string, sep: char)
    requires sep !in a
    ensures Split(a, sep) == [a]
  {
    if a != [] {
      assert a[0] in a;
      SplitWithout(a[1..], sep);
      assert a == [a[0]] + a[1..];
      assert Split(a, sep) == [[a[0]] + a[1..]] + [a[1..]][1..];
    }
  }

  lemma {:induction false} SinglePart(s: string, sep: char)
    requires |Split(s, sep)| == 1
    ensures Split(s, sep) == [s] && sep !in s
  {
    if s != [] {
      SinglePart(s[1..], sep);
      HeadAndTail(s);
    }
  }

  lemma {:induction false} OnePartOnly(s: string, sep: char)
    requires sep !in s
    ensures |Split(s, sep)| == 1
  {
    SplitWithout(s, sep);
  }

  /** The last part is what follows the last separator. */
  lemma {:induction false} LastPartIsSuffix(s: string, sep: char) returns (front: string)
    ensures var parts := Split(s, sep);
            && s == front + parts[|parts| - 1] && sep !in parts[|parts| - 1]
            && (front == "" || front[|front| - 1] == sep)
  {
    if s == [] {
      front := "";
    } else {
      var rest := Split(s[1..], sep);
      var parts := Split(s, sep);
      var tail := LastPartIsSuffix(s[1..], sep);
      HeadAndTail(s);
      if |rest| > 1 || s[0] == sep {
        front := [s[0]] + tail;
        assert parts[|parts| - 1] == rest[|rest| - 1];
        Associative([s[0]], tail, rest[|rest| - 1]);
        if tail == "" && s[0] != sep { OnePartOnly(s[1..], sep); }
      } else {
        SinglePart(s[1..], sep);
        assert tail == "" by { assert |tail| + |rest[0]| == |s[1..]|; }
        front := "";
      }
    }
  }

  /** The first part reaches up to the first separator. */
  lemma FirstPartExact(first: string, rest: string, sep: char)
    requires sep !in first && (rest == "" || rest[0] == sep)
    ensures Split(first + rest, sep)[0] == first
  {
    SplitWithout(first, sep);
    if rest == "" {
      EmptyEnds(first);
    } else {
      assert first + rest == first + [sep] + rest[1..];
      SplitConcat(first, rest[1..], sep);
    }
  }

  lemma {:induction false} FirstPartIsPrefix(s: string, sep: char) returns (rest: string)
    ensures s == Split(s, sep)[0] + rest && sep !in Split(s, sep)[0] && (rest == "" || rest[0] == sep)
  {
    if s == [] {
      rest := "";
    } else if s[0] == sep {
      rest := s;
    } else {
      rest := FirstPartIsPrefix(s[1..], sep);
      HeadAndTail(s);
      Associative([s[0]], Split(s[1..], sep)[0], rest);
    }
  }

  lemma {:induction false} SplitJoin(parts: seq<string>, sep: char)
    requires parts != []
    requires forall p :: p in parts ==> sep !in p
    ensures Split(Join(sep, parts), sep) == parts
  {
    assert parts[0] in parts;
    HeadAndTail(parts);
    if |parts| == 1 {
      SplitWithout(parts[0], sep);
    } else {
      SplitJoin(parts[1..], sep);
      SplitWithout(parts[0], sep);
      SplitConcat(parts[0], Join(sep, parts[1..]), sep);
    }
  }

  lemma {:induction false} SplitParts(s: string, sep: char)
    ensures forall p :: p in Split(s, sep) ==> sep !in p
    ensures forall p, c :: p in Split(s, sep) && c in p ==> c in s
  {
    if s != [] {
      SplitParts(s[1..], sep);
      var rest := Split(s[1..], sep);
      assert rest[0] in rest;
      forall p | p in Split(s, sep) ensures sep !in p && forall c :: c in p ==> c in s {
        if s[0] == sep {
          assert p == "" || p in rest;
        } else {
          assert p == [s[0]] + rest[0] || p in rest;
        }
        assert s == [s[0]] + s[1..];
      }
    }
  }
}
